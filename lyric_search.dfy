/**
 * The sequential body of `LyricSearch::run_async` (src/lyric_search.cpp):
 * ordered fallback over the configured sources with a cancellation check
 * before each query, the parse guard, the save policy, and the single
 * publication of the result followed by the completion signal.
 *
 * Everything the worker asks of code outside this file is an input: each
 * source's query outcome, the abort flag at each check, the preferences, and
 * the LRC parser and its `shrink_text`.
 */
module Search {
  import Common
  import opened LyricRecord
  import Newlines

  /** What `source->query(m_track, m_abort)` does: throw, or return raw data. */
  datatype QueryOutcome = Throws | Returns(raw: LyricDataRaw)

  /** A configured source: its id, `is_local()`, and its query's outcome. */
  datatype Source = Source(id: Guid, isLocal: bool, outcome: QueryOutcome)

  /** `SaveMethod`; `Unrecognised` stands for any other value of the enum. */
  datatype SaveMethod = ConfigDirectory | Id3Tag | None | Unrecognised(code: int)

  /** The worker's view of everything outside the session.
      `abortFrom`: the abort flag can only go from clear to set, so it is
      described by the first source index whose `m_abort.check()` throws. */
  datatype Environment = Environment(
    sources: seq<Source>,
    abortFrom: nat,
    autosave: bool,
    saveMethod: SaveMethod,
    parse: LyricDataRaw -> LyricValue,
    shrink: LyricValue -> string)

  /** The externally visible steps of a search, in order. */
  datatype Event =
    | Query(source: nat)
    | Save(timestamped: bool, text: string)
    | Warning(saveMethod: SaveMethod)
    | Publish
    | Complete

  /** A query that ends the search: it returned without throwing and with non-empty text. */
  predicate Succeeds(src: Source)
  {
    src.outcome.Returns? && src.outcome.raw.text != []
  }

  /** What the source loop leaves behind: the index of `success_source`
      (`None` for `nullptr`), the last value of `lyric_data_raw`, and the
      indices of the sources queried, in order. */
  datatype ScanResult = ScanResult(success: Common.Option<nat>, raw: LyricDataRaw, queried: seq<nat>)

  /** Reference definition of the source loop from index `i` on, with
      `lyric_data_raw` currently `raw`. */
  function Scan(sources: seq<Source>, abortFrom: nat, i: nat, raw: LyricDataRaw): ScanResult
    requires i <= |sources|
    decreases |sources| - i
  {
    if i == |sources| then ScanResult(Common.None, raw, [])
    else if i >= abortFrom then Scan(sources, abortFrom, i + 1, raw)
    else
      match sources[i].outcome
      case Throws =>
        var rest := Scan(sources, abortFrom, i + 1, raw);
        rest.(queried := [i] + rest.queried)
      case Returns(r) =>
        if r.text != [] then ScanResult(Common.Some(i), r, [i])
        else
          var rest := Scan(sources, abortFrom, i + 1, r);
          rest.(queried := [i] + rest.queried)
  }

  /** The source loop of a whole search. */
  function SearchSources(env: Environment): ScanResult
  {
    Scan(env.sources, env.abortFrom, 0, EmptyRaw)
  }

  /** `ensure_windows_newlines(lyric_data_raw.text)`. */
  function Normalise(raw: LyricDataRaw): LyricDataRaw
  {
    raw.(text := Newlines.Crlf(raw.text))
  }

  /** The record the search publishes: the parse of the normalised raw text
      when there is any, the fresh empty record otherwise. */
  function Published(env: Environment): LyricValue
  {
    var raw := Normalise(SearchSources(env).raw);
    if raw.text != [] then env.parse(raw) else EmptyValue
  }

  /** The save step, for the published record and the successful source. */
  function SaveSteps(env: Environment, record: LyricValue, success: Common.Option<nat>): seq<Event>
  {
    if !record.IsEmpty() && env.autosave && success.Some? && success.value < |env.sources| &&
       !env.sources[success.value].isLocal
    then
      match env.saveMethod
      case ConfigDirectory =>
        if record.IsTimestamped() then [Save(true, env.shrink(record))] else [Save(false, record.text)]
      case Id3Tag => [Warning(Id3Tag)]
      case None => []
      case Unrecognised(code) => [Warning(Unrecognised(code))]
    else []
  }

  /** One `Query` event per queried source, in order. */
  function Queries(q: seq<nat>): seq<Event>
  {
    if q == [] then [] else Queries(q[..|q| - 1]) + [Query(q[|q| - 1])]
  }

  /** Everything the worker does that can be observed, in order. */
  function Trace(env: Environment): seq<Event>
  {
    var scan := SearchSources(env);
    Queries(scan.queried) + SaveSteps(env, Published(env), scan.success) + [Publish, Complete]
  }

  /** The indices `lo`, `lo + 1`, ..., `hi - 1`. */
  function Range(lo: nat, hi: nat): (r: seq<nat>)
    ensures |r| == if lo <= hi then hi - lo else 0
    ensures forall k :: 0 <= k < |r| ==> r[k] == lo + k
    decreases hi - lo
  {
    if lo >= hi then [] else [lo] + Range(lo + 1, hi)
  }

  /** Where the queries of a scan from `j` stop: just after the successful
      source, or at the end of the list or the first aborted check. */
  function QueryEnd(sources: seq<Source>, abortFrom: nat, j: nat, success: Common.Option<nat>): nat
  {
    if success.Some? then success.value + 1
    else
      var stop := if |sources| < abortFrom then |sources| else abortFrom;
      if stop < j then j else stop
  }

  /** What the scan from `j` does, stated without recursion: it succeeds at
      a source only if that source's query runs (no abort yet) and returns
      non-empty text, no earlier source from `j` on succeeded, and the
      queries issued are exactly the consecutive indices up to where it
      stopped. After a failed scan the raw text is still empty. */
  lemma {:induction false} ScanOutcome(sources: seq<Source>, abortFrom: nat, j: nat, raw: LyricDataRaw)
    requires j <= |sources| && raw.text == []
    ensures var r := Scan(sources, abortFrom, j, raw);
      (r.success.Some? ==>
         j <= r.success.value < |sources| && r.success.value < abortFrom &&
         Succeeds(sources[r.success.value]) && r.raw == sources[r.success.value].outcome.raw) &&
      (forall m :: j <= m < |sources| && m < abortFrom && (r.success.None? || m < r.success.value) ==>
         !Succeeds(sources[m])) &&
      (r.success.None? ==> r.raw.text == []) &&
      r.queried == Range(j, QueryEnd(sources, abortFrom, j, r.success))
    decreases |sources| - j
  {
    if j < |sources| {
      if j >= abortFrom {
        ScanOutcome(sources, abortFrom, j + 1, raw);
      } else if !Succeeds(sources[j]) {
        var next := if sources[j].outcome.Throws? then raw else sources[j].outcome.raw;
        ScanOutcome(sources, abortFrom, j + 1, next);
        var rest := Scan(sources, abortFrom, j + 1, next);
        assert Scan(sources, abortFrom, j, raw) == rest.(queried := [j] + rest.queried);
        assert [j] + Range(j + 1, QueryEnd(sources, abortFrom, j + 1, rest.success)) ==
               Range(j, QueryEnd(sources, abortFrom, j, rest.success));
      }
    }
  }

  /** Regrouping the worker's steps as one trace. */
  lemma AppendSteps(prior: seq<Event>, queries: seq<Event>, steps: seq<Event>)
    ensures prior + queries + steps + [Publish] + [Complete] == prior + (queries + steps + [Publish, Complete])
  {
  }

  // Properties of a search

  /** First success wins: the search succeeds at source `k` exactly when the
      abort had not been signalled by the check before `k`, `k`'s query
      returned non-empty text, and no earlier source did. */
  lemma FirstSuccessWins(env: Environment, k: nat)
    ensures SearchSources(env).success == Common.Some(k) <==>
            k < |env.sources| && k < env.abortFrom && Succeeds(env.sources[k]) &&
            forall m :: 0 <= m < k ==> !Succeeds(env.sources[m])
  {
    ScanOutcome(env.sources, env.abortFrom, 0, EmptyRaw);
  }

  /** Sources are queried in configured order, one after the other from the
      first, and none is queried after the successful one or once the abort
      check has failed. */
  lemma QueriedInOrder(env: Environment)
    ensures var r := SearchSources(env);
      r.queried == Range(0, QueryEnd(env.sources, env.abortFrom, 0, r.success)) &&
      (forall j :: j in r.queried ==> j < env.abortFrom && j < |env.sources|) &&
      (r.success.Some? ==> forall j :: j in r.queried ==> j <= r.success.value)
  {
    ScanOutcome(env.sources, env.abortFrom, 0, EmptyRaw);
  }

  /** After the loop the raw text is non-empty exactly when a source
      succeeded, and it is then that source's text. */
  lemma RawIffSuccess(env: Environment)
    ensures var r := SearchSources(env);
      (r.raw.text != [] <==> r.success.Some?) &&
      (r.success.Some? ==>
         r.success.value < |env.sources| && Succeeds(env.sources[r.success.value]) &&
         r.raw == env.sources[r.success.value].outcome.raw)
  {
    ScanOutcome(env.sources, env.abortFrom, 0, EmptyRaw);
  }

  /** When every source fails, nothing is parsed or saved and the fresh empty
      record is published. */
  lemma FailedSearchPublishesEmpty(env: Environment)
    requires SearchSources(env).success.None?
    ensures Published(env) == EmptyValue
    ensures Trace(env) == Queries(SearchSources(env).queried) + [Publish, Complete]
  {
    RawIffSuccess(env);
    Newlines.CrlfEmptyIff(SearchSources(env).raw.text);
  }

  /** When source `k` succeeds, the published record is the parse of its
      normalised text. */
  lemma SuccessfulSearchPublishesParse(env: Environment, k: nat)
    requires SearchSources(env).success == Common.Some(k)
    ensures k < |env.sources| && Succeeds(env.sources[k])
    ensures Published(env) == env.parse(Normalise(env.sources[k].outcome.raw))
  {
    RawIffSuccess(env);
    Newlines.CrlfEmptyIff(SearchSources(env).raw.text);
  }

  /** The query steps are queries only. */
  lemma QueriesAreQueries(q: seq<nat>)
    ensures forall e :: e in Queries(q) <==> e.Query? && e.source in q
  {
    if q != [] {
      QueriesAreQueries(q[..|q| - 1]);
      assert q == q[..|q| - 1] + [q[|q| - 1]];
    }
  }

  /** The save steps are at most one save or one warning. */
  lemma SaveStepsShape(env: Environment, record: LyricValue, success: Common.Option<nat>)
    ensures |SaveSteps(env, record, success)| <= 1
    ensures forall e :: e in SaveSteps(env, record, success) ==> e.Save? || e.Warning?
  {
  }

  /** The result is published exactly once, as the last step but one, and
      the completion signal follows it; so the signal is given exactly once
      too, and only after publication. */
  lemma PublishedExactlyOnce(env: Environment)
    ensures var t := Trace(env);
      |t| >= 2 && t[|t| - 2] == Publish && t[|t| - 1] == Complete &&
      multiset(t)[Publish] == 1 && multiset(t)[Complete] == 1
  {
    var scan := SearchSources(env);
    var q := Queries(scan.queried);
    var st := SaveSteps(env, Published(env), scan.success);
    QueriesAreQueries(scan.queried);
    SaveStepsShape(env, Published(env), scan.success);
    assert Publish !in q && Complete !in q && Publish !in st && Complete !in st;
    assert multiset(Trace(env)) == multiset(q) + multiset(st) + multiset([Publish, Complete]);
  }

  /** The worker consults a source only by querying it, and the query steps
      of the trace are exactly the sources queried. */
  lemma TraceQueries(env: Environment, j: nat)
    ensures Query(j) in Trace(env) <==> j in SearchSources(env).queried
  {
    var scan := SearchSources(env);
    QueriesAreQueries(scan.queried);
    SaveStepsShape(env, Published(env), scan.success);
  }

  /** The conditions, shared by every save method, under which `run_async`
      looks at the save method at all. */
  predicate SaveConsidered(env: Environment)
  {
    var success := SearchSources(env).success;
    !Published(env).IsEmpty() && env.autosave && success.Some? && success.value < |env.sources| &&
    !env.sources[success.value].isLocal
  }

  /** `SaveLyrics` is called exactly when the published record is non-empty,
      autosave is on, the successful source is not local and the save method
      is the configuration directory; a timestamped record is written in its
      shrunk form, any other record as its text. The tag method and
      unrecognised methods warn instead, and `None` does nothing. */
  lemma SavePolicy(env: Environment)
    ensures (exists ts, txt :: Save(ts, txt) in Trace(env)) <==>
            SaveConsidered(env) && env.saveMethod == ConfigDirectory
    ensures forall ts, txt :: Save(ts, txt) in Trace(env) ==>
            ts == Published(env).IsTimestamped() &&
            txt == (if ts then env.shrink(Published(env)) else Published(env).text)
    ensures (exists m :: Warning(m) in Trace(env)) <==>
            SaveConsidered(env) && (env.saveMethod.Id3Tag? || env.saveMethod.Unrecognised?)
    ensures forall m :: Warning(m) in Trace(env) ==> m == env.saveMethod
  {
    var scan := SearchSources(env);
    var q := Queries(scan.queried);
    var st := SaveSteps(env, Published(env), scan.success);
    QueriesAreQueries(scan.queried);
    assert Trace(env) == q + st + [Publish, Complete];
    forall e | e in Trace(env) && (e.Save? || e.Warning?)
      ensures e in st
    {
    }
    if SaveConsidered(env) && env.saveMethod == ConfigDirectory {
      assert st[0] in Trace(env);
    }
    if SaveConsidered(env) && (env.saveMethod.Id3Tag? || env.saveMethod.Unrecognised?) {
      assert st[0] in Trace(env);
    }
  }

  /** The three-source example: a source that throws, one that returns empty
      text and one that returns lyrics; the third wins after all three were
      queried in order. */
  lemma FallbackExample(env: Environment, a: Guid, b: Guid, c: Guid, lyrics: string)
    requires lyrics != [] && env.abortFrom >= 3
    requires env.sources == [Source(a, false, Throws),
                             Source(b, false, Returns(LyricDataRaw(b, ""))),
                             Source(c, false, Returns(LyricDataRaw(c, lyrics)))]
    ensures SearchSources(env) == ScanResult(Common.Some(2), LyricDataRaw(c, lyrics), [0, 1, 2])
    ensures Published(env) == env.parse(LyricDataRaw(c, Newlines.Crlf(lyrics)))
  {
    FirstSuccessWins(env, 2);
    QueriedInOrder(env);
    RawIffSuccess(env);
    SuccessfulSearchPublishesParse(env, 2);
    assert Range(0, 3) == [0, 1, 2];
  }

  /** The source loop of `run_async`: for each configured source in order,
      the abort check and then the query; a throw from either is caught and
      the loop moves on, empty text counts as a failure, and the first
      non-empty text ends the loop. Returns `success_source` (as an index),
      the final `lyric_data_raw`, and the indices of the sources queried. */
  method QueryActiveSources(env: Environment) returns (successSource: Common.Option<nat>, lyricDataRaw: LyricDataRaw, queried: seq<nat>)
    ensures successSource == SearchSources(env).success
    ensures queried == SearchSources(env).queried
    ensures lyricDataRaw.text != [] <==> successSource.Some?
    ensures successSource.Some? ==> lyricDataRaw == SearchSources(env).raw
  {
    // The reference `Scan` is reached only through `ScanOutcome`.
    hide Scan, Range;
    successSource := Common.None;
    lyricDataRaw := EmptyRaw;
    queried := [];
    var i := 0;
    while i < |env.sources|
      invariant i <= |env.sources|
      invariant successSource == Common.None
      invariant queried == Range(0, if i < env.abortFrom then i else env.abortFrom)
      invariant forall m :: 0 <= m < i && m < env.abortFrom ==> !Succeeds(env.sources[m])
      invariant lyricDataRaw.text == []
    {
      var source := env.sources[i];
      if i >= env.abortFrom {
        // m_abort.check() throws; the exception is caught and the loop goes on.
      } else {
        queried := queried + [i];
        match source.outcome
        case Throws =>
        case Returns(r) =>
          lyricDataRaw := r;
          if lyricDataRaw.text != [] {
            successSource := Common.Some(i);
            break;
          }
      }
      i := i + 1;
    }
    ScanOutcome(env.sources, env.abortFrom, 0, EmptyRaw);
  }

  /** The `try` block of `run_async` that may save the downloaded lyrics:
      the steps it takes for the record `lyricData` found by `successSource`. */
  method SaveIfDownloaded(env: Environment, lyricData: LyricData, successSource: Common.Option<nat>) returns (steps: seq<Event>)
    requires successSource.Some? ==> successSource.value < |env.sources|
    ensures steps == SaveSteps(env, lyricData.Value(), successSource)
  {
    steps := [];
    if !lyricData.IsEmpty() && env.autosave && successSource.Some? &&
       !env.sources[successSource.value].isLocal
    {
      match env.saveMethod
      case ConfigDirectory =>
        if lyricData.IsTimestamped() {
          var shrunkText := env.shrink(lyricData.Value());
          steps := [Save(true, shrunkText)];
        } else {
          steps := [Save(false, lyricData.text)];
        }
      case Id3Tag =>
        steps := [Warning(Id3Tag)];
      case None =>
      case Unrecognised(code) =>
        steps := [Warning(Unrecognised(code))];
    }
  }

  /** The session as far as the worker sees it: `m_lyrics` (the published
      slot, `null` until publication), whether `m_complete` has been set, and
      the steps taken so far. */
  class LyricSearch {
    var lyrics: LyricData?
    var complete: bool
    ghost var events: seq<Event>

    /** Completion is only signalled after a result has been published. */
    ghost predicate Valid()
      reads this
    {
      complete ==> lyrics != null
    }

    /** The field initialisation of `LyricSearch::LyricSearch`: nothing
        published, completion event not set. */
    constructor ()
      ensures Valid() && lyrics == null && !complete && events == []
    {
      lyrics := null;
      complete := false;
      events := [];
    }

    /** `get_result`: reads the published slot; once the search is complete
        there is a result to read. */
    method GetResult() returns (r: LyricData?)
      requires Valid()
      ensures r == lyrics
      ensures complete ==> r != null
    {
      r := lyrics;
    }

    /** `run_async`, without the thread, the lock and the logging. */
    method RunAsync(env: Environment)
      modifies this
      ensures Valid() && complete
      ensures lyrics != null && fresh(lyrics) && lyrics.Value() == Published(env)
      ensures events == old(events) + Trace(env)
    {
      var lyricData := new LyricData();

      var successSource, lyricDataRaw, queried := QueryActiveSources(env);
      events := events + Queries(queried);
      ghost var scan := SearchSources(env);
      ScanOutcome(env.sources, env.abortFrom, 0, EmptyRaw);

      Newlines.CrlfEmptyIff(lyricDataRaw.text);
      var text := Newlines.EnsureWindowsNewlines(lyricDataRaw.text);
      lyricDataRaw := lyricDataRaw.(text := text);

      if lyricDataRaw.text != [] {
        var parsed := new LyricData.Holding(env.parse(lyricDataRaw));
        lyricData.MoveAssign(parsed);
      }
      assert lyricData.Value() == Published(env);

      var saveSteps := SaveIfDownloaded(env, lyricData, successSource);
      events := events + saveSteps;

      lyrics := lyricData;
      events := events + [Publish];

      complete := true;
      events := events + [Complete];
      AppendSteps(old(events), Queries(queried), saveSteps);
    }
  }
}
