/**
 * Line-ending normalisation applied to downloaded lyric text before it is
 * parsed (`ensure_windows_newlines` in src/lyric_search.cpp).
 */
module Newlines {
  import opened Common

  /** `str.find(c, from)`: the first index at or after `from` holding `c`,
      or `None` for `npos` (which the source compares against
      `pfc::infinite_size`). A start past the end finds nothing. */
  function FindChar(str: string, c: char, from: nat): (r: Option<nat>)
    decreases |str| - from
    ensures r.Some? ==> from <= r.value < |str| && str[r.value] == c
    ensures r.Some? ==> forall i :: from <= i < r.value ==> str[i] != c
    ensures r.None? ==> forall i :: from <= i < |str| ==> str[i] != c
  {
    if from >= |str| then None
    else if str[from] == c then Some(from)
    else FindChar(str, c, from + 1)
  }

  /** Position `j` of `s` holds a line feed with no carriage return right before it. */
  predicate BareLfAt(s: string, j: nat)
    requires j < |s|
  {
    s[j] == '\n' && (j == 0 || s[j - 1] != '\r')
  }

  /** What the normalised text holds for position `j` of the input. */
  function Piece(s: string, j: nat): string
    requires j < |s|
  {
    if BareLfAt(s, j) then "\r\n" else [s[j]]
  }

  /** The normalised form of the first `k` characters of `s`. */
  function Normalised(s: string, k: nat): string
    requires k <= |s|
  {
    if k == 0 then [] else Normalised(s, k - 1) + Piece(s, k - 1)
  }

  /** The number of bare line feeds among the first `k` characters of `s`. */
  function BareLfs(s: string, k: nat): nat
    requires k <= |s|
  {
    if k == 0 then 0 else BareLfs(s, k - 1) + (if BareLfAt(s, k - 1) then 1 else 0)
  }

  /** Reference definition: `s` with one carriage return inserted before every
      line feed that is not already preceded by one, and nothing else changed. */
  function Crlf(s: string): string
  {
    Normalised(s, |s|)
  }

  /** The number of line feeds of `s` that lack a carriage return. */
  function BareLfCount(s: string): nat
  {
    BareLfs(s, |s|)
  }

  /** Every line feed of `s` is immediately preceded by a carriage return. */
  predicate AllLfHaveCr(s: string)
  {
    forall i :: 0 <= i < |s| && s[i] == '\n' ==> i > 0 && s[i - 1] == '\r'
  }

  /** The normalised prefix grows by one character per input character, plus
      one per bare line feed. */
  lemma {:induction false} NormalisedLength(s: string, k: nat)
    requires k <= |s|
    ensures |Normalised(s, k)| == k + BareLfs(s, k)
  {
    if k > 0 {
      NormalisedLength(s, k - 1);
    }
  }

  /** A non-empty normalised prefix ends with the input's last character. */
  lemma NormalisedLast(s: string, k: nat)
    requires 0 < k <= |s|
    ensures |Normalised(s, k)| > 0 && Normalised(s, k)[|Normalised(s, k)| - 1] == s[k - 1]
  {
  }

  /** Input characters without line feeds are copied as they are. */
  lemma {:induction false} NormalisedNoLf(s: string, k: nat, k': nat)
    requires k <= k' <= |s|
    requires forall i :: k <= i < k' ==> s[i] != '\n'
    ensures Normalised(s, k') == Normalised(s, k) + s[k..k']
    ensures BareLfs(s, k') == BareLfs(s, k)
    decreases k' - k
  {
    if k' > k {
      NormalisedNoLf(s, k, k' - 1);
      assert s[k..k' - 1] + [s[k' - 1]] == s[k..k'];
    }
  }

  /** One round of the search that reaches a line feed of the input not yet
      handled: the found index is the input position `k'` shifted by the
      carriage returns inserted so far, and the insertion test of the source
      holds exactly when that line feed is bare. */
  lemma FreshLf(s: string, k: nat, str: string, next: nat) returns (k': nat)
    requires k <= |s| && str == Normalised(s, k) + s[k..]
    requires |Normalised(s, k)| <= next < |str| && str[next] == '\n'
    requires forall i :: |Normalised(s, k)| <= i < next ==> str[i] != '\n'
    ensures k <= k' < |s| && s[k'] == '\n' && next == |Normalised(s, k')|
    ensures str == Normalised(s, k') + s[k'..]
    ensures (next == 0 || str[next - 1] != '\r') == BareLfAt(s, k')
    ensures BareLfs(s, k') == BareLfs(s, k)
  {
    var c := Normalised(s, k);
    var p := |c|;
    k' := k + (next - p);
    forall i | k <= i < k'
      ensures s[i] != '\n'
    {
      assert s[i] == str[p + (i - k)];
    }
    NormalisedNoLf(s, k, k');
    assert s[k..] == s[k..k'] + s[k'..];
    if k' > 0 {
      NormalisedLast(s, k');
      assert str[next - 1] == Normalised(s, k')[next - 1];
    }
  }

  /** The loop state of the source after it has handled the first `k` input
      characters: the text is their normalised form followed by the untouched
      rest, the search index is either past the handled part or on the line
      feed of a carriage return it has just inserted, and `count` carriage
      returns have been inserted. */
  predicate Scanned(s: string, k: nat, str: string, prev: nat, count: nat)
  {
    k <= |s| && str == Normalised(s, k) + s[k..] && count == BareLfs(s, k) &&
    (prev == |Normalised(s, k)| ||
     (1 <= prev == |Normalised(s, k)| - 1 && str[prev] == '\n' && str[prev - 1] == '\r'))
  }

  /** The source's test for the line feed found at `next`. */
  predicate NeedsCr(str: string, next: nat)
    requires next < |str|
  {
    next == 0 || str[next - 1] != '\r'
  }

  /** `str.insert(pos, 1, c)`: `c` placed before position `pos`. */
  function InsertChar(str: string, pos: nat, c: char): (r: string)
    requires pos <= |str|
    ensures |r| == |str| + 1 && r[pos] == c
    ensures forall i :: 0 <= i < pos ==> r[i] == str[i]
    ensures forall i :: pos <= i < |str| ==> r[i + 1] == str[i]
  {
    str[..pos] + [c] + str[pos..]
  }

  /** The text after the source's conditional insertion at `next`. */
  function AfterRound(str: string, next: nat): string
    requires next < |str|
  {
    if NeedsCr(str, next) then InsertChar(str, next, '\r') else str
  }

  /** The measure that the loop of the source decreases: input characters
      not yet handled, plus positions of the text not yet searched. */
  function Remaining(s: string, k: nat, str: string, prev: nat): int
  {
    (|s| - k) + (|str| - prev)
  }

  /** A bare line feed of the input at `j`, found at `next`: inserting the
      carriage return brings the text in line with one more input character,
      and the search resumes on the line feed itself. */
  lemma BareLfRound(s: string, j: nat, str: string, next: nat, count: nat)
    requires j < |s| && BareLfAt(s, j) && next == |Normalised(s, j)|
    requires str == Normalised(s, j) + s[j..] && count == BareLfs(s, j)
    ensures Scanned(s, j + 1, InsertChar(str, next, '\r'), next + 1, count + 1)
    ensures |InsertChar(str, next, '\r')| == |str| + 1
  {
    assert s[j..] == ['\n'] + s[j + 1..];
    assert str[..next] == Normalised(s, j);
    assert str[next..] == s[j..];
    assert InsertChar(str, next, '\r') == Normalised(s, j + 1) + s[j + 1..];
  }

  /** A line feed of the input at `j` that already follows a carriage return:
      the text is left alone and the search moves past it. */
  lemma CoveredLfRound(s: string, j: nat, str: string, next: nat, count: nat)
    requires j < |s| && s[j] == '\n' && !BareLfAt(s, j) && next == |Normalised(s, j)|
    requires str == Normalised(s, j) + s[j..] && count == BareLfs(s, j)
    ensures Scanned(s, j + 1, str, next + 1, count)
  {
    assert s[j..] == ['\n'] + s[j + 1..];
  }

  /** A round whose search starts past the handled part of the text reaches
      a line feed of the input not yet handled. */
  lemma FreshRound(s: string, k: nat, str: string, prev: nat, count: nat, next: nat) returns (k2: nat)
    requires Scanned(s, k, str, prev, count) && prev == |Normalised(s, k)|
    requires prev <= next < |str| && str[next] == '\n'
    requires forall i :: prev <= i < next ==> str[i] != '\n'
    ensures Scanned(s, k2, AfterRound(str, next), next + 1, count + if NeedsCr(str, next) then 1 else 0)
    ensures 0 <= Remaining(s, k2, AfterRound(str, next), next + 1) < Remaining(s, k, str, prev)
  {
    var j := FreshLf(s, k, str, next);
    k2 := j + 1;
    if BareLfAt(s, j) {
      BareLfRound(s, j, str, next, count);
    } else {
      CoveredLfRound(s, j, str, next, count);
    }
  }

  /** One round of the loop, given the text and counter the source leaves
      after its test, keeps `Scanned` and makes progress, although a round
      that follows an insertion neither inserts nor consumes an input
      character. */
  lemma ScanRound(s: string, k: nat, str: string, prev: nat, count: nat, next: nat,
                  str': string, count': nat) returns (k2: nat)
    requires Scanned(s, k, str, prev, count)
    requires prev <= next < |str| && str[next] == '\n'
    requires forall i :: prev <= i < next ==> str[i] != '\n'
    requires str' == AfterRound(str, next)
    requires count' == count + if NeedsCr(str, next) then 1 else 0
    ensures Scanned(s, k2, str', next + 1, count')
    ensures 0 <= Remaining(s, k2, str', next + 1) < Remaining(s, k, str, prev)
  {
    if prev == |Normalised(s, k)| {
      k2 := FreshRound(s, k, str, prev, count, next);
    } else {
      assert next == prev;
      assert !NeedsCr(str, next);
      k2 := k;
    }
  }

  /** Before the first round nothing is handled and nothing inserted. */
  lemma ScanStart(s: string)
    ensures Scanned(s, 0, s, 0, 0)
  {
    assert s[0..] == s;
  }

  /** When the search finds no further line feed, the text is normalised. */
  lemma ScanDone(s: string, k: nat, str: string, prev: nat, count: nat)
    requires Scanned(s, k, str, prev, count)
    requires forall i :: prev <= i < |str| ==> str[i] != '\n'
    ensures str == Crlf(s) && count == BareLfCount(s)
  {
    assert prev == |Normalised(s, k)|;
    forall i | k <= i < |s|
      ensures s[i] != '\n'
    {
      assert s[i] == str[prev + (i - k)];
    }
    NormalisedNoLf(s, k, |s|);
  }

  /** Inserts a carriage return before every line feed of `str` that does not
      already follow one, scanning with a moving start index exactly as the
      source does: after an insertion the next search starts at the line feed
      itself, finds it again and then passes it. */
  method EnsureWindowsNewlines(s: string) returns (str: string)
    ensures str == Crlf(s)
  {
    str := s;
    var replaceCount: nat := 0;
    var prevIndex: nat := 0;
    ghost var k: nat := 0;
    ScanStart(s);
    // The loop needs `Scanned` only as the state the round lemmas hand on.
    hide Scanned;
    while true
      invariant Scanned(s, k, str, prevIndex, replaceCount)
      decreases Remaining(s, k, str, prevIndex)
    {
      var found := FindChar(str, '\n', prevIndex);
      if found.None? {
        ScanDone(s, k, str, prevIndex, replaceCount);
        break;
      }
      var nextIndex := found.value;
      ghost var str0, count0 := str, replaceCount;
      if nextIndex == 0 || str[nextIndex - 1] != '\r' {
        str := InsertChar(str, nextIndex, '\r');
        replaceCount := replaceCount + 1;
      }
      k := ScanRound(s, k, str0, prevIndex, count0, nextIndex, str, replaceCount);

      prevIndex := nextIndex + 1;
    }
  }

  // Properties of the normalised text

  /** The text grows by exactly one character per bare line feed. */
  lemma CrlfLength(s: string)
    ensures |Crlf(s)| == |s| + BareLfCount(s)
  {
    NormalisedLength(s, |s|);
  }

  /** Emptiness is preserved both ways, so the parse guard of the search can
      be read on the text before or after normalisation. */
  lemma CrlfEmptyIff(s: string)
    ensures Crlf(s) == [] <==> s == []
  {
    CrlfLength(s);
  }

  lemma {:induction false} NormalisedAllLfHaveCr(s: string, k: nat)
    requires k <= |s|
    ensures AllLfHaveCr(Normalised(s, k))
  {
    if k > 0 {
      NormalisedAllLfHaveCr(s, k - 1);
      var a := Normalised(s, k - 1);
      var t := a + Piece(s, k - 1);
      forall i | 0 <= i < |t| && t[i] == '\n'
        ensures i > 0 && t[i - 1] == '\r'
      {
        if i >= |a| && !BareLfAt(s, k - 1) {
          assert i == |a| && k - 1 > 0 && s[k - 2] == '\r';
          NormalisedLast(s, k - 1);
        }
      }
    }
  }

  /** After normalisation every line feed is immediately preceded by a
      carriage return. */
  lemma CrlfAllLfHaveCr(s: string)
    ensures AllLfHaveCr(Crlf(s))
  {
    NormalisedAllLfHaveCr(s, |s|);
  }

  lemma AppendCount(a: string, b: string, c: char)
    ensures multiset(a + b)[c] == multiset(a)[c] + multiset(b)[c]
  {
  }

  lemma PrefixCount(s: string, k: nat, c: char)
    requires 0 < k <= |s|
    ensures multiset(s[..k])[c] == multiset(s[..k - 1])[c] + (if s[k - 1] == c then 1 else 0)
  {
    assert s[..k] == s[..k - 1] + [s[k - 1]];
  }

  lemma PieceCount(s: string, j: nat, c: char)
    requires j < |s|
    ensures multiset(Piece(s, j))[c] == (if s[j] == c then 1 else 0) + (if c == '\r' && BareLfAt(s, j) then 1 else 0)
  {
    if BareLfAt(s, j) {
      assert Piece(s, j) == ['\r'] + [s[j]];
    }
  }

  /** One step of the definitions of `Normalised` and `BareLfs`. */
  lemma NormalisedUnfold(s: string, k: nat)
    requires k <= |s|
    ensures k == 0 ==> Normalised(s, k) == [] && BareLfs(s, k) == 0
    ensures k > 0 ==> Normalised(s, k) == Normalised(s, k - 1) + Piece(s, k - 1)
    ensures k > 0 ==> BareLfs(s, k) == BareLfs(s, k - 1) + if BareLfAt(s, k - 1) then 1 else 0
  {
  }

  lemma {:induction false} NormalisedCount(s: string, k: nat, c: char)
    requires k <= |s|
    ensures multiset(Normalised(s, k))[c] == multiset(s[..k])[c] + (if c == '\r' then BareLfs(s, k) else 0)
  {
    // Only the one-step unfolding and the counting facts below are needed.
    hide *;
    NormalisedUnfold(s, k);
    if k == 0 {
      assert s[..k] == [];
    } else {
      NormalisedCount(s, k - 1, c);
      AppendCount(Normalised(s, k - 1), Piece(s, k - 1), c);
      PieceCount(s, k - 1, c);
      PrefixCount(s, k, c);
    }
  }

  /** Normalisation only adds carriage returns, one per bare line feed: the
      count of every other character, line feeds included, is unchanged. */
  lemma CrlfCounts(s: string, c: char)
    ensures multiset(Crlf(s))[c] == multiset(s)[c] + (if c == '\r' then BareLfCount(s) else 0)
    ensures multiset(Crlf(s))['\n'] == multiset(s)['\n']
  {
    assert s[..|s|] == s;
    NormalisedCount(s, |s|, c);
    NormalisedCount(s, |s|, '\n');
  }

  lemma {:induction false} NormalisedIdentity(s: string, k: nat)
    requires k <= |s| && AllLfHaveCr(s)
    ensures Normalised(s, k) == s[..k]
  {
    if k > 0 {
      NormalisedIdentity(s, k - 1);
      assert !BareLfAt(s, k - 1);
      assert s[..k] == s[..k - 1] + [s[k - 1]];
    }
  }

  lemma {:induction false} NoBareLfs(s: string, k: nat)
    requires k <= |s| && BareLfs(s, k) == 0
    ensures forall j :: 0 <= j < k ==> !BareLfAt(s, j)
  {
    if k > 0 {
      NoBareLfs(s, k - 1);
    }
  }

  /** A text is left unchanged exactly when all its line feeds already follow
      a carriage return; in particular a text without line feeds, the empty
      text among them, passes through as it is. */
  lemma CrlfFixedIff(s: string)
    ensures Crlf(s) == s <==> AllLfHaveCr(s)
    ensures (forall i :: 0 <= i < |s| ==> s[i] != '\n') ==> Crlf(s) == s
  {
    if AllLfHaveCr(s) {
      NormalisedIdentity(s, |s|);
      assert s[..|s|] == s;
    }
    if Crlf(s) == s {
      CrlfLength(s);
      NoBareLfs(s, |s|);
      forall i | 0 <= i < |s| && s[i] == '\n'
        ensures i > 0 && s[i - 1] == '\r'
      {
        assert !BareLfAt(s, i);
      }
    }
  }

  /** Normalising twice is normalising once. */
  lemma CrlfIdempotent(s: string)
    ensures Crlf(Crlf(s)) == Crlf(s)
  {
    CrlfAllLfHaveCr(s);
    CrlfFixedIff(Crlf(s));
  }
}
