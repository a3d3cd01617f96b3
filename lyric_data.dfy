/**
 * The lyric record types of src/lyric_data.h and the member functions of
 * src/lyric_data.cpp. A line's character buffer is modelled by the identity
 * of the allocation it points to; allocation and release are modelled by an
 * `Allocator` that tracks which buffers are live.
 */
module LyricRecord {

  /** An opaque `GUID` value; `NullGuid` is the value-initialised `{}`. */
  datatype Guid = Guid(bits: nat)

  const NullGuid: Guid := Guid(0)

  /** `LyricDataRaw`: what a source query returns. */
  datatype LyricDataRaw = LyricDataRaw(sourceId: Guid, text: string)

  /** `LyricDataRaw lyric_data_raw = {}`. */
  const EmptyRaw: LyricDataRaw := LyricDataRaw(NullGuid, "")

  /** A line's timestamp. The source stores a `double` and uses `DBL_MAX` as
      the "no timestamp" value; only that comparison is ever made. */
  datatype Timestamp = NoTimestamp | Seconds(offset: real)

  /** The identity of a heap allocation (a `TCHAR*` line buffer). */
  type BufferId = nat

  /** `LyricDataLine`: a pointer to an owned text buffer, its length and a timestamp. */
  datatype LyricDataLine = LyricDataLine(text: BufferId, textLength: nat, timestamp: Timestamp)

  /** The contents of a `LyricData` record, as a value. */
  datatype LyricValue = LyricValue(sourceId: Guid, text: string, tags: seq<string>, lines: seq<LyricDataLine>)
  {
    /** `LyricData::IsEmpty`: the record has no lines (its text may still be
        non-empty). So an empty record owns no buffer, and its destructor
        releases nothing. */
    predicate IsEmpty()
      ensures IsEmpty() <==> Buffers(lines) == {}
    {
      assert |lines| > 0 ==> lines[0].text in Buffers(lines);
      |lines| == 0
    }

    /** `LyricData::IsTimestamped`: there is a first line and it carries a
        real timestamp. Only the first line is inspected. */
    predicate IsTimestamped()
      ensures IsTimestamped() ==> !IsEmpty()
      ensures IsTimestamped() ==> exists i :: 0 <= i < |lines| && lines[i].timestamp != NoTimestamp
    {
      |lines| > 0 && lines[0].timestamp != NoTimestamp
    }
  }

  /** The state of a default-constructed record, and of every moved-from one. */
  const EmptyValue: LyricValue := LyricValue(NullGuid, "", [], [])

  /** The buffers a sequence of lines points to. */
  function Buffers(lines: seq<LyricDataLine>): set<BufferId>
  {
    set i | 0 <= i < |lines| :: lines[i].text
  }

  /** The buffers a sequence of lines points to, counted with multiplicity. */
  function BufferBag(lines: seq<LyricDataLine>): multiset<BufferId>
  {
    if lines == [] then multiset{} else BufferBag(lines[..|lines| - 1]) + multiset{lines[|lines| - 1].text}
  }

  /** No two lines share a buffer: each buffer has a single owner. */
  predicate UniqueBuffers(lines: seq<LyricDataLine>)
  {
    forall i, j :: 0 <= i < j < |lines| ==> lines[i].text != lines[j].text
  }

  /** The lines are uniformly timestamped: all of them, or none. The parser
      is responsible for this; the record does not enforce it. */
  predicate UniformTimestamps(lines: seq<LyricDataLine>)
  {
    (forall i :: 0 <= i < |lines| ==> lines[i].timestamp != NoTimestamp) ||
    (forall i :: 0 <= i < |lines| ==> lines[i].timestamp == NoTimestamp)
  }

  /** A timestamped record is never empty. */
  lemma TimestampedNotEmpty(v: LyricValue)
    ensures v.IsTimestamped() ==> !v.IsEmpty()
  {
  }

  /** Under the parser's uniformity contract, looking only at the first line
      decides the question for every line. */
  lemma TimestampedUniform(v: LyricValue)
    requires UniformTimestamps(v.lines)
    ensures v.IsTimestamped() <==>
            (|v.lines| > 0 && forall i :: 0 <= i < |v.lines| ==> v.lines[i].timestamp != NoTimestamp)
  {
  }

  /** Dropping the last line from the buffer set and the buffer bag. */
  lemma BuffersSplitLast(lines: seq<LyricDataLine>)
    requires lines != []
    ensures Buffers(lines) == Buffers(lines[..|lines| - 1]) + {lines[|lines| - 1].text}
    ensures BufferBag(lines) == BufferBag(lines[..|lines| - 1]) + multiset{lines[|lines| - 1].text}
  {
    BuffersShrink(lines);
    BuffersGrow(lines);
    hide *;
    BufferBagSplitLast(lines);
  }

  lemma BuffersShrink(lines: seq<LyricDataLine>)
    requires lines != []
    ensures Buffers(lines) <= Buffers(lines[..|lines| - 1]) + {lines[|lines| - 1].text}
  {
    var init := lines[..|lines| - 1];
    forall b | b in Buffers(lines)
      ensures b in Buffers(init) + {lines[|lines| - 1].text}
    {
      var i :| 0 <= i < |lines| && lines[i].text == b;
      if i < |init| {
        assert init[i] == lines[i];
      }
    }
  }

  lemma BuffersGrow(lines: seq<LyricDataLine>)
    requires lines != []
    ensures Buffers(lines[..|lines| - 1]) + {lines[|lines| - 1].text} <= Buffers(lines)
  {
    var init := lines[..|lines| - 1];
    forall b | b in Buffers(init)
      ensures b in Buffers(lines)
    {
      var i :| 0 <= i < |init| && init[i].text == b;
      assert lines[i] == init[i];
    }
    assert lines[|lines| - 1].text in Buffers(lines);
  }

  lemma BufferBagSplitLast(lines: seq<LyricDataLine>)
    requires lines != []
    ensures BufferBag(lines) == BufferBag(lines[..|lines| - 1]) + multiset{lines[|lines| - 1].text}
  {
  }

  /** The bag holds exactly the buffers of the set. */
  lemma {:induction false} BufferBagMembers(lines: seq<LyricDataLine>)
    ensures forall b :: BufferBag(lines)[b] > 0 <==> b in Buffers(lines)
  {
    if lines != [] {
      BufferBagMembers(lines[..|lines| - 1]);
      BuffersSplitLast(lines);
    }
  }

  /** No buffer occurs more than once in the bag. */
  ghost predicate OwnedOnce(bag: multiset<BufferId>)
  {
    forall b :: bag[b] <= 1
  }

  lemma {:induction false} UniqueHasSingleCounts(lines: seq<LyricDataLine>)
    requires UniqueBuffers(lines)
    ensures OwnedOnce(BufferBag(lines))
  {
    if lines != [] {
      var init := lines[..|lines| - 1];
      var last := lines[|lines| - 1].text;
      assert forall i :: 0 <= i < |init| ==> init[i] == lines[i];
      assert UniqueBuffers(init);
      assert last !in Buffers(init);
      UniqueHasSingleCounts(init);
      BufferBagMembers(init);
      BuffersSplitLast(lines);
      hide *;
      forall b
        ensures BufferBag(lines)[b] <= 1
      {
        assert BufferBag(init)[b] <= 1;
      }
    }
  }

  lemma {:induction false} SingleCountsAreUnique(lines: seq<LyricDataLine>)
    requires OwnedOnce(BufferBag(lines))
    ensures UniqueBuffers(lines)
  {
    if lines != [] {
      var init := lines[..|lines| - 1];
      var last := lines[|lines| - 1].text;
      BuffersSplitLast(lines);
      BufferBagMembers(init);
      forall b
        ensures BufferBag(init)[b] <= 1
      {
        assert BufferBag(lines)[b] <= 1;
      }
      assert BufferBag(lines)[last] <= 1;
      assert last !in Buffers(init);
      SingleCountsAreUnique(init);
      forall i, j | 0 <= i < j < |lines|
        ensures lines[i].text != lines[j].text
      {
        assert i < |init| && init[i] == lines[i];
        if j == |lines| - 1 {
          assert lines[i].text in Buffers(init);
        } else {
          assert init[j] == lines[j];
        }
      }
    }
  }

  /** A bag of buffers has no repeated element exactly when no two lines share one. */
  lemma BufferBagUnique(lines: seq<LyricDataLine>)
    ensures UniqueBuffers(lines) <==> OwnedOnce(BufferBag(lines))
    ensures forall b :: BufferBag(lines)[b] > 0 <==> b in Buffers(lines)
  {
    BufferBagMembers(lines);
    if UniqueBuffers(lines) {
      UniqueHasSingleCounts(lines);
    }
    if OwnedOnce(BufferBag(lines)) {
      SingleCountsAreUnique(lines);
    }
  }

  /** Ownership across a move: when the lines of the destination and the
      source together hold exactly the buffers the source held before, and
      those were owned once each, then they still are, no record shares a
      buffer with the other, and no buffer was lost or added. Destroying both
      records therefore releases each of those buffers exactly once. */
  lemma MoveKeepsSingleOwnership(before: seq<LyricDataLine>, dst: seq<LyricDataLine>, src: seq<LyricDataLine>)
    requires BufferBag(dst) + BufferBag(src) == BufferBag(before)
    requires UniqueBuffers(before)
    ensures UniqueBuffers(dst) && UniqueBuffers(src)
    ensures Buffers(dst) !! Buffers(src)
    ensures Buffers(dst) + Buffers(src) == Buffers(before)
  {
    BufferBagUnique(before);
    BufferBagUnique(dst);
    BufferBagUnique(src);
    forall b
      ensures BufferBag(dst)[b] <= 1 && BufferBag(src)[b] <= 1
      ensures !(BufferBag(dst)[b] > 0 && BufferBag(src)[b] > 0)
    {
      assert BufferBag(dst)[b] + BufferBag(src)[b] == BufferBag(before)[b];
    }
    forall b | b in Buffers(dst) + Buffers(src)
      ensures b in Buffers(before)
    {
      assert BufferBag(dst)[b] + BufferBag(src)[b] == BufferBag(before)[b];
    }
    forall b | b in Buffers(before)
      ensures b in Buffers(dst) + Buffers(src)
    {
      assert BufferBag(dst)[b] + BufferBag(src)[b] == BufferBag(before)[b];
    }
  }

  /** The allocator behind `new[]`/`delete[]`: the set of buffers that are
      currently allocated. */
  class Allocator {
    var live: set<BufferId>

    constructor (live: set<BufferId>)
      ensures this.live == live
    {
      this.live := live;
    }

    /** `delete[] b`: releasing a buffer that is not live is undefined
        behaviour in the source, so it is excluded here. */
    method Release(b: BufferId)
      requires b in live
      modifies this
      ensures live == old(live) - {b}
    {
      live := live - {b};
    }
  }

  /** `struct LyricData : LyricDataRaw`. The source gives it no copy
      operation: a record's contents pass to another record only by
      `MoveAssign` or the move constructor. `Holding` is not a copy; it stands
      only for the temporary that the parser returns, which is moved from at
      once. */
  class LyricData {
    var sourceId: Guid
    var text: string
    var tags: seq<string>
    var lines: seq<LyricDataLine>

    /** The record's contents. */
    function Value(): LyricValue
      reads this
    {
      LyricValue(sourceId, text, tags, lines)
    }

    /** `LyricData::IsTimestamped`. */
    predicate IsTimestamped()
      reads this
      ensures IsTimestamped() ==> !IsEmpty()
    {
      Value().IsTimestamped()
    }

    /** `LyricData::IsEmpty`. */
    predicate IsEmpty()
      reads this
      ensures IsEmpty() <==> Buffers(lines) == {}
    {
      Value().IsEmpty()
    }

    /** `LyricData() = default`, value-initialised as by `new LyricData()`:
        no lines, so empty and not timestamped. */
    constructor ()
      ensures Value() == EmptyValue
      ensures IsEmpty() && !IsTimestamped()
    {
      sourceId, text, tags, lines := NullGuid, "", [], [];
    }

    /** A record holding `v`: the temporary the parser returns. It is used
        only for that temporary, never to duplicate another record. */
    constructor Holding(v: LyricValue)
      ensures Value() == v
    {
      sourceId, text, tags, lines := v.sourceId, v.text, v.tags, v.lines;
    }

    /** `LyricData(LyricData&& other)`: default members, then `*this = std::move(other)`.
        The result is what default construction followed by move-assignment gives. */
    constructor Moved(other: LyricData)
      modifies other
      ensures Value() == old(other.Value())
      ensures other.Value() == EmptyValue
      ensures BufferBag(lines) + BufferBag(other.lines) == old(BufferBag(other.lines))
    {
      sourceId, text, tags, lines := NullGuid, "", [], [];
      new;
      MoveAssign(other);
    }

    /** `operator=(LyricData&& other)`: the source id and the text are copied,
        the tags and lines are moved, and `other` is reset. The buffers this
        record held before are dropped without being released. The source
        does not guard against self-move, whose effect on the vectors the
        C++ library leaves unspecified, so `other` must be another record. */
    method MoveAssign(other: LyricData)
      requires other != this
      modifies this, other
      ensures Value() == old(other.Value())
      ensures other.Value() == EmptyValue && other.IsEmpty()
      ensures BufferBag(lines) + BufferBag(other.lines) == old(BufferBag(other.lines))
      ensures old(UniqueBuffers(other.lines)) ==> UniqueBuffers(lines)
    {
      sourceId := other.sourceId;
      text := other.text;
      tags, other.tags := other.tags, [];
      lines, other.lines := other.lines, [];

      other.sourceId := NullGuid;
      other.text := "";
    }

    /** `~LyricData()`: releases every line's buffer once. The lines must own
        distinct live buffers, otherwise the source would release one twice. */
    method Destroy(heap: Allocator)
      requires UniqueBuffers(lines) && Buffers(lines) <= heap.live
      modifies heap
      ensures heap.live == old(heap.live) - Buffers(lines)
    {
      for i := 0 to |lines|
        invariant heap.live == old(heap.live) - Buffers(lines[..i])
      {
        assert lines[..i + 1] == lines[..i] + [lines[i]];
        assert Buffers(lines[..i + 1]) == Buffers(lines[..i]) + {lines[i].text};
        assert lines[i].text !in Buffers(lines[..i]);
        heap.Release(lines[i].text);
      }
      assert lines[..|lines|] == lines;
    }
  }
}
