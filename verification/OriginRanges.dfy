/** Ranges of preprocessed text and the comments of a source: each loop compares a range only with
    the end of the one before it. */
module OriginRanges {
  datatype Range = Range(start: nat, end: nat)

  datatype Comment = Comment(range: Range, text: string, barrier: nat)

  /** A slice of a text: within it, and at character boundaries. */
  ghost predicate IsSlice(range: Range, length: nat, boundary: nat -> bool)
  {
    range.start <= range.end <= length && boundary(range.start) && boundary(range.end)
  }

  ghost predicate InOrder(ranges: seq<Range>)
  {
    forall i, j | 0 <= i < j < |ranges| :: ranges[i].end <= ranges[j].start
  }

  function RangesOf(comments: seq<Comment>): seq<Range>
  {
    seq(|comments|, i requires 0 <= i < |comments| => comments[i].range)
  }

  /** Accepts exactly the non-empty slices that follow each other without overlap. */
  method CheckMappings(ranges: seq<Range>, length: nat, boundary: nat -> bool) returns (ok: bool)
    ensures ok <==>
              && (forall r | r in ranges :: IsSlice(r, length, boundary) && r.start < r.end)
              && InOrder(ranges)
  {
    var previousEnd := 0;
    for i := 0 to |ranges|
      invariant forall j | 0 <= j < i ::
        IsSlice(ranges[j], length, boundary) && ranges[j].start < ranges[j].end && ranges[j].end <= previousEnd
      invariant previousEnd == if i == 0 then 0 else ranges[i - 1].end
      invariant InOrder(ranges[..i])
    {
      var range := ranges[i];
      assert range in ranges;
      if range.start < previousEnd || range.start >= range.end {
        return false;
      }
      if range.end > length || !boundary(range.start) || !boundary(range.end) {
        return false;
      }
      previousEnd := range.end;
    }
    assert ranges[..|ranges|] == ranges;
    return true;
  }

  /** The comment's text is a slice of the source, followed by its barrier within the source. */
  ghost predicate IsComment(c: Comment, data: string, boundary: nat -> bool)
  {
    && IsSlice(c.range, |data|, boundary) && data[c.range.start..c.range.end] == c.text
    && c.range.end <= c.barrier <= |data|
  }

  /** Accepts exactly the comments that follow each other in the source without overlap; one may be empty. */
  method CheckComments(comments: seq<Comment>, data: string, boundary: nat -> bool) returns (ok: bool)
    ensures ok <==>
              && (forall c | c in comments :: IsComment(c, data, boundary))
              && InOrder(RangesOf(comments))
  {
    var end := 0;
    for i := 0 to |comments|
      invariant forall j | 0 <= j < i :: IsComment(comments[j], data, boundary) && comments[j].range.end <= end
      invariant end == if i == 0 then 0 else comments[i - 1].range.end
      invariant InOrder(RangesOf(comments)[..i])
    {
      var range := comments[i].range;
      assert comments[i] in comments && RangesOf(comments)[i] == range;
      if i > 0 {
        assert RangesOf(comments)[i - 1] == comments[i - 1].range;
      }
      if range.start < end || range.start > range.end || range.end > |data| {
        return false;
      }
      if !boundary(range.start) || !boundary(range.end) || data[range.start..range.end] != comments[i].text {
        return false;
      }
      if comments[i].barrier < range.end || comments[i].barrier > |data| {
        return false;
      }
      end := range.end;
    }
    assert RangesOf(comments)[..|comments|] == RangesOf(comments);
    return true;
  }

  /** An offset has at most one mapping, so a lookup by offset is well defined. */
  lemma OffsetHasOneMapping(ranges: seq<Range>, offset: nat, i: nat, j: nat)
    requires InOrder(ranges) && i < |ranges| && j < |ranges|
    ensures ranges[i].start <= offset < ranges[i].end && ranges[j].start <= offset < ranges[j].end ==> i == j
  {
    if i < j {
      assert ranges[i].end <= ranges[j].start;
    } else if j < i {
      assert ranges[j].end <= ranges[i].start;
    }
  }

  function Lengths(ranges: seq<Range>): int
  {
    if ranges == [] then 0
    else Lengths(ranges[..|ranges| - 1]) + ranges[|ranges| - 1].end - ranges[|ranges| - 1].start
  }

  predicate Inside(o: int, r: Range)
  {
    r.start <= o < r.end
  }

  ghost function OffsetsOf(r: Range): set<int>
  {
    set o | r.start <= o < r.end && Inside(o, r)
  }

  /** The offsets of a text that lie in some range. */
  ghost function Offsets(ranges: seq<Range>): set<int>
  {
    set r, o | r in ranges && o in OffsetsOf(r) :: o
  }

  lemma {:induction false} RangeSize(r: Range)
    requires r.start <= r.end
    ensures |OffsetsOf(r)| == r.end - r.start
    decreases r.end - r.start
  {
    if r.start == r.end {
      assert OffsetsOf(r) == {};
    } else {
      RangeSize(Range(r.start, r.end - 1));
      assert forall o | o in OffsetsOf(r) :: o != r.end - 1 ==> Inside(o, Range(r.start, r.end - 1));
      assert Inside(r.end - 1, r);
      assert OffsetsOf(r) == OffsetsOf(Range(r.start, r.end - 1)) + {r.end - 1};
    }
  }

  lemma OffsetsStep(front: seq<Range>, last: Range)
    ensures Offsets(front + [last]) == Offsets(front) + OffsetsOf(last)
  {
    assert forall r :: r in front + [last] <==> r in front || r == last;
  }

  /** Ranges in order cover as many offsets as they are long together. */
  lemma {:induction false} LengthsAreCovered(ranges: seq<Range>)
    requires InOrder(ranges)
    requires forall r | r in ranges :: r.start <= r.end
    ensures |Offsets(ranges)| == Lengths(ranges)
  {
    if ranges == [] {
      assert Offsets(ranges) == {};
    } else {
      var (front, last) := (ranges[..|ranges| - 1], ranges[|ranges| - 1]);
      assert ranges == front + [last];
      LengthsAreCovered(front);
      RangeSize(last);
      OffsetsStep(front, last);
      forall o | o in Offsets(front) ensures o !in OffsetsOf(last) {
        var r :| r in front && o in OffsetsOf(r);
        var i :| 0 <= i < |front| && front[i] == r;
        assert ranges[i].end <= ranges[|front|].start;
      }
    }
  }

  /** So they cover no more than the text before the last end. */
  lemma {:induction false} LengthsFit(ranges: seq<Range>, length: nat)
    requires InOrder(ranges)
    requires forall r | r in ranges :: r.start <= r.end <= length
    ensures Lengths(ranges) <= if ranges == [] then 0 else ranges[|ranges| - 1].end
    ensures Lengths(ranges) <= length
  {
    if ranges == [] {
    } else {
      var front, last := ranges[..|ranges| - 1], ranges[|ranges| - 1];
      LengthsFit(front, length);
      assert last in ranges;
      if front != [] {
        assert front[|front| - 1].end <= last.start;
      }
    }
  }
}
