/** Code fences of Markdown text: `codeFenceRanges` of src/shared/thread-references.ts. */
module CodeFences {
  import opened Utf16

  /** Where a multiline pattern sees the end of a line. */
  predicate Terminator(u: Unit) { u == LF || u == CR || u == 0x2028 || u == 0x2029 }

  predicate White(u: Unit) {
    9 <= u <= 13 || u in {32, 160, 0x1680, 0x2028, 0x2029, 0x202F, 0x205F, 0x3000, 0xFEFF} || 0x2000 <= u <= 0x200A
  }

  predicate Blank(t: Text) { forall i :: 0 <= i < |t| ==> White(t[i]) }

  /** The end of the line that starts at `pos`. */
  function LineStop(value: Text, pos: nat): (e: nat)
    requires pos <= |value|
    ensures pos <= e <= |value|
    ensures e < |value| ==> Terminator(value[e])
    ensures forall i :: pos <= i < e ==> !Terminator(value[i])
    decreases |value| - pos
  {
    if pos == |value| || Terminator(value[pos]) then pos else LineStop(value, pos + 1)
  }

  lemma LineStopUnique(value: Text, pos: nat, e: nat)
    requires pos <= e <= |value| && (e < |value| ==> Terminator(value[e]))
    requires forall i :: pos <= i < e ==> !Terminator(value[i])
    ensures LineStop(value, pos) == e
  {
    var f := LineStop(value, pos);
    assert !(f < e) && !(e < f);
  }

  /** How often `u` is repeated at the start. */
  function RunLength(t: Text, u: Unit): (n: nat)
    ensures n <= |t|
  {
    if t == [] || t[0] != u then 0 else 1 + RunLength(t[1..], u)
  }

  datatype Marker = NoMarker | Marker(character: Unit, length: nat, blank: bool)

  const BACKTICK: Unit := 96
  const TILDE: Unit := 126

  /** Up to three spaces, then three or more backticks or tildes, then the rest of the line. */
  function MarkerOf(line: Text): (m: Marker)
    ensures m.Marker? ==> |line| >= 3
  {
    var spaces := RunLength(line, SPACE);
    var body := line[spaces..];
    if spaces > 3 || body == [] || (body[0] != BACKTICK && body[0] != TILDE) then NoMarker
    else
      var length := RunLength(body, body[0]);
      if length < 3 then NoMarker else Marker(body[0], length, Blank(body[length..]))
  }

  datatype Fence = NoFence | Fence(character: Unit, length: nat, start: nat)

  datatype Range = Range(start: nat, end: nat)

  predicate Closes(fence: Fence, m: Marker) {
    fence.Fence? && m.Marker? && m.character == fence.character && m.length >= fence.length && m.blank
  }

  /** The open fence after a line that starts at `pos`. */
  function After(fence: Fence, m: Marker, pos: nat): Fence {
    if Closes(fence, m) then NoFence
    else if fence.NoFence? && m.Marker? then Fence(m.character, m.length, pos)
    else fence
  }

  function MarkerAt(value: Text, pos: nat): Marker
    requires pos <= |value|
  {
    MarkerOf(value[pos..LineStop(value, pos)])
  }

  function Ranges(value: Text, pos: nat, fence: Fence): seq<Range>
    requires pos <= |value|
    decreases |value| - pos
  {
    var e, m := LineStop(value, pos), MarkerAt(value, pos);
    var next := After(fence, m, pos);
    Closed(fence, m, e) + (if e < |value| then Ranges(value, e + 1, next) else Last(next, |value|))
  }

  function Closed(fence: Fence, m: Marker, e: nat): seq<Range> {
    if Closes(fence, m) then [Range(fence.start, e)] else []
  }

  function Last(fence: Fence, end: nat): seq<Range> {
    if fence.Fence? then [Range(fence.start, end)] else []
  }

  method CodeFenceRanges(value: Text) returns (ranges: seq<Range>)
    ensures ranges == Ranges(value, 0, NoFence)
  {
    hide Ranges, MarkerOf;
    ranges := [];
    var fence := NoFence;
    var pos := 0;
    var e := 0;
    while true
      invariant 0 <= pos <= |value|
      invariant ranges + Ranges(value, pos, fence) == Ranges(value, 0, NoFence)
      decreases |value| - pos
    {
      e := LineStop(value, pos);
      var m := MarkerOf(value[pos..e]);
      RangesStep(value, pos, fence, ranges);
      ghost var before, open := ranges, fence;
      if m.Marker? {
        if fence.NoFence? {
          fence := Fence(m.character, m.length, pos);
        } else if m.character == fence.character && m.length >= fence.length && m.blank {
          ranges := ranges + [Range(fence.start, e)];
          fence := NoFence;
        }
      }
      assert ranges == before + Closed(open, m, e) && fence == After(open, m, pos);
      if e == |value| { break; }
      pos := e + 1;
    }
    if fence.Fence? { ranges := ranges + [Range(fence.start, |value|)]; }
  }

  function Rest(value: Text, pos: nat, fence: Fence): seq<Range>
    requires pos <= |value|
  {
    var e, next := LineStop(value, pos), After(fence, MarkerAt(value, pos), pos);
    if e < |value| then Ranges(value, e + 1, next) else Last(next, |value|)
  }

  lemma RangesUnfold(value: Text, pos: nat, fence: Fence)
    requires pos <= |value|
    ensures Ranges(value, pos, fence) ==
            Closed(fence, MarkerAt(value, pos), LineStop(value, pos)) + Rest(value, pos, fence)
  {
    hide MarkerAt, LineStop, After, Closed, Last;
  }

  lemma RangesStep(value: Text, pos: nat, fence: Fence, before: seq<Range>)
    requires pos <= |value|
    ensures before + Ranges(value, pos, fence) ==
            before + Closed(fence, MarkerAt(value, pos), LineStop(value, pos)) + Rest(value, pos, fence)
  {
    hide Ranges, MarkerAt, LineStop, Rest, Closed;
    RangesUnfold(value, pos, fence);
  }

  // ---- ranges are sorted and disjoint ----

  ghost predicate Ordered(ranges: seq<Range>) {
    && (forall i :: 0 <= i < |ranges| ==> ranges[i].start < ranges[i].end)
    && (forall i, j :: 0 <= i < j < |ranges| ==> ranges[i].end < ranges[j].start)
  }

  predicate Earlier(fence: Fence, pos: nat) { fence.Fence? ==> fence.start < pos }

  ghost predicate StartFrom(ranges: seq<Range>, low: nat) {
    forall i :: 0 <= i < |ranges| ==> ranges[i].start >= low
  }

  function LowEnd(fence: Fence, pos: nat): nat { if fence.Fence? then fence.start else pos }

  lemma OrderedCons(r: Range, rest: seq<Range>)
    requires r.start < r.end && Ordered(rest) && StartFrom(rest, r.end + 1)
    ensures Ordered([r] + rest) && StartFrom([r] + rest, r.start)
  {
  }

  lemma {:induction false} RangesOrdered(value: Text, pos: nat, fence: Fence)
    requires pos <= |value| && Earlier(fence, pos)
    ensures Ordered(Ranges(value, pos, fence)) && StartFrom(Ranges(value, pos, fence), LowEnd(fence, pos))
    decreases |value| - pos
  {
    hide MarkerAt, Ordered, StartFrom, Ranges, Terminator, LineStop;
    var e, m := LineStop(value, pos), MarkerAt(value, pos);
    var next := After(fence, m, pos);
    var rest := Rest(value, pos, fence);
    RangesUnfold(value, pos, fence);
    MarkedLineIsLong(value, pos);
    if e < |value| { RangesOrdered(value, e + 1, next); } else { OneRange(rest, next); }
    if Closes(fence, m) {
      OrderedCons(Range(fence.start, e), rest);
    } else {
      assert Closed(fence, m, e) + rest == rest;
      StartFromLower(rest, LowEnd(next, e + 1), LowEnd(fence, pos));
    }
  }

  lemma MarkedLineIsLong(value: Text, pos: nat)
    requires pos <= |value|
    ensures MarkerAt(value, pos).Marker? ==> LineStop(value, pos) >= pos + 3
  {
    hide MarkerOf, Terminator;
  }

  lemma OneRange(ranges: seq<Range>, fence: Fence)
    requires ranges == [] || (fence.Fence? && |ranges| == 1 && ranges[0].start == fence.start < ranges[0].end)
    ensures Ordered(ranges) && (fence.Fence? ==> StartFrom(ranges, fence.start))
    ensures ranges == [] ==> forall low :: StartFrom(ranges, low)
  {
  }

  lemma StartFromLower(ranges: seq<Range>, low: nat, lower: nat)
    requires StartFrom(ranges, low) && lower <= low
    ensures StartFrom(ranges, lower)
  {
  }

  ghost predicate InFence(ranges: seq<Range>, offset: nat) {
    exists i :: 0 <= i < |ranges| && ranges[i].start <= offset < ranges[i].end
  }

  /** The forward-only pointer of the scan. */
  function Skip(ranges: seq<Range>, index: nat, offset: nat): (k: nat)
    requires index <= |ranges|
    ensures index <= k <= |ranges|
    ensures forall i :: index <= i < k ==> ranges[i].end <= offset
    ensures k < |ranges| ==> ranges[k].end > offset
    decreases |ranges| - index
  {
    if index < |ranges| && ranges[index].end <= offset then Skip(ranges, index + 1, offset) else index
  }

  /** Its test agrees with looking through all ranges, as long as offsets grow. */
  lemma PointerAgrees(ranges: seq<Range>, index: nat, offset: nat)
    requires Ordered(ranges) && index <= |ranges|
    requires forall i :: 0 <= i < index ==> ranges[i].end <= offset
    ensures var k := Skip(ranges, index, offset);
            (k < |ranges| && ranges[k].start <= offset) <==> InFence(ranges, offset)
  {
    hide Skip;
    var k := Skip(ranges, index, offset);
    if i :| 0 <= i < |ranges| && ranges[i].start <= offset < ranges[i].end {
      assert k <= i;
    }
  }

  // ---- whether a line start is inside a fence ----

  predicate LineStart(value: Text, p: nat) { p == 0 || (p <= |value| && Terminator(value[p - 1])) }

  /** The open fence when the line at `stop` is reached. */
  function FenceAt(value: Text, pos: nat, stop: nat, fence: Fence): Fence
    requires pos <= stop <= |value|
    decreases stop - pos
  {
    var e := LineStop(value, pos);
    if e >= stop then fence else FenceAt(value, e + 1, stop, After(fence, MarkerAt(value, pos), pos))
  }

  /** An open fence covers everything up to its end. */
  lemma {:induction false} OpenCovers(value: Text, pos: nat, fence: Fence)
    requires pos < |value| && fence.Fence? && fence.start < pos
    ensures InFence(Ranges(value, pos, fence), pos)
    decreases |value| - pos
  {
    var r := OpenRange(value, pos, fence);
  }

  lemma {:induction false} OpenRange(value: Text, pos: nat, fence: Fence) returns (end: nat)
    requires pos <= |value| && fence.Fence? && fence.start < pos
    ensures Ranges(value, pos, fence) != [] && Ranges(value, pos, fence)[0] == Range(fence.start, end)
    ensures end == |value| || pos < end
    decreases |value| - pos
  {
    hide MarkerAt, Ranges, Terminator, LineStop;
    var e, m := LineStop(value, pos), MarkerAt(value, pos);
    RangesUnfold(value, pos, fence);
    MarkedLineIsLong(value, pos);
    if Closes(fence, m) {
      end := e;
    } else if e < |value| {
      end := OpenRange(value, e + 1, fence);
    } else {
      end := |value|;
    }
  }

  lemma {:induction false} InFenceIsOpen(value: Text, pos: nat, stop: nat, fence: Fence)
    requires pos <= stop < |value| && Earlier(fence, pos)
    requires pos == stop || Terminator(value[stop - 1])
    requires MarkerAt(value, stop).NoMarker?
    ensures InFence(Ranges(value, pos, fence), stop) <==> FenceAt(value, pos, stop, fence).Fence?
    decreases stop - pos
  {
    hide MarkerOf, Ranges, LineStop, InFence;
    var e, m := LineStop(value, pos), MarkerAt(value, pos);
    RangesUnfold(value, pos, fence);
    var rest := Rest(value, pos, fence);
    if e >= stop {
      assert pos == stop;
      if fence.Fence? {
        OpenCovers(value, pos, fence);
      } else {
        assert Ranges(value, pos, fence) == rest;
        if e < |value| { RangesOrdered(value, e + 1, NoFence); }
        NotBefore(rest, e + 1, stop);
      }
    } else {
      InFenceIsOpen(value, e + 1, stop, After(fence, m, pos));
      if Closes(fence, m) {
        InFenceConcat(Range(fence.start, e), rest, stop);
      } else {
        assert Ranges(value, pos, fence) == rest;
      }
    }
  }

  lemma NotBefore(ranges: seq<Range>, low: nat, offset: nat)
    requires StartFrom(ranges, low) && offset < low
    ensures !InFence(ranges, offset)
  {
  }

  lemma InFenceConcat(r: Range, rest: seq<Range>, offset: nat)
    requires r.end <= offset
    ensures InFence([r] + rest, offset) <==> InFence(rest, offset)
  {
    var all := [r] + rest;
    assert forall i :: 0 <= i < |rest| ==> rest[i] == all[i + 1];
    if i :| 0 <= i < |all| && all[i].start <= offset < all[i].end {
      assert rest[i - 1] == all[i];
    }
  }

  /** What comes after `stop` does not matter for the fence that is open there. */
  lemma {:induction false} FenceAtPrefix(value: Text, pos: nat, stop: nat, fence: Fence)
    requires pos <= stop <= |value| && (pos == stop || Terminator(value[stop - 1]))
    ensures FenceAt(value, pos, stop, fence) == FenceAt(value[..stop], pos, stop, fence)
    decreases stop - pos
  {
    hide MarkerOf;
    var e := LineStop(value, pos);
    if e < stop {
      LineStopUnique(value[..stop], pos, e);
      assert value[..stop][pos..e] == value[pos..e];
      FenceAtPrefix(value, e + 1, stop, After(fence, MarkerAt(value, pos), pos));
    } else {
      assert pos == stop;
      LineStopUnique(value[..stop], pos, pos);
    }
  }
}
