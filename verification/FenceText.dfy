/**
 Code fences read off the text, line by line and in code units, without naming how the scan for them works: which lines
 open a fence, which close it, and which ranges that gives (`codeFenceRanges` of src/shared/thread-references.ts).
 */
module FenceText {
  import opened Utf16
  import opened CodeFences

  // ---- lines ----

  /** Line feed, carriage return, and the line and paragraph separators. */
  predicate Breaks(u: Unit) { u == 10 || u == 13 || u == 0x2028 || u == 0x2029 }

  /** `value[p..e]` is a line. */
  ghost predicate LineIs(value: Text, p: nat, e: nat) {
    && p <= e <= |value|
    && (p == 0 || Breaks(value[p - 1])) && (e == |value| || Breaks(value[e]))
    && forall i :: p <= i < e ==> !Breaks(value[i])
  }

  function Repeated(u: Unit, n: nat): (t: Text)
    ensures |t| == n && forall i :: 0 <= i < n ==> t[i] == u
  {
    if n == 0 then [] else [u] + Repeated(u, n - 1)
  }

  /** What `trim` removes. */
  predicate Space(u: Unit) {
    || 9 <= u <= 13 || u == 32 || u == 160 || u == 0x1680 || 0x2000 <= u <= 0x200A
    || u == 0x2028 || u == 0x2029 || u == 0x202F || u == 0x205F || u == 0x3000 || u == 0xFEFF
  }

  predicate OnlySpace(t: Text) { forall i :: 0 <= i < |t| ==> Space(t[i]) }

  /** After at most three spaces the character c, exactly n times, and then something else. */
  ghost predicate Shape(line: Text, spaces: nat, c: Unit, n: nat, tail: Text) {
    && spaces <= 3 && (c == 96 || c == 126) && n >= 3
    && line == Repeated(32, spaces) + Repeated(c, n) + tail
    && (tail == [] || tail[0] != c)
  }

  /** Three or more backticks or tildes open a fence, whatever follows them. */
  ghost predicate OpensWith(line: Text, c: Unit, n: nat) {
    exists spaces: nat, tail :: Shape(line, spaces, c, n, tail)
  }

  /** As many of the same character, or more, and only blanks behind them close it. */
  ghost predicate ClosesWith(line: Text, c: Unit, n: nat) {
    exists spaces: nat, m: nat, tail :: Shape(line, spaces, c, m, tail) && m >= n && OnlySpace(tail)
  }

  // ---- the shape of a line is what the scan sees ----

  lemma {:induction false} RunOfRepeated(u: Unit, n: nat, tail: Text)
    requires tail == [] || tail[0] != u
    ensures RunLength(Repeated(u, n) + tail, u) == n && (Repeated(u, n) + tail)[n..] == tail
  {
    if n == 0 {
      assert Repeated(u, n) + tail == tail;
    } else {
      var t := Repeated(u, n) + tail;
      assert t[1..] == Repeated(u, n - 1) + tail;
      RunOfRepeated(u, n - 1, tail);
    }
  }

  lemma {:induction false} RunIsRepeated(t: Text, u: Unit)
    ensures var n := RunLength(t, u); t == Repeated(u, n) + t[n..] && (n < |t| ==> t[n] != u)
  {
    if t != [] && t[0] == u {
      RunIsRepeated(t[1..], u);
      var n := RunLength(t[1..], u);
      assert t == [u] + (Repeated(u, n) + t[1..][n..]) && t[1..][n..] == t[n + 1..];
      assert [u] + (Repeated(u, n) + t[n + 1..]) == Repeated(u, n + 1) + t[n + 1..];
    } else {
      assert t == Repeated(u, 0) + t[0..];
    }
  }

  lemma ShapeIsMarker(line: Text, spaces: nat, c: Unit, n: nat, tail: Text)
    requires Shape(line, spaces, c, n, tail)
    ensures MarkerOf(line) == Marker(c, n, OnlySpace(tail))
  {
    hide RunLength;
    var body := Repeated(c, n) + tail;
    assert body[0] == c;
    assert line == Repeated(32, spaces) + body;
    RunOfRepeated(32, spaces, body);
    RunOfRepeated(c, n, tail);
    BlankIsSpace(tail);
  }

  lemma BlankIsSpace(t: Text)
    ensures Blank(t) <==> OnlySpace(t)
  {
    assert forall u: Unit :: White(u) <==> Space(u);
  }

  lemma MarkerHasShape(line: Text) returns (spaces: nat, tail: Text)
    requires MarkerOf(line).Marker?
    ensures Shape(line, spaces, MarkerOf(line).character, MarkerOf(line).length, tail)
    ensures MarkerOf(line).blank <==> OnlySpace(tail)
  {
    hide RunLength;
    spaces := RunLength(line, SPACE);
    RunIsRepeated(line, SPACE);
    var body := line[spaces..];
    var c := body[0];
    RunIsRepeated(body, c);
    tail := body[RunLength(body, c)..];
    assert line == Repeated(32, spaces) + (Repeated(c, RunLength(body, c)) + tail);
    BlankIsSpace(tail);
  }

  lemma OpensIsMarker(line: Text, c: Unit, n: nat)
    ensures OpensWith(line, c, n) <==>
              MarkerOf(line).Marker? && MarkerOf(line).character == c && MarkerOf(line).length == n
  {
    hide MarkerOf, Shape;
    if OpensWith(line, c, n) {
      var spaces: nat, tail :| Shape(line, spaces, c, n, tail);
      ShapeIsMarker(line, spaces, c, n, tail);
    }
    if MarkerOf(line).Marker? {
      var spaces, tail := MarkerHasShape(line);
    }
  }

  lemma ClosesIsMarker(line: Text, c: Unit, n: nat)
    ensures ClosesWith(line, c, n) <==>
              var m := MarkerOf(line); m.Marker? && m.character == c && m.length >= n && m.blank
  {
    hide MarkerOf, Shape, OnlySpace;
    if ClosesWith(line, c, n) {
      var spaces: nat, m: nat, tail :| Shape(line, spaces, c, m, tail) && m >= n && OnlySpace(tail);
      ShapeIsMarker(line, spaces, c, m, tail);
    }
    if MarkerOf(line).Marker? {
      var spaces, tail := MarkerHasShape(line);
    }
  }

  /** A shorter, a different or a non-blank line closes nothing. */
  lemma ClosingShape(line: Text, spaces: nat, d: Unit, m: nat, tail: Text, c: Unit, n: nat)
    requires Shape(line, spaces, d, m, tail)
    ensures ClosesWith(line, c, n) <==> d == c && m >= n && OnlySpace(tail)
  {
    hide MarkerOf, Shape, OnlySpace;
    ShapeIsMarker(line, spaces, d, m, tail);
    ClosesIsMarker(line, c, n);
  }

  // ---- ranges ----

  lemma LineIsStop(value: Text, p: nat, e: nat)
    requires LineIs(value, p, e)
    ensures LineStop(value, p) == e && MarkerAt(value, p) == MarkerOf(value[p..e])
  {
    hide MarkerOf;
    LineStopUnique(value, p, e);
  }

  lemma StopIsLine(value: Text, p: nat)
    requires p <= |value| && (p == 0 || Breaks(value[p - 1]))
    ensures LineIs(value, p, LineStop(value, p))
  {
  }

  /** The ranges of the lines after the one that ends at `e`, with no fence open. */
  function Later(value: Text, e: nat): seq<Range>
    requires e <= |value|
  {
    if e < |value| then Ranges(value, e + 1, NoFence) else []
  }

  ghost predicate Ordinary(line: Text) { forall c, n: nat :: !OpensWith(line, c, n) }

  lemma OrdinaryHasNoMarker(line: Text)
    requires Ordinary(line)
    ensures MarkerOf(line).NoMarker?
  {
    hide MarkerOf, OpensWith;
    var m := MarkerOf(line);
    if m.Marker? {
      OpensIsMarker(line, m.character, m.length);
      assert false;
    }
  }

  /** A line that opens no fence gives no range. */
  lemma OrdinaryLine(value: Text, p: nat, e: nat)
    requires LineIs(value, p, e) && Ordinary(value[p..e])
    ensures Ranges(value, p, NoFence) == Later(value, e)
  {
    hide MarkerOf, Ordinary, Ranges;
    LineIsStop(value, p, e);
    OrdinaryHasNoMarker(value[p..e]);
    RangesUnfold(value, p, NoFence);
    assert [] + Later(value, e) == Later(value, e);
  }

  /** No line between the one that ends at `after` and the one that starts at `before` closes the fence. */
  ghost predicate StaysOpen(value: Text, after: nat, before: nat, c: Unit, n: nat) {
    forall p: nat, e: nat :: after < p < before && LineIs(value, p, e) ==> !ClosesWith(value[p..e], c, n)
  }

  /** Inside a fence, up to the line that closes it. */
  lemma {:induction false} InsideCloses(value: Text, p: nat, r: nat, q: nat, f: Fence)
    requires LineIs(value, r, q) && f.Fence? && p <= r && (p == 0 || Breaks(value[p - 1]))
    requires ClosesWith(value[r..q], f.character, f.length)
    requires forall s: nat, e: nat :: p <= s < r && LineIs(value, s, e) ==> !ClosesWith(value[s..e], f.character, f.length)
    ensures Ranges(value, p, f) == [Range(f.start, q)] + Later(value, q)
    decreases r - p
  {
    hide MarkerOf, ClosesWith, Ranges;
    StopIsLine(value, p);
    var e := LineStop(value, p);
    LineIsStop(value, p, e);
    ClosesIsMarker(value[p..e], f.character, f.length);
    RangesUnfold(value, p, f);
    if p == r {
      LineIsStop(value, r, q);
    } else {
      assert e < r by { LineBefore(value, p, e, r); }
      InsideCloses(value, e + 1, r, q, f);
      assert [] + Ranges(value, e + 1, f) == Ranges(value, e + 1, f);
    }
  }

  lemma LineBefore(value: Text, p: nat, e: nat, r: nat)
    requires LineIs(value, p, e) && p < r <= |value| && Breaks(value[r - 1])
    ensures e < r
  {
  }

  /** Inside a fence that no line closes. */
  lemma {:induction false} InsideStays(value: Text, p: nat, f: Fence)
    requires f.Fence? && p <= |value| && (p == 0 || Breaks(value[p - 1]))
    requires forall s: nat, e: nat :: p <= s && LineIs(value, s, e) ==> !ClosesWith(value[s..e], f.character, f.length)
    ensures Ranges(value, p, f) == [Range(f.start, |value|)]
    decreases |value| - p
  {
    hide MarkerOf, ClosesWith, Ranges;
    StopIsLine(value, p);
    var e := LineStop(value, p);
    LineIsStop(value, p, e);
    ClosesIsMarker(value[p..e], f.character, f.length);
    RangesUnfold(value, p, f);
    if e < |value| {
      InsideStays(value, e + 1, f);
      assert [] + Ranges(value, e + 1, f) == Ranges(value, e + 1, f);
    }
  }

  lemma OpeningLine(value: Text, p: nat, e: nat, c: Unit, n: nat)
    requires LineIs(value, p, e) && OpensWith(value[p..e], c, n)
    ensures Ranges(value, p, NoFence) ==
              if e < |value| then Ranges(value, e + 1, Fence(c, n, p)) else [Range(p, |value|)]
  {
    hide MarkerOf, OpensWith, Ranges;
    LineIsStop(value, p, e);
    OpensIsMarker(value[p..e], c, n);
    RangesUnfold(value, p, NoFence);
    if e < |value| {
      assert [] + Ranges(value, e + 1, Fence(c, n, p)) == Ranges(value, e + 1, Fence(c, n, p));
    }
  }

  /** A fence from the line at `p` to the first line that closes it, at `r`, is one range that ends with that line. */
  lemma ClosedFence(value: Text, p: nat, open: nat, r: nat, q: nat, c: Unit, n: nat)
    requires LineIs(value, p, open) && LineIs(value, r, q) && open < r
    requires OpensWith(value[p..open], c, n) && StaysOpen(value, open, r, c, n) && ClosesWith(value[r..q], c, n)
    ensures Ranges(value, p, NoFence) == [Range(p, q)] + Later(value, q)
  {
    hide OpensWith, ClosesWith, Ranges;
    OpeningLine(value, p, open, c, n);
    InsideCloses(value, open + 1, r, q, Fence(c, n, p));
  }

  /** A fence that no line closes is one range to the end of the text. */
  lemma OpenFence(value: Text, p: nat, open: nat, c: Unit, n: nat)
    requires LineIs(value, p, open) && OpensWith(value[p..open], c, n) && StaysOpen(value, open, |value| + 1, c, n)
    ensures Ranges(value, p, NoFence) == [Range(p, |value|)]
  {
    hide OpensWith, ClosesWith, Ranges;
    OpeningLine(value, p, open, c, n);
    if open < |value| { InsideStays(value, open + 1, Fence(c, n, p)); }
  }
}
