/**
 The decoder of src/client/api/FetchEventSource.ts as a function of the text it is fed, and the
 rule it implements: section 9.2.6 of the WHATWG HTML Standard plus a limit on the size of one event.
 */
module EventStream {
  import opened Utf16

  const MAX_EVENT_CHARACTERS: nat := 36 * 1024 * 1024

  datatype Event = Event(kind: Text, data: Text, lastEventId: Text)

  /** What the page can see: dispatched events, the committed id, the reconnection delay. */
  datatype Output = Output(events: seq<Event>, lastEventId: Text, retry: nat)

  datatype Decoder =
    | Live(line: Text, skipLf: bool, eventType: Text, pendingId: Text,
           data: seq<Text>, characters: nat, out: Output)
    | TooLarge(out: Output)

  /** A new connection forgets everything but the output. */
  function Fresh(out: Output): Decoder {
    Live([], false, [], out.lastEventId, [], 0, out)
  }

  function Message(): Text { Ascii("message") }
  function DataField(): Text { Ascii("data") }
  function EventField(): Text { Ascii("event") }
  function IdField(): Text { Ascii("id") }
  function RetryField(): Text { Ascii("retry") }

  // ---- fields of a line ----

  function FieldName(line: Text): Text { line[..IndexOf(line, COLON)] }

  function FieldValue(line: Text): Text {
    var colon := IndexOf(line, COLON);
    var value := if colon == |line| then [] else line[colon + 1..];
    if value != [] && value[0] == SPACE then value[1..] else value
  }

  /** The reading of a line does not depend on how it is computed: it inverts writing one. */
  lemma FieldOfLine(name: Text, value: Text)
    requires !Contains(name, COLON)
    ensures FieldName(name) == name && FieldValue(name) == []
    ensures var line := name + [COLON, SPACE] + value; FieldName(line) == name && FieldValue(line) == value
    ensures value == [] || value[0] != SPACE ==>
              var line := name + [COLON] + value; FieldName(line) == name && FieldValue(line) == value
  {
    IndexOfUnique(name, COLON, |name|);
    IndexOfUnique(name + [COLON, SPACE] + value, COLON, |name|);
    IndexOfUnique(name + [COLON] + value, COLON, |name|);
    assert (name + [COLON, SPACE] + value)[|name| + 1..] == [SPACE] + value;
    assert (name + [COLON] + value)[|name| + 1..] == value;
  }

  /** `/^\d+$/` */
  predicate AllDigits(t: Text) { t != [] && forall i :: 0 <= i < |t| ==> Digit(t[i]) }

  function DigitValue(u: Unit): nat { if Digit(u) then u - 48 else 0 }

  function Decimal(t: Text): nat {
    if t == [] then 0 else 10 * Decimal(t[..|t| - 1]) + DigitValue(t[|t| - 1])
  }

  function Clamp(n: nat): nat { if n < 250 then 250 else if n > 30_000 then 30_000 else n }

  function JoinLines(parts: seq<Text>): Text {
    if parts == [] then [] else if |parts| == 1 then parts[0]
    else parts[0] + [LF] + JoinLines(parts[1..])
  }

  // ---- the decoder ----

  function Dispatch(out: Output, kind: Text, data: seq<Text>, id: Text): Output {
    var committed := out.(lastEventId := id);
    if data == [] then committed
    else committed.(events := out.events +
                    [Event(if kind == [] then Message() else kind, JoinLines(data), id)])
  }

  function TakeField(s: Decoder, name: Text, value: Text): (r: Decoder)
    requires s.Live?
    ensures r.Live? && r.line == s.line && r.out.events == s.out.events
    ensures r.out.lastEventId == s.out.lastEventId
  {
    if name == DataField() then s.(data := s.data + [value])
    else if name == EventField() then s.(eventType := value)
    else if name == IdField() then if Contains(value, NUL) then s else s.(pendingId := value)
    else if name == RetryField() && AllDigits(value) then
      s.(out := s.out.(retry := Clamp(Decimal(value))))
    else s
  }

  function ConsumeLine(s: Decoder): (r: Decoder)
    requires s.Live?
    ensures r.Live? && r.line == []
    ensures s.out.events <= r.out.events
  {
    if s.line == [] then
      s.(out := Dispatch(s.out, s.eventType, s.data, s.pendingId),
         eventType := [], data := [], characters := 0)
    else if s.line[0] == COLON then s.(line := [])
    else TakeField(s.(line := []), FieldName(s.line), FieldValue(s.line))
  }

  predicate Ending(u: Unit) { u == CR || u == LF }

  predicate OneLine(t: Text) { forall i :: 0 <= i < |t| ==> !Ending(t[i]) }

  /** The end of the first line, or the length of a text without one. */
  function EndOfLine(t: Text): (e: nat)
    ensures e <= |t|
    ensures e < |t| ==> Ending(t[e])
    ensures OneLine(t[..e])
  {
    if t == [] || Ending(t[0]) then 0 else 1 + EndOfLine(t[1..])
  }

  lemma EndOfLineUnique(t: Text, e: nat)
    requires e <= |t| && OneLine(t[..e]) && (e < |t| ==> Ending(t[e]))
    ensures EndOfLine(t) == e
  {
    var f := EndOfLine(t);
    assert forall i :: 0 <= i < e ==> t[..e][i] == t[i];
    assert forall i :: 0 <= i < f ==> t[..f][i] == t[i];
  }

  /** Adds a fragment to the current line, unless the event becomes too large. */
  function Append(s: Decoder, fragment: Text, ended: bool): (r: Decoder)
    requires s.Live?
    ensures r.out == s.out
    ensures r.Live? ==> r.line == s.line + fragment && !r.skipLf
  {
    var characters := s.characters + CodePoints(fragment) + (if ended then 1 else 0);
    if characters > MAX_EVENT_CHARACTERS then TooLarge(s.out)
    else Live(s.line + fragment, false, s.eventType, s.pendingId, s.data, characters, s.out)
  }

  function EndLine(s: Decoder, cr: bool): (r: Decoder)
    requires s.Live?
    ensures r.Live? && r.line == [] && r.skipLf == cr
    ensures s.out.events <= r.out.events
  {
    var r := ConsumeLine(s);
    Live([], cr, r.eventType, r.pendingId, r.data, r.characters, r.out)
  }

  /** What `consumeText` does to the decoder, one fragment at a time. */
  function Feed(s: Decoder, t: Text): Decoder
    decreases |t|
  {
    if s.TooLarge? || t == [] then s
    else if s.skipLf && t[0] == LF then Feed(s.(skipLf := false), t[1..])
    else
      var e := EndOfLine(t);
      var u := Append(s, t[..e], e < |t|);
      if u.TooLarge? || e == |t| then u else Feed(EndLine(u, t[e] == CR), t[e + 1..])
  }

  function FeedAll(s: Decoder, pieces: seq<Text>): Decoder
    decreases |pieces|
  {
    if pieces == [] then s else FeedAll(Feed(s, pieces[0]), pieces[1..])
  }

  // ---- chunk invariance ----

  /** Where the network cuts the text makes no difference, as long as no code point is cut. */
  lemma {:induction false} FeedConcat(s: Decoder, a: Text, b: Text)
    requires Boundary(a, b)
    ensures Feed(s, a + b) == Feed(Feed(s, a), b)
    decreases |a|
  {
    if s.TooLarge? {
      FeedTooLarge(s, a + b);
    } else if a == [] {
      assert a + b == b;
    } else if b == [] {
      assert a + b == a;
    } else if s.skipLf && a[0] == LF {
      assert (a + b)[1..] == a[1..] + b;
      FeedConcat(s.(skipLf := false), a[1..], b);
    } else {
      var e := EndOfLine(a);
      if e < |a| {
        assert (a + b)[..e] == a[..e];
        EndOfLineUnique(a + b, e);
        assert (a + b)[e + 1..] == a[e + 1..] + b;
        var u := Append(s, a[..e], true);
        if u.Live? {
          FeedConcat(EndLine(u, a[e] == CR), a[e + 1..], b);
        }
      } else {
        assert a == a[..e];
        FeedConcatOpen(s, a, b);
      }
    }
  }

  /** One round of the loop, for a text that does not start with a line feed to skip. */
  function Round(s: Decoder, t: Text, e: nat): Decoder
    requires s.Live? && e <= |t|
  {
    var u := Append(s, t[..e], e < |t|);
    if u.TooLarge? || e == |t| then u else Feed(EndLine(u, t[e] == CR), t[e + 1..])
  }

  lemma FeedRound(s: Decoder, t: Text, e: nat)
    requires s.Live? && t != [] && !(s.skipLf && t[0] == LF)
    requires e <= |t| && OneLine(t[..e]) && (e < |t| ==> Ending(t[e]))
    ensures Feed(s, t) == Round(s, t, e)
  {
    EndOfLineUnique(t, e);
  }

  lemma ConcatSlices(a: Text, b: Text, e: nat)
    requires OneLine(a) && e <= |b| && OneLine(b[..e])
    ensures (a + b)[..|a| + e] == a + b[..e]
    ensures OneLine(a + b[..e])
    ensures e < |b| ==> (a + b)[|a| + e] == b[e] && (a + b)[|a| + e + 1..] == b[e + 1..]
  {
  }

  /** The case where the cut falls inside a line. */
  lemma FeedConcatOpen(s: Decoder, a: Text, b: Text)
    requires Boundary(a, b) && a != [] && b != []
    requires s.Live? && !(s.skipLf && a[0] == LF)
    requires OneLine(a)
    ensures Feed(s, a + b) == Feed(Feed(s, a), b)
  {
    hide Feed, EndLine, EndOfLine, Append, OneLine;
    var e, t := EndOfLine(b), a + b;
    ConcatSlices(a, b, e);
    assert a[..|a|] == a;
    FeedRound(s, t, |a| + e);
    FeedRound(s, a, |a|);
    AppendConcat(s, a, b[..e], e < |b|);
    var u := Append(s, a, false);
    if u.Live? {
      FeedRound(u, b, e);
    } else {
      FeedTooLarge(u, b);
    }
  }

  lemma FeedTooLarge(s: Decoder, t: Text)
    requires s.TooLarge?
    ensures Feed(s, t) == s
  {
  }

  lemma AppendConcat(s: Decoder, a: Text, b: Text, ended: bool)
    requires s.Live? && Boundary(a, b)
    ensures var u := Append(s, a, false);
            Append(s, a + b, ended) == if u.Live? then Append(u, b, ended) else u
  {
    CodePointsConcat(a, b);
    assert s.line + (a + b) == s.line + a + b;
  }

  /** No piece boundary separates a surrogate pair. */
  predicate WellCut(pieces: seq<Text>) {
    pieces == [] || (Boundary(pieces[0], Flatten(pieces[1..])) && WellCut(pieces[1..]))
  }

  lemma {:induction false} ChunkInvariance(s: Decoder, pieces: seq<Text>)
    requires WellCut(pieces)
    ensures FeedAll(s, pieces) == Feed(s, Flatten(pieces))
    decreases |pieces|
  {
    if pieces != [] {
      ChunkInvariance(Feed(s, pieces[0]), pieces[1..]);
      FeedConcat(s, pieces[0], Flatten(pieces[1..]));
    }
  }

  lemma {:induction false} FeedGrows(s: Decoder, t: Text)
    ensures s.out.events <= Feed(s, t).out.events
    decreases |t|
  {
    if s.TooLarge? || t == [] {
    } else if s.skipLf && t[0] == LF {
      FeedGrows(s.(skipLf := false), t[1..]);
    } else {
      var e := EndOfLine(t);
      var u := Append(s, t[..e], e < |t|);
      if u.Live? && e < |t| {
        FeedGrows(EndLine(u, t[e] == CR), t[e + 1..]);
      }
    }
  }

  /** Stopping early loses a suffix of the events and nothing else. */
  lemma StopIsPrefix(s: Decoder, t: Text, p: nat)
    requires p <= |t| && Boundary(t[..p], t[p..])
    ensures Feed(s, t[..p]).out.events <= Feed(s, t).out.events
  {
    assert t == t[..p] + t[p..];
    FeedConcat(s, t[..p], t[p..]);
    FeedGrows(Feed(s, t[..p]), t[p..]);
  }

  // ---- the standard's batch rule ----

  datatype Lines = Lines(complete: seq<Text>, tail: Text)

  /** Lines end with CR LF, with LF or with CR; what follows the last ending is not a line. */
  function SplitLines(t: Text): Lines
    decreases |t|
  {
    var e := EndOfLine(t);
    if e == |t| then Lines([], t)
    else
      var rest := SplitLines(AfterEnding(t, e));
      Lines([t[..e]] + rest.complete, rest.tail)
  }

  function AfterEnding(t: Text, e: nat): (rest: Text)
    requires e < |t|
    ensures |rest| < |t|
  {
    if t[e] == CR && e + 1 < |t| && t[e + 1] == LF then t[e + 2..] else t[e + 1..]
  }

  /** The buffers of the standard: data is one string, each value followed by a line feed. */
  datatype Standard = Standard(data: Text, eventType: Text, id: Text, size: nat, out: Output)

  function StandardDispatch(s: Standard): Standard {
    var committed := s.out.(lastEventId := s.id);
    var out :=
      if s.data == [] then committed
      else committed.(events := s.out.events +
                      [Event(if s.eventType == [] then Message() else s.eventType,
                             s.data[..|s.data| - 1], s.id)]);
    Standard([], [], s.id, 0, out)
  }

  function StandardField(s: Standard, name: Text, value: Text): Standard {
    if name == DataField() then s.(data := s.data + value + [LF])
    else if name == EventField() then s.(eventType := value)
    else if name == IdField() && !Contains(value, NUL) then s.(id := value)
    else if name == RetryField() && AllDigits(value) then
      s.(out := s.out.(retry := Clamp(Decimal(value))))
    else s
  }

  function StandardLine(s: Standard, line: Text): Standard {
    if line == [] then StandardDispatch(s)
    else if line[0] == COLON then s
    else StandardField(s, FieldName(line), FieldValue(line))
  }

  datatype Verdict = Verdict(out: Output, tooLarge: bool)

  /** The rule over a list of lines; an event, ending with its blank line, has a limited size. */
  function Interpret(s: Standard, complete: seq<Text>, tail: Text): Verdict
    decreases |complete|
  {
    if complete == [] then Verdict(s.out, s.size + CodePoints(tail) > MAX_EVENT_CHARACTERS)
    else InterpretNext(s, complete[0], complete[1..], tail)
  }

  function InterpretNext(s: Standard, line: Text, rest: seq<Text>, tail: Text): Verdict
    decreases |rest| + 1, 0
  {
    var size := s.size + CodePoints(line) + 1;
    if size > MAX_EVENT_CHARACTERS then Verdict(s.out, true)
    else Interpret(StandardLine(s.(size := size), line), rest, tail)
  }

  function Batch(out: Output, t: Text): Verdict {
    var lines := SplitLines(t);
    Interpret(Standard([], [], out.lastEventId, 0, out), lines.complete, lines.tail)
  }

  // ---- refinement ----

  function Terminated(parts: seq<Text>): Text {
    if parts == [] then [] else parts[0] + [LF] + Terminated(parts[1..])
  }

  lemma {:induction false} TerminatedSnoc(parts: seq<Text>, last: Text)
    ensures Terminated(parts + [last]) == Terminated(parts) + last + [LF]
  {
    if parts == [] {
      assert parts + [last] == [last];
    } else {
      assert (parts + [last])[1..] == parts[1..] + [last];
      TerminatedSnoc(parts[1..], last);
    }
  }

  lemma {:induction false} TerminatedIsJoined(parts: seq<Text>)
    requires parts != []
    ensures Terminated(parts) == JoinLines(parts) + [LF]
  {
    if |parts| == 1 {
      assert Terminated(parts[1..]) == [];
    } else {
      TerminatedIsJoined(parts[1..]);
    }
  }

  ghost predicate Simulates(s: Decoder, b: Standard) {
    && s.Live? && s.line == []
    && b == Standard(Terminated(s.data), s.eventType, s.pendingId, s.characters, s.out)
    && s.characters <= MAX_EVENT_CHARACTERS
  }

  lemma DispatchSimulates(s: Decoder, b: Standard)
    requires Simulates(s, b)
    ensures Simulates(ConsumeLine(s), StandardDispatch(b))
  {
    if s.data != [] {
      TerminatedIsJoined(s.data);
      assert (JoinLines(s.data) + [LF])[..|JoinLines(s.data)|] == JoinLines(s.data);
    }
  }

  lemma LineSimulates(s: Decoder, b: Standard, line: Text, size: nat)
    requires Simulates(s, b) && size <= MAX_EVENT_CHARACTERS
    ensures Simulates(ConsumeLine(s.(line := line, characters := size)),
                      StandardLine(b.(size := size), line))
  {
    if line == [] {
      hide ConsumeLine, StandardDispatch;
      DispatchSimulates(s.(characters := size), b.(size := size));
      assert s.(line := line, characters := size) == s.(characters := size);
    } else if line[0] != COLON {
      hide FieldName, FieldValue, TakeField, StandardField;
      FieldSimulates(s.(characters := size), b.(size := size), FieldName(line), FieldValue(line));
      assert s.(line := line, characters := size).(line := []) == s.(characters := size);
    }
  }

  lemma FieldSimulates(s: Decoder, b: Standard, name: Text, value: Text)
    requires Simulates(s, b)
    ensures Simulates(TakeField(s, name, value), StandardField(b, name, value))
  {
    hide DataField, EventField, IdField, RetryField;
    TerminatedSnoc(s.data, value);
  }

  function Observed(s: Decoder): Verdict { Verdict(s.out, s.TooLarge?) }

  /** A line feed right after a carriage return belongs to it. */
  function AfterCr(s: Decoder, t: Text): Text
    requires s.Live?
  {
    if s.skipLf && t != [] && t[0] == LF then t[1..] else t
  }

  function InterpretText(b: Standard, t: Text): Verdict {
    var lines := SplitLines(t);
    Interpret(b, lines.complete, lines.tail)
  }

  lemma InterpretFirst(b: Standard, t: Text, e: nat)
    requires e < |t| && e == EndOfLine(t)
    ensures var rest := SplitLines(AfterEnding(t, e));
            InterpretText(b, t) == InterpretNext(b, t[..e], rest.complete, rest.tail)
  {
    hide EndOfLine, CodePoints, InterpretNext;
    var rest := SplitLines(AfterEnding(t, e));
    assert ([t[..e]] + rest.complete)[1..] == rest.complete;
  }

  lemma {:induction false} FeedRefines(s: Decoder, b: Standard, t: Text)
    requires Simulates(s, b)
    ensures Observed(Feed(s, t)) == InterpretText(b, AfterCr(s, t))
    decreases |t|, 1
  {
    hide ConsumeLine, StandardLine;
    if t == [] {
    } else if s.skipLf && t[0] == LF {
      FeedRefines(s.(skipLf := false), b, t[1..]);
    } else {
      var e := EndOfLine(t);
      FeedRound(s, t, e);
      if e < |t| {
        FeedRefinesLine(s, b, t, e);
      } else {
        assert t[..e] == t;
      }
    }
  }

  lemma {:induction false} FeedRefinesLine(s: Decoder, b: Standard, t: Text, e: nat)
    requires Simulates(s, b)
    requires e < |t| && e == EndOfLine(t)
    ensures Observed(Round(s, t, e)) == InterpretText(b, t)
    decreases |t|, 0
  {
    hide Feed, Interpret, ConsumeLine, StandardLine, EndOfLine, CodePoints, SplitLines;
    var line := t[..e];
    InterpretFirst(b, t, e);
    assert s.line + line == line;
    var u := Append(s, line, true);
    if u.Live? {
      var v, w := EndLine(u, t[e] == CR), StandardLine(b.(size := u.characters), line);
      LineSimulates(s.(skipLf := false), b, line, u.characters);
      assert u == s.(skipLf := false, line := line, characters := u.characters);
      assert AfterCr(v, t[e + 1..]) == AfterEnding(t, e);
      FeedRefines(v, w, t[e + 1..]);
    }
  }

  /** However the text is cut, the decoder does what the standard says about the whole of it. */
  lemma DecoderRefinesStandard(out: Output, pieces: seq<Text>)
    requires WellCut(pieces)
    ensures Observed(FeedAll(Fresh(out), pieces)) == Batch(out, Flatten(pieces))
  {
    ChunkInvariance(Fresh(out), pieces);
    FeedRefines(Fresh(out), Standard([], [], out.lastEventId, 0, out), Flatten(pieces));
  }
}
