/**
 Reconnecting with Last-Event-ID: over any series of broken connections the page receives every
 frame of the server's log exactly once and in order (src/client/api/FetchEventSource.ts), whatever
 heartbeats and frames without an id the server sends between them (src/server/events/thread-sse.ts).
 */
module EventReplay {
  import opened Utf16
  import opened EventStream

  /** One record of the server's log. */
  datatype Frame = Frame(id: Text, kind: Text, data: seq<Text>)

  ghost predicate ValidFrame(f: Frame) {
    && f.id != [] && OneLine(f.id) && !Contains(f.id, NUL)
    && OneLine(f.kind)
    && f.data != [] && forall i :: 0 <= i < |f.data| ==> OneLine(f.data[i])
  }

  /** What a connection carries: frames of the log, frames without an id such as `thread-live`, and comments. */
  datatype Item = Logged(frame: Frame) | Aside(kind: Text, data: seq<Text>) | Remark(text: Text)

  ghost predicate ValidItem(x: Item) {
    match x
    case Logged(f) => ValidFrame(f)
    case Aside(kind, data) => OneLine(kind) && data != [] && forall i :: 0 <= i < |data| ==> OneLine(data[i])
    case Remark(text) => OneLine(text)
  }

  function KindOf(kind: Text): Text { if kind == [] then Message() else kind }

  function EventOf(f: Frame): Event {
    Event(KindOf(f.kind), JoinLines(f.data), f.id)
  }

  function EventsOf(frames: seq<Frame>): (events: seq<Event>)
    ensures |events| == |frames|
    ensures forall i :: 0 <= i < |frames| ==> events[i] == EventOf(frames[i])
  {
    if frames == [] then [] else [EventOf(frames[0])] + EventsOf(frames[1..])
  }

  // ---- writing frames ----

  predicate LineEnd(eol: Text) { eol == [LF] || eol == [CR] || eol == [CR, LF] }

  function Field(name: Text, value: Text): Text { name + [COLON, SPACE] + value }

  function DataLines(data: seq<Text>): seq<Text> {
    if data == [] then [] else [Field(DataField(), data[0])] + DataLines(data[1..])
  }

  function ItemLines(x: Item): seq<Text> {
    match x
    case Logged(f) => [Field(IdField(), f.id)] + BodyLines(f.kind, f.data)
    case Aside(kind, data) => BodyLines(kind, data)
    case Remark(text) => [[COLON] + text]
  }

  function BodyLines(kind: Text, data: seq<Text>): seq<Text> { [Field(EventField(), kind)] + DataLines(data) }

  function EncodeLines(lines: seq<Text>, eol: Text): Text {
    if lines == [] then [] else (lines[0] + eol) + EncodeLines(lines[1..], eol)
  }

  function Encode(x: Item, eol: Text): Text { EncodeLines(ItemLines(x), eol) + eol }

  function Served(items: seq<Item>, eol: Text): Text {
    if items == [] then [] else Encode(items[0], eol) + Served(items[1..], eol)
  }

  function Size(lines: seq<Text>): nat {
    if lines == [] then 0 else CodePoints(lines[0]) + 1 + Size(lines[1..])
  }

  /** The characters the decoder counts for an item, its blank line included. */
  function ItemSize(x: Item): nat { Size(ItemLines(x)) + 1 }

  predicate Fits(x: Item) { ItemSize(x) <= MAX_EVENT_CHARACTERS }

  // ---- reading them back ----

  /** Between two lines; a pending CR can only come from lines that end with CR. */
  predicate Between(s: Decoder, eol: Text) { s.Live? && s.line == [] && (s.skipLf ==> eol == [CR]) }

  predicate Quiet(s: Decoder, r: Decoder) {
    r.out.events == s.out.events && r.out.lastEventId == s.out.lastEventId
  }

  predicate ContentLine(line: Text) { line != [] && OneLine(line) }

  lemma FeedLine(s: Decoder, line: Text, eol: Text)
    requires Between(s, eol) && OneLine(line) && LineEnd(eol)
    ensures var u := Append(s, line, true);
            Feed(s, line + eol) == if u.TooLarge? then u else EndLine(u, eol == [CR])
  {
    hide Append, ConsumeLine, EndOfLine;
    var t := line + eol;
    assert t[..|line|] == line && t[|line|] == eol[0] && t[|line| + 1..] == eol[1..];
    FeedRound(s, t, |line|);
    var u := Append(s, line, true);
    if u.Live? && eol == [CR, LF] {
      var v := EndLine(u, true);
      assert eol[1..] == [LF] && [LF][1..] == [];
      assert Feed(v, [LF]) == v.(skipLf := false);
    }
  }

  /** Part of a line that is not blank shows nothing. */
  lemma FeedLinePart(s: Decoder, line: Text, eol: Text, c: nat)
    requires Between(s, eol) && ContentLine(line) && LineEnd(eol) && c <= |line + eol|
    ensures Quiet(s, Feed(s, (line + eol)[..c]))
  {
    hide Append;
    if c == 0 {
    } else if c <= |line| {
      assert (line + eol)[..c] == line[..c] && line[..c][..c] == line[..c];
      FeedRound(s, line[..c], c);
    } else {
      var end := eol[..c - |line|];
      assert (line + eol)[..c] == line + end;
      FeedLine(s, line, end);
    }
  }

  lemma {:induction false} FeedLinesPart(s: Decoder, lines: seq<Text>, eol: Text, c: nat)
    requires Between(s, eol) && LineEnd(eol) && c <= |EncodeLines(lines, eol)|
    requires forall i :: 0 <= i < |lines| ==> ContentLine(lines[i])
    ensures Quiet(s, Feed(s, EncodeLines(lines, eol)[..c]))
    decreases |lines|
  {
    hide Append, ConsumeLine, EndOfLine, Feed, CodePoints;
    if lines != [] {
      var first, rest := lines[0] + eol, EncodeLines(lines[1..], eol);
      if c < |first| {
        assert (first + rest)[..c] == first[..c];
        FeedLinePart(s, lines[0], eol, c);
      } else {
        assert (first + rest)[..c] == first + rest[..c - |first|];
        FeedConcat(s, first, rest[..c - |first|]);
        FeedLinePart(s, lines[0], eol, |first|);
        assert first[..|first|] == first;
        FeedLine(s, lines[0], eol);
        var u := Feed(s, first);
        if u.Live? {
          FeedLinesPart(u, lines[1..], eol, c - |first|);
        } else {
          FeedTooLarge(u, rest[..c - |first|]);
        }
      }
    } else {
      FeedNothing(s);
    }
  }

  /** A field line, read from between two lines. */
  lemma FeedField(s: Decoder, name: Text, value: Text, eol: Text)
    requires Between(s, eol) && LineEnd(eol)
    requires NameOk(name) && OneLine(value)
    ensures var size := s.characters + CodePoints(Field(name, value)) + 1;
            var t := s.(characters := size, skipLf := eol == [CR]);
            Feed(s, Field(name, value) + eol) ==
            if size > MAX_EVENT_CHARACTERS then TooLarge(s.out) else TakeField(t, name, value)
  {
    hide Feed, CodePoints, EndLine, TakeField, Contains;
    var line := Field(name, value);
    FeedLine(s, line, eol);
    assert s.line + line == line;
    var u := Append(s, line, true);
    if u.Live? { FieldEnds(u, name, value, eol == [CR]); }
  }

  lemma FieldEnds(u: Decoder, name: Text, value: Text, cr: bool)
    requires u.Live? && u.line == Field(name, value) && NameOk(name)
    ensures EndLine(u, cr) == TakeField(u.(line := [], skipLf := cr), name, value)
  {
    hide FieldName, FieldValue, OneLine;
    FieldOfLine(name, value);
    assert u.line[0] == name[0] && name[0] != COLON;
  }

  lemma Take(s: Decoder, value: Text)
    requires s.Live?
    ensures TakeField(s, DataField(), value) == s.(data := s.data + [value])
    ensures TakeField(s, EventField(), value) == s.(eventType := value)
    ensures !Contains(value, NUL) ==> TakeField(s, IdField(), value) == s.(pendingId := value)
  {
  }

  /** Where a run of field lines leaves the decoder, or that it was too long. */
  ghost predicate Gathered(s: Decoder, r: Decoder, eol: Text, size: nat, id: Text, kind: Text, data: seq<Text>) {
    if size > MAX_EVENT_CHARACTERS then r == TooLarge(s.out)
    else && Between(r, eol) && r.characters == size && r.data == data
         && r.eventType == kind && r.pendingId == id && r.out == s.out
  }

  ghost predicate NameOk(name: Text) { name != [] && OneLine(name) && !Contains(name, COLON) }

  lemma FieldNames()
    ensures NameOk(IdField()) && NameOk(EventField()) && NameOk(DataField())
  {
    hide Ascii;
    assert !Contains(IdField(), COLON) && OneLine(IdField());
    assert !Contains(EventField(), COLON) && OneLine(EventField());
  }

  /** The data lines of a frame, one after another. */
  lemma {:induction false} FeedData(s: Decoder, data: seq<Text>, eol: Text)
    requires Between(s, eol) && LineEnd(eol) && s.characters <= MAX_EVENT_CHARACTERS
    requires forall i :: 0 <= i < |data| ==> OneLine(data[i])
    ensures Gathered(s, Feed(s, EncodeLines(DataLines(data), eol)), eol, s.characters + Size(DataLines(data)),
                     s.pendingId, s.eventType, s.data + data)
    decreases |data|
  {
    hide Feed, CodePoints, Field, EndOfLine, TakeField, DataLines, EncodeLines, Size, DataField;
    EncodeData(data, eol);
    FieldNames();
    if data == [] {
      FeedNothing(s);
      assert s.data + data == s.data;
    } else {
      var line, rest := Field(DataField(), data[0]), EncodeLines(DataLines(data[1..]), eol);
      FeedField(s, DataField(), data[0], eol);
      FeedConcat(s, line + eol, rest);
      var size := s.characters + CodePoints(line) + 1;
      if size <= MAX_EVENT_CHARACTERS {
        var t := s.(characters := size, skipLf := eol == [CR]);
        Take(t, data[0]);
        FeedData(t.(data := t.data + [data[0]]), data[1..], eol);
        assert s.data + [data[0]] + data[1..] == s.data + data;
      } else {
        FeedTooLarge(TooLarge(s.out), rest);
      }
    }
  }

  lemma EncodeData(data: seq<Text>, eol: Text)
    ensures data == [] ==> EncodeLines(DataLines(data), eol) == [] && Size(DataLines(data)) == 0
    ensures data != [] ==>
              var line := Field(DataField(), data[0]);
              && EncodeLines(DataLines(data), eol) == (line + eol) + EncodeLines(DataLines(data[1..]), eol)
              && Size(DataLines(data)) == CodePoints(line) + 1 + Size(DataLines(data[1..]))
  {
    if data != [] {
      assert DataLines(data)[1..] == DataLines(data[1..]);
    }
  }

  /** Between two events, with nothing buffered. */
  predicate Clean(s: Decoder, eol: Text) {
    Between(s, eol) && s.data == [] && s.eventType == [] && s.characters == 0 && s.pendingId == s.out.lastEventId
  }

  // ---- whole items ----

  function ItemKind(x: Item): Text {
    match x
    case Logged(f) => f.kind
    case Aside(kind, _) => kind
    case Remark(_) => []
  }

  function ItemData(x: Item): seq<Text> {
    match x
    case Logged(f) => f.data
    case Aside(_, data) => data
    case Remark(_) => []
  }

  function ItemId(x: Item, before: Text): Text { if x.Logged? then x.frame.id else before }

  /** What an item does for the page: an event with its own id, an event with the id before it, or nothing. */
  function Put(out: Output, x: Item): Output {
    match x
    case Logged(f) => Output(out.events + [EventOf(f)], f.id, out.retry)
    case Aside(kind, data) =>
      out.(events := out.events + [Event(KindOf(kind), JoinLines(data), out.lastEventId)])
    case Remark(_) => out
  }

  function AfterItem(s: Decoder, x: Item, end: Text): Decoder
    requires s.Live?
  {
    Live([], end == [CR], [], ItemId(x, s.out.lastEventId), [], 0, Put(s.out, x))
  }

  lemma FeedBody(s: Decoder, kind: Text, data: seq<Text>, eol: Text)
    requires Between(s, eol) && s.data == [] && LineEnd(eol) && OneLine(kind)
    requires forall i :: 0 <= i < |data| ==> OneLine(data[i])
    ensures Gathered(s, Feed(s, EncodeLines(BodyLines(kind, data), eol)), eol,
                     s.characters + Size(BodyLines(kind, data)),
                     s.pendingId, kind, data)
  {
    hide Feed, CodePoints, Field, EndOfLine, DataLines, TakeField, EncodeLines, Size, BodyLines, EventField;
    var line, rest := Field(EventField(), kind), EncodeLines(DataLines(data), eol);
    FieldNames();
    EncodeBody(kind, data, eol);
    FeedConcat(s, line + eol, rest);
    FeedField(s, EventField(), kind, eol);
    var size := s.characters + CodePoints(line) + 1;
    if size > MAX_EVENT_CHARACTERS {
      FeedTooLarge(TooLarge(s.out), rest);
    } else {
      var t := s.(characters := size, skipLf := eol == [CR]);
      Take(t, kind);
      FeedData(t.(eventType := kind), data, eol);
      assert s.data + data == data;
    }
  }

  lemma EncodeBody(kind: Text, data: seq<Text>, eol: Text)
    ensures var line := Field(EventField(), kind);
            && EncodeLines(BodyLines(kind, data), eol) == (line + eol) + EncodeLines(DataLines(data), eol)
            && Size(BodyLines(kind, data)) == CodePoints(line) + 1 + Size(DataLines(data))
  {
    hide Field, CodePoints, DataLines;
    assert BodyLines(kind, data)[1..] == DataLines(data);
  }

  lemma FeedLogged(s: Decoder, f: Frame, eol: Text)
    requires Clean(s, eol) && LineEnd(eol) && ValidFrame(f)
    ensures Gathered(s, Feed(s, EncodeLines(ItemLines(Logged(f)), eol)), eol, Size(ItemLines(Logged(f))),
                     f.id, f.kind, f.data)
  {
    hide Feed, CodePoints, Field, EndOfLine, BodyLines, TakeField, EncodeLines, Size, ItemLines, IdField;
    var first, tail := Field(IdField(), f.id), EncodeLines(BodyLines(f.kind, f.data), eol);
    FieldNames();
    EncodeLogged(f, eol);
    FeedConcat(s, first + eol, tail);
    FeedField(s, IdField(), f.id, eol);
    var size := CodePoints(first) + 1;
    if size > MAX_EVENT_CHARACTERS {
      FeedTooLarge(TooLarge(s.out), tail);
    } else {
      var t := s.(characters := size, skipLf := eol == [CR]);
      Take(t, f.id);
      FeedBody(t.(pendingId := f.id), f.kind, f.data, eol);
    }
  }

  lemma EncodeLogged(f: Frame, eol: Text)
    ensures var first, body := Field(IdField(), f.id), BodyLines(f.kind, f.data);
            && EncodeLines(ItemLines(Logged(f)), eol) == (first + eol) + EncodeLines(body, eol)
            && Size(ItemLines(Logged(f))) == CodePoints(first) + 1 + Size(body)
  {
    hide Field, CodePoints, BodyLines;
    assert ItemLines(Logged(f))[1..] == BodyLines(f.kind, f.data);
  }

  lemma FeedRemark(s: Decoder, text: Text, eol: Text)
    requires Clean(s, eol) && LineEnd(eol) && OneLine(text)
    ensures Gathered(s, Feed(s, EncodeLines(ItemLines(Remark(text)), eol)), eol, Size(ItemLines(Remark(text))),
                     s.pendingId, [], [])
  {
    hide Feed, CodePoints, EndOfLine;
    var line := [COLON] + text;
    var lines := ItemLines(Remark(text));
    assert lines[1..] == [];
    assert EncodeLines(lines, eol) == line + eol + [] == line + eol;
    assert Size(lines) == CodePoints(line) + 1;
    assert OneLine(line);
    FeedLine(s, line, eol);
    assert s.line + line == line && line[0] == COLON;
  }

  /** The lines of an item, up to its blank line. */
  lemma FeedItemLines(s: Decoder, x: Item, eol: Text)
    requires Clean(s, eol) && LineEnd(eol) && ValidItem(x)
    ensures Gathered(s, Feed(s, EncodeLines(ItemLines(x), eol)), eol, Size(ItemLines(x)),
                     ItemId(x, s.pendingId), ItemKind(x), ItemData(x))
  {
    hide Feed, EncodeLines, Size, Gathered, ItemLines;
    match x
    case Logged(f) => FeedLogged(s, f, eol);
    case Aside(kind, data) =>
      assert ItemLines(x) == BodyLines(kind, data) by { AsideLines(kind, data); }
      FeedBody(s, kind, data, eol);
    case Remark(text) => FeedRemark(s, text, eol);
  }

  lemma AsideLines(kind: Text, data: seq<Text>)
    ensures ItemLines(Aside(kind, data)) == BodyLines(kind, data)
  {
  }

  /** A whole item does what it is there for, also when the LF of its last CR LF is still to come. */
  lemma FeedItem(s: Decoder, x: Item, eol: Text, end: Text)
    requires Clean(s, eol) && LineEnd(eol) && ValidItem(x)
    requires end == eol || (eol == [CR, LF] && end == [CR])
    ensures Feed(s, EncodeLines(ItemLines(x), eol) + end) == if Fits(x) then AfterItem(s, x, end) else TooLarge(s.out)
  {
    hide Feed, Size, ItemLines, EncodeLines, EndOfLine;
    var lines := EncodeLines(ItemLines(x), eol);
    FeedConcat(s, lines, end);
    FeedItemLines(s, x, eol);
    var r := Feed(s, lines);
    if r.TooLarge? {
      FeedTooLarge(r, end);
    } else {
      assert [] + end == end;
      FeedLine(r, [], end);
      DispatchPuts(s.out, x);
    }
  }

  lemma DispatchPuts(out: Output, x: Item)
    requires ValidItem(x)
    ensures Dispatch(out, ItemKind(x), ItemData(x), ItemId(x, out.lastEventId)) == Put(out, x)
  {
    hide OneLine, JoinLines, Contains;
  }

  // ---- one broken connection ----

  function PutAll(out: Output, items: seq<Item>): Output
    decreases |items|
  {
    if items == [] then out else PutAll(Put(out, items[0]), items[1..])
  }

  /** After `k` items: exactly what they are there for has happened. */
  ghost predicate Advanced(out: Output, items: seq<Item>, k: nat, r: Output) {
    && k <= |items|
    && r.events == PutAll(out, items[..k]).events && r.lastEventId == PutAll(out, items[..k]).lastEventId
  }

  lemma AdvancedNone(out: Output, items: seq<Item>, r: Output)
    requires r.events == out.events && r.lastEventId == out.lastEventId
    ensures Advanced(out, items, 0, r)
  {
    assert items[..0] == [];
  }

  lemma AdvancedCons(out: Output, items: seq<Item>, k: nat, r: Output)
    requires items != [] && Advanced(Put(out, items[0]), items[1..], k, r)
    ensures Advanced(out, items, k + 1, r)
  {
    hide Put;
    assert items[..k + 1][1..] == items[1..][..k];
  }

  /** Cutting the served text anywhere delivers some number of whole items. */
  lemma {:induction false} CutItems(s: Decoder, items: seq<Item>, eol: Text, c: nat) returns (k: nat)
    requires Clean(s, eol) && LineEnd(eol) && c <= |Served(items, eol)|
    requires forall i :: 0 <= i < |items| ==> ValidItem(items[i])
    ensures k <= |items| && Advanced(s.out, items, k, Feed(s, Served(items, eol)[..c]).out)
    ensures forall i :: 0 <= i < k ==> Fits(items[i])
    ensures c == |Served(items, eol)| && (forall i :: 0 <= i < |items| ==> Fits(items[i]))
            ==> k == |items|
    decreases |items|
  {
    hide Feed, Encode, Fits, EndOfLine, Advanced, CodePoints, ItemLines, EncodeLines, Put, ValidItem;
    if items == [] {
      assert Feed(s, []) == s by { FeedNothing(s); }
      AdvancedNone(s.out, items, s.out);
      return 0;
    }
    var first, rest := Encode(items[0], eol), Served(items[1..], eol);
    if c < |first| {
      assert (first + rest)[..c] == first[..c];
      k := CutItem(s, items, eol, c);
    } else {
      assert (first + rest)[..c] == first + rest[..c - |first|];
      assert first == EncodeLines(ItemLines(items[0]), eol) + eol by { EncodeShape(items[0], eol); }
      FeedConcat(s, first, rest[..c - |first|]);
      FeedItem(s, items[0], eol, eol);
      var u := Feed(s, first);
      if u.TooLarge? {
        FeedTooLarge(u, rest[..c - |first|]);
        AdvancedNone(s.out, items, u.out);
        k := 0;
      } else {
        PutId(s.out, items[0]);
        var j := CutItems(u, items[1..], eol, c - |first|);
        AdvancedCons(s.out, items, j, Feed(u, rest[..c - |first|]).out);
        k := j + 1;
        assert forall i :: 1 <= i < k ==> items[i] == items[1..][i - 1];
        assert forall i :: 0 <= i < |items| - 1 ==> items[1..][i] == items[i + 1];
      }
    }
  }

  lemma PutId(out: Output, x: Item)
    ensures Put(out, x).lastEventId == ItemId(x, out.lastEventId)
  {
  }

  lemma FeedNothing(s: Decoder)
    ensures Feed(s, []) == s
  {
  }

  lemma EncodeShape(x: Item, eol: Text)
    ensures Encode(x, eol) == EncodeLines(ItemLines(x), eol) + eol
  {
  }

  /** The cut falls inside the first item. */
  lemma CutItem(s: Decoder, items: seq<Item>, eol: Text, c: nat) returns (k: nat)
    requires items != [] && c < |Encode(items[0], eol)|
    requires Clean(s, eol) && LineEnd(eol) && ValidItem(items[0])
    ensures Advanced(s.out, items, k, Feed(s, Encode(items[0], eol)[..c]).out)
    ensures k <= 1 && (k == 1 ==> Fits(items[0]))
  {
    hide Feed, EncodeLines, Fits, EndOfLine, Put, ValidItem, ItemLines, Advanced;
    var lines := EncodeLines(ItemLines(items[0]), eol);
    if c <= |lines| {
      assert Encode(items[0], eol)[..c] == lines[..c];
      ItemLinesAreContent(items[0]);
      FeedLinesPart(s, ItemLines(items[0]), eol, c);
      AdvancedNone(s.out, items, Feed(s, lines[..c]).out);
      k := 0;
    } else {
      assert Encode(items[0], eol)[..c] == lines + [CR];
      FeedItem(s, items[0], eol, [CR]);
      if Fits(items[0]) {
        AdvancedNone(Put(s.out, items[0]), items[1..], Put(s.out, items[0]));
        AdvancedCons(s.out, items, 0, Put(s.out, items[0]));
        k := 1;
      } else {
        AdvancedNone(s.out, items, s.out);
        k := 0;
      }
    }
  }

  lemma {:induction false} DataLinesAreContent(data: seq<Text>)
    requires forall i :: 0 <= i < |data| ==> OneLine(data[i])
    ensures forall i :: 0 <= i < |DataLines(data)| ==> ContentLine(DataLines(data)[i])
  {
    if data != [] {
      DataLinesAreContent(data[1..]);
    }
  }

  lemma BodyLinesAreContent(kind: Text, data: seq<Text>)
    requires OneLine(kind) && forall i :: 0 <= i < |data| ==> OneLine(data[i])
    ensures forall i :: 0 <= i < |BodyLines(kind, data)| ==> ContentLine(BodyLines(kind, data)[i])
  {
    hide DataLines;
    DataLinesAreContent(data);
    var lines := BodyLines(kind, data);
    assert ContentLine(lines[0]);
    assert forall i :: 1 <= i < |lines| ==> lines[i] == DataLines(data)[i - 1];
  }

  lemma ItemLinesAreContent(x: Item)
    requires ValidItem(x)
    ensures forall i :: 0 <= i < |ItemLines(x)| ==> ContentLine(ItemLines(x)[i])
  {
    hide BodyLines;
    match x
    case Logged(f) =>
      BodyLinesAreContent(f.kind, f.data);
      assert ContentLine(ItemLines(x)[0]);
      assert forall i :: 1 <= i < |ItemLines(x)| ==> ItemLines(x)[i] == BodyLines(f.kind, f.data)[i - 1];
    case Aside(kind, data) => BodyLinesAreContent(kind, data);
    case Remark(text) =>
  }

  // ---- what belongs to the log ----

  function LogOf(items: seq<Item>): seq<Frame> {
    if items == [] then []
    else if items[0].Logged? then [items[0].frame] + LogOf(items[1..])
    else LogOf(items[1..])
  }

  /** The events whose kind is not one that the server uses for frames without an id. */
  function FromLog(events: seq<Event>, asides: set<Text>): seq<Event> {
    if events == [] then []
    else
      var last := events[|events| - 1];
      FromLog(events[..|events| - 1], asides) + (if last.kind in asides then [] else [last])
  }

  lemma FromLogSnoc(events: seq<Event>, e: Event, asides: set<Text>)
    ensures FromLog(events + [e], asides) == FromLog(events, asides) + (if e.kind in asides then [] else [e])
  {
    assert (events + [e])[..|events|] == events;
  }

  /** Kinds tell frames of the log and frames without an id apart. */
  predicate Apart(x: Item, asides: set<Text>) {
    match x
    case Logged(f) => KindOf(f.kind) !in asides
    case Aside(kind, _) => KindOf(kind) in asides
    case Remark(_) => true
  }

  /** One item adds its event to those of the log exactly if it belongs there. */
  lemma PutLogs(out: Output, x: Item, asides: set<Text>)
    requires Apart(x, asides)
    ensures FromLog(Put(out, x).events, asides) ==
            FromLog(out.events, asides) + (if x.Logged? then [EventOf(x.frame)] else [])
  {
    hide FromLog, JoinLines;
    match x
    case Logged(f) => FromLogSnoc(out.events, EventOf(f), asides);
    case Aside(kind, data) =>
      FromLogSnoc(out.events, Event(KindOf(kind), JoinLines(data), out.lastEventId), asides);
    case Remark(_) => assert FromLog(out.events, asides) + [] == FromLog(out.events, asides);
  }

  lemma {:induction false} PutAllLogs(out: Output, items: seq<Item>, asides: set<Text>)
    requires forall i :: 0 <= i < |items| ==> Apart(items[i], asides)
    ensures FromLog(PutAll(out, items).events, asides) == FromLog(out.events, asides) + EventsOf(LogOf(items))
    decreases |items|
  {
    hide FromLog, EventsOf, Put, EventOf, Apart;
    if items == [] {
      EventsOfNone();
      assert FromLog(out.events, asides) + [] == FromLog(out.events, asides);
    } else {
      var x, rest := items[0], items[1..];
      PutAllLogs(Put(out, x), rest, asides);
      PutLogs(out, x, asides);
      var before, added, later := FromLog(out.events, asides),
                                  if x.Logged? then [EventOf(x.frame)] else [], EventsOf(LogOf(rest));
      assert before + added + later == before + (added + later);
      if x.Logged? { EventsOfCons(x.frame, LogOf(rest)); } else { assert [] + later == later; }
    }
  }

  lemma {:induction false} PutAllId(out: Output, items: seq<Item>)
    ensures PutAll(out, items).lastEventId == IdAfter(out.lastEventId, LogOf(items), |LogOf(items)|)
    decreases |items|
  {
    hide Put;
    if items != [] {
      PutId(out, items[0]);
      PutAllId(Put(out, items[0]), items[1..]);
    }
  }

  lemma EventsOfNone()
    ensures EventsOf([]) == []
  {
  }

  lemma EventsOfCons(f: Frame, frames: seq<Frame>)
    ensures EventsOf([f] + frames) == [EventOf(f)] + EventsOf(frames)
  {
    assert ([f] + frames)[1..] == frames;
  }

  lemma {:induction false} LogOfConcat(a: seq<Item>, b: seq<Item>)
    ensures LogOf(a + b) == LogOf(a) + LogOf(b)
    decreases |a|
  {
    if a == [] {
      assert a + b == b;
    } else {
      LogOfConcat(a[1..], b);
      LogOfFirst(a + b);
      LogOfFirst(a);
      hide LogOf;
      assert (a + b)[1..] == a[1..] + b;
    }
  }

  lemma LogOfFirst(items: seq<Item>)
    requires items != []
    ensures LogOf(items) == if items[0].Logged? then [items[0].frame] + LogOf(items[1..]) else LogOf(items[1..])
  {
  }

  lemma {:induction false} LogOfElements(items: seq<Item>)
    ensures forall f :: f in LogOf(items) <==> Logged(f) in items
    decreases |items|
  {
    if items != [] {
      LogOfElements(items[1..]);
      assert items == [items[0]] + items[1..];
    }
  }

  // ---- whole runs ----

  function IdAfter(before: Text, frames: seq<Frame>, k: nat): Text
    requires k <= |frames|
  {
    if k == 0 then before else frames[k - 1].id
  }

  /** What the server sends of its log after a Last-Event-ID; no header asks for the whole log. */
  function Resume(log: seq<Frame>, lastEventId: Text): seq<Frame> {
    if lastEventId == [] then log else After(log, lastEventId)
  }

  function After(log: seq<Frame>, id: Text): seq<Frame> {
    if log == [] then [] else if log[0].id == id then log[1..] else After(log[1..], id)
  }

  /**
   One connection: what the server sends, its line ending, how much of the text arrived, what the decoder
   of bytes adds at the end (a replacement character for a sequence cut short), and the pieces.
   */
  datatype Connection = Connection(items: seq<Item>, eol: Text, cut: nat, flush: Text, pieces: seq<Text>)

  ghost predicate Carries(c: Connection, frames: seq<Frame>, asides: set<Text>) {
    var text := Served(c.items, c.eol);
    && LogOf(c.items) == frames
    && (forall i :: 0 <= i < |c.items| ==> ValidItem(c.items[i]) && Apart(c.items[i], asides))
    && LineEnd(c.eol) && c.cut <= |text|
    && (c.flush == [] || c.flush == [0xFFFD])
    && WellCut(c.pieces) && Flatten(c.pieces) == text[..c.cut] + c.flush
  }

  /** Everything arrived, and nothing was too large. */
  ghost predicate Complete(c: Connection) {
    c.cut == |Served(c.items, c.eol)| && c.flush == [] && forall i :: 0 <= i < |c.items| ==> Fits(c.items[i])
  }

  function Receive(out: Output, c: Connection): Output { FeedAll(Fresh(out), c.pieces).out }

  function Run(out: Output, connections: seq<Connection>): Output
    decreases |connections|
  {
    if connections == [] then out else Run(Receive(out, connections[0]), connections[1..])
  }

  /** Every connection carries what follows the id that the client sent, among other things. */
  ghost predicate Faithful(log: seq<Frame>, asides: set<Text>, out: Output, connections: seq<Connection>)
    decreases |connections|
  {
    connections == [] ||
    (Carries(connections[0], Resume(log, out.lastEventId), asides)
     && Faithful(log, asides, Receive(out, connections[0]), connections[1..]))
  }

  ghost predicate ValidLog(log: seq<Frame>) {
    && (forall i :: 0 <= i < |log| ==> ValidFrame(log[i]))
    && (forall i, j :: 0 <= i < j < |log| ==> log[i].id != log[j].id)
  }

  /** The page has seen the first `k` frames of the log, each once, and would resume after them. */
  ghost predicate Delivered(log: seq<Frame>, asides: set<Text>, k: nat, out: Output) {
    k <= |log| && FromLog(out.events, asides) == EventsOf(log[..k]) && out.lastEventId == IdAfter([], log, k)
  }

  lemma {:induction false} AfterSkips(log: seq<Frame>, k: nat)
    requires k < |log|
    requires forall i, j :: 0 <= i < j < |log| ==> log[i].id != log[j].id
    ensures After(log, log[k].id) == log[k + 1..]
  {
    if k > 0 {
      AfterSkips(log[1..], k - 1);
      assert log[0].id != log[k].id;
    }
  }

  lemma ResumeSkips(log: seq<Frame>, k: nat)
    requires ValidLog(log) && k <= |log|
    ensures Resume(log, IdAfter([], log, k)) == log[k..]
  {
    if k > 0 {
      AfterSkips(log, k - 1);
    }
  }

  /** What is delivered on the wire: some of the items, and with them some of the frames that were due. */
  lemma ConnectionCut(out: Output, c: Connection, frames: seq<Frame>, asides: set<Text>) returns (k: nat)
    requires Carries(c, frames, asides)
    ensures k <= |c.items| && Advanced(out, c.items, k, Receive(out, c))
    ensures forall i :: 0 <= i < k ==> Fits(c.items[i])
    ensures Complete(c) ==> k == |c.items|
  {
    hide Feed, FeedAll, Fits, EndOfLine, Served, ValidItem, Apart, PutAll, LogOf;
    var text, s := Served(c.items, c.eol), Fresh(out);
    ChunkInvariance(s, c.pieces);
    FeedConcat(s, text[..c.cut], c.flush);
    k := CutItems(s, c.items, c.eol, c.cut);
    FlushIsQuiet(Feed(s, text[..c.cut]), c.flush);
  }

  lemma FlushIsQuiet(s: Decoder, flush: Text)
    requires flush == [] || flush == [0xFFFD]
    ensures Quiet(s, Feed(s, flush))
  {
    if s.Live? && flush != [] {
      FeedRound(s, flush, 1);
    }
  }

  /** One connection moves the page forward by whole frames of the log. */
  lemma ConnectionAdvances(log: seq<Frame>, asides: set<Text>, out: Output, k: nat, c: Connection) returns (m: nat)
    requires Delivered(log, asides, k, out) && Carries(c, log[k..], asides)
    ensures k <= m && Delivered(log, asides, m, Receive(out, c))
    ensures forall i :: k <= i < m ==> Fits(Logged(log[i]))
    ensures Complete(c) ==> m == |log|
  {
    hide Receive, Fits, EventsOf, Served, ValidItem, Apart, PutAll, LogOf, FromLog, Complete;
    var n := ConnectionCut(out, c, log[k..], asides);
    var head, tail := c.items[..n], c.items[n..];
    assert c.items == head + tail;
    LogOfConcat(head, tail);
    PutAllLogs(out, head, asides);
    PutAllId(out, head);
    LogOfElements(head);
    var j := |LogOf(head)|;
    m := k + j;
    assert LogOf(head) == log[k..m];
    forall i | k <= i < m ensures Fits(Logged(log[i])) {
      assert log[i] == LogOf(head)[i - k];
      var h :| 0 <= h < n && head[h] == Logged(log[i]);
    }
    EventsSplit(log, k, m);
    if Complete(c) {
      assert tail == [] && LogOf(tail) == [] by { LogOfNone(); }
    }
  }

  lemma LogOfNone()
    ensures LogOf([]) == []
  {
  }

  lemma EventsSplit(log: seq<Frame>, k: nat, m: nat)
    requires k <= m <= |log|
    ensures EventsOf(log[..m]) == EventsOf(log[..k]) + EventsOf(log[k..m])
  {
  }

  /**
   Exactly once: after any faithful series of connections the page has received, beside what does not belong to it, a
   prefix of the log without gap or repetition. An oversized frame is never passed; a complete connection delivers
   everything.
   */
  lemma {:induction false} ResumeIsExactlyOnce(log: seq<Frame>, asides: set<Text>, out: Output, k: nat,
                                               connections: seq<Connection>) returns (m: nat)
    requires ValidLog(log) && Delivered(log, asides, k, out) && Faithful(log, asides, out, connections)
    ensures k <= m && Delivered(log, asides, m, Run(out, connections))
    ensures forall i :: k <= i < m ==> Fits(Logged(log[i]))
    ensures connections != [] && Complete(connections[0]) ==> m == |log|
    decreases |connections|
  {
    if connections == [] {
      m := k;
    } else {
      hide Fits, Delivered, Carries, Complete, ValidLog, Receive;
      var c := connections[0];
      assert out.lastEventId == IdAfter([], log, k) && k <= |log| by { DeliveredId(log, asides, k, out); }
      ResumeSkips(log, k);
      var j := ConnectionAdvances(log, asides, out, k, c);
      m := ResumeIsExactlyOnce(log, asides, Receive(out, c), j, connections[1..]);
      assert m <= |log| by { DeliveredId(log, asides, m, Run(out, connections)); }
    }
  }

  lemma DeliveredId(log: seq<Frame>, asides: set<Text>, k: nat, out: Output)
    requires Delivered(log, asides, k, out)
    ensures k <= |log| && out.lastEventId == IdAfter([], log, k)
  {
  }
}
