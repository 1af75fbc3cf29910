/**
 What the bytes of an event stream mean, with every name, number and separator written out as code units: the
 decoder read from the outside, as a server that writes lines sees it.
 */
module EventWire {
  import opened Utf16
  import opened EventStream
  import opened EventReplay

  /** Line feed, carriage return, or both. */
  predicate Eol(eol: Text) { eol == [10] || eol == [13] || eol == [13, 10] }

  predicate OneLineText(v: Text) { forall i :: 0 <= i < |v| ==> v[i] != 10 && v[i] != 13 }

  /** The decoder is between two lines. */
  predicate Ready(s: Decoder, eol: Text) { s.Live? && s.line == [] && (s.skipLf ==> eol == [13]) }

  /** One more line fits into the event: 36 MiB of code points, each line ending counted once. */
  predicate Room(s: Decoder, line: Text)
    requires s.Live?
  {
    s.characters + CodePoints(line) + 1 <= 37_748_736
  }

  /** The line is counted; nothing else is changed. */
  function Counted(s: Decoder, line: Text, eol: Text): Decoder
    requires s.Live?
  {
    s.(characters := s.characters + CodePoints(line) + 1, skipLf := eol == [13])
  }

  lemma Names()
    ensures DataField() == [100, 97, 116, 97] && EventField() == [101, 118, 101, 110, 116]
    ensures IdField() == [105, 100] && RetryField() == [114, 101, 116, 114, 121]
    ensures Message() == [109, 101, 115, 115, 97, 103, 101]
    ensures NameOk(DataField()) && NameOk(EventField()) && NameOk(IdField()) && NameOk(RetryField())
  {
    hide Ascii, NameOk;
    FieldNames();
    assert NameOk(RetryField()) by { RetryIsName(); }
  }

  lemma RetryIsName()
    ensures NameOk(RetryField())
  {
    hide Ascii;
    assert !Contains(RetryField(), COLON) && OneLine(RetryField());
  }

  // ---- single lines ----

  lemma FieldText(v: Text)
    ensures Field(DataField(), v) == [100, 97, 116, 97, 58, 32] + v
    ensures Field(EventField(), v) == [101, 118, 101, 110, 116, 58, 32] + v
    ensures Field(IdField(), v) == [105, 100, 58, 32] + v
    ensures Field(RetryField(), v) == [114, 101, 116, 114, 121, 58, 32] + v
  {
    Names();
  }

  /** `data: v` adds a line of data. */
  lemma DataLine(s: Decoder, v: Text, eol: Text)
    requires Ready(s, eol) && Eol(eol) && OneLineText(v)
    ensures var line := [100, 97, 116, 97, 58, 32] + v;
            Feed(s, line + eol) ==
            if Room(s, line) then Counted(s, line, eol).(data := s.data + [v]) else TooLarge(s.out)
  {
    hide Feed, CodePoints;
    Names();
    FieldText(v);
    FeedField(s, DataField(), v, eol);
  }

  /** `event: v` sets the kind. */
  lemma EventLine(s: Decoder, v: Text, eol: Text)
    requires Ready(s, eol) && Eol(eol) && OneLineText(v)
    ensures var line := [101, 118, 101, 110, 116, 58, 32] + v;
            Feed(s, line + eol) ==
            if Room(s, line) then Counted(s, line, eol).(eventType := v) else TooLarge(s.out)
  {
    hide Feed, CodePoints;
    Names();
    FieldText(v);
    FeedField(s, EventField(), v, eol);
  }

  /** `id: v` sets the pending id, unless v contains the unit 0. */
  lemma IdLine(s: Decoder, v: Text, eol: Text)
    requires Ready(s, eol) && Eol(eol) && OneLineText(v)
    ensures var line := [105, 100, 58, 32] + v;
            Feed(s, line + eol) ==
            if !Room(s, line) then TooLarge(s.out)
            else if exists i :: 0 <= i < |v| && v[i] == 0 then Counted(s, line, eol)
            else Counted(s, line, eol).(pendingId := v)
  {
    hide Feed, CodePoints;
    Names();
    FieldText(v);
    FeedField(s, IdField(), v, eol);
  }

  function Zeros(k: nat): Text { if k == 0 then [] else [48] + Zeros(k - 1) }

  lemma {:induction false} DecimalReads(k: nat, n: nat)
    ensures AllDigits(Zeros(k) + Digits(n)) && Decimal(Zeros(k) + Digits(n)) == n
    decreases n
  {
    var t := Zeros(k) + Digits(n);
    if n < 10 {
      DecimalOfZeros(k);
      assert t[..|t| - 1] == Zeros(k);
    } else {
      DecimalReads(k, n / 10);
      var before := Zeros(k) + Digits(n / 10);
      assert t == before + [48 + n % 10];
      assert t[..|t| - 1] == before;
    }
  }

  lemma {:induction false} DecimalOfZeros(k: nat)
    ensures Decimal(Zeros(k)) == 0 && forall i :: 0 <= i < |Zeros(k)| ==> Zeros(k)[i] == 48
    ensures |Zeros(k)| == k
  {
    if k > 0 {
      DecimalOfZeros(k - 1);
      assert Zeros(k)[..k - 1] == Zeros(k - 1);
    }
  }

  /** Every text of digits is some zeros and the digits of a number, so the next lemma leaves no such value out. */
  lemma {:induction false} DigitsCover(v: Text) returns (k: nat, n: nat)
    requires v != [] && forall i :: 0 <= i < |v| ==> 48 <= v[i] <= 57
    ensures v == Zeros(k) + Digits(n)
  {
    var last := v[|v| - 1];
    if |v| == 1 {
      k, n := 0, last - 48;
    } else {
      var init := v[..|v| - 1];
      k, n := DigitsCover(init);
      assert v == init + [last];
      if n == 0 {
        DecimalOfZeros(k + 1);
        DecimalOfZeros(k);
        k, n := k + 1, last - 48;
        assert init == Zeros(k);
      } else {
        n := 10 * n + (last - 48);
        assert Digits(n) == Digits(n / 10) + [last];
      }
    }
  }

  /** `retry: v` with a decimal number sets the delay, at least 250 and at most 30000. */
  lemma RetryLine(s: Decoder, k: nat, n: nat, eol: Text)
    requires Ready(s, eol) && Eol(eol)
    ensures var line := [114, 101, 116, 114, 121, 58, 32] + Zeros(k) + Digits(n);
            Feed(s, line + eol) ==
            if !Room(s, line) then TooLarge(s.out)
            else Counted(s, line, eol).(out := s.out.(retry := if n <= 250 then 250 else if n >= 30_000 then 30_000 else n))
  {
    hide Feed, CodePoints, Decimal, Zeros, Digits;
    Names();
    DecimalReads(k, n);
    var v := Zeros(k) + Digits(n);
    assert [114, 101, 116, 114, 121, 58, 32] + Zeros(k) + Digits(n) == [114, 101, 116, 114, 121, 58, 32] + v;
    FieldText(v);
    FeedField(s, RetryField(), v, eol);
  }

  /** Any other value of `retry` is ignored. */
  lemma RetryIgnored(s: Decoder, v: Text, eol: Text)
    requires Ready(s, eol) && Eol(eol) && OneLineText(v)
    requires v == [] || exists i :: 0 <= i < |v| && !(48 <= v[i] <= 57)
    ensures var line := [114, 101, 116, 114, 121, 58, 32] + v;
            Feed(s, line + eol) == if Room(s, line) then Counted(s, line, eol) else TooLarge(s.out)
  {
    hide Feed, CodePoints, Decimal;
    Names();
    FieldText(v);
    FeedField(s, RetryField(), v, eol);
  }

  /** A field with any other name is ignored. */
  lemma OtherLine(s: Decoder, name: Text, v: Text, eol: Text)
    requires Ready(s, eol) && Eol(eol) && OneLineText(v) && OneLineText(name) && name != []
    requires forall i :: 0 <= i < |name| ==> name[i] != 58
    requires name != [100, 97, 116, 97] && name != [101, 118, 101, 110, 116]
    requires name != [105, 100] && name != [114, 101, 116, 114, 121]
    ensures var line := name + [58, 32] + v;
            Feed(s, line + eol) == if Room(s, line) then Counted(s, line, eol) else TooLarge(s.out)
  {
    hide Feed, CodePoints;
    Names();
    assert Field(name, v) == name + [58, 32] + v;
    FeedField(s, name, v, eol);
  }

  /** A line that starts with a colon is a comment. */
  lemma CommentLine(s: Decoder, v: Text, eol: Text)
    requires Ready(s, eol) && Eol(eol) && OneLineText(v)
    ensures var line := [58] + v;
            Feed(s, line + eol) == if Room(s, line) then Counted(s, line, eol) else TooLarge(s.out)
  {
    hide Feed, CodePoints, EndOfLine;
    var line := [58] + v;
    FeedLine(s, line, eol);
    assert s.line + line == line;
  }

  /** The lines, each with its line feed. */
  function Lines(parts: seq<Text>): Text {
    if parts == [] then [] else parts[0] + [10] + Lines(parts[1..])
  }

  lemma {:induction false} JoinedLines(parts: seq<Text>)
    requires parts != []
    ensures JoinLines(parts) + [10] == Lines(parts)
  {
    if |parts| == 1 {
      assert Lines(parts[1..]) == [];
      assert parts[0] + [10] + [] == parts[0] + [10];
    } else {
      JoinedLines(parts[1..]);
      assert parts[0] + [10] + JoinLines(parts[1..]) + [10] == parts[0] + [10] + (JoinLines(parts[1..]) + [10]);
    }
  }

  /** The kind of an event without one is `message`. */
  function Kind(kind: Text): Text { if kind == [] then [109, 101, 115, 115, 97, 103, 101] else kind }

  /** A blank line commits the id, and dispatches the data, if there is any, without its last line feed. */
  lemma BlankLine(s: Decoder, eol: Text)
    requires Ready(s, eol) && Eol(eol) && s.characters + 1 <= 37_748_736
    ensures var r := Feed(s, eol);
            && r.Live? && r.line == [] && r.skipLf == (eol == [13])
            && r.data == [] && r.eventType == [] && r.characters == 0 && r.pendingId == s.pendingId
            && r.out.lastEventId == s.pendingId && r.out.retry == s.out.retry
            && if s.data == [] then r.out.events == s.out.events
               else var last := |s.out.events|;
                    && |r.out.events| == last + 1 && r.out.events[..last] == s.out.events
                    && r.out.events[last].kind == Kind(s.eventType)
                    && r.out.events[last].data + [10] == Lines(s.data)
                    && r.out.events[last].lastEventId == s.pendingId
  {
    hide Feed, JoinLines, Lines, EndOfLine, Message;
    Names();
    FeedLine(s, [], eol);
    assert [] + eol == eol && s.line + [] == [];
    if s.data != [] {
      JoinedLines(s.data);
    }
  }

  // ---- whole frames ----

  /** The lines `data: v`. */
  function DataText(data: seq<Text>, eol: Text): Text {
    if data == [] then [] else [100, 97, 116, 97, 58, 32] + data[0] + eol + DataText(data[1..], eol)
  }

  /** `event: kind`, the data, and a blank line. */
  function PlainFrame(kind: Text, data: seq<Text>, eol: Text): Text {
    [101, 118, 101, 110, 116, 58, 32] + kind + eol + DataText(data, eol) + eol
  }

  /** The same after a line `id: id`. */
  function IdFrame(id: Text, kind: Text, data: seq<Text>, eol: Text): Text {
    [105, 100, 58, 32] + id + eol + PlainFrame(kind, data, eol)
  }

  lemma {:induction false} DataTextIsWritten(data: seq<Text>, eol: Text)
    ensures EncodeLines(DataLines(data), eol) == DataText(data, eol)
  {
    if data != [] {
      hide DataField, Field;
      EncodeData(data, eol);
      DataTextIsWritten(data[1..], eol);
      FieldText(data[0]);
    }
  }

  /** What the model of the server writes is the frames above. */
  lemma FramesAreWritten(id: Text, kind: Text, data: seq<Text>, eol: Text)
    ensures Encode(Aside(kind, data), eol) == PlainFrame(kind, data, eol)
    ensures Encode(Logged(Frame(id, kind, data)), eol) == IdFrame(id, kind, data, eol)
    ensures Encode(Remark(kind), eol) == [58] + kind + eol + eol
  {
    hide Field, DataField, EventField, IdField, DataLines, DataText;
    EncodeBody(kind, data, eol);
    DataTextIsWritten(data, eol);
    FieldText(kind);
    FieldText(id);
    EncodeLogged(Frame(id, kind, data), eol);
    AsideLines(kind, data);
    assert ItemLines(Remark(kind))[1..] == [];
    assert EncodeLines(ItemLines(Remark(kind)), eol) == [58] + kind + eol + [];
  }

  /** The characters of a frame are those of its text with single line endings. */
  lemma {:induction false} SizeIsText(lines: seq<Text>)
    ensures CodePoints(EncodeLines(lines, [10])) == Size(lines)
  {
    if lines != [] {
      var first, rest := lines[0], EncodeLines(lines[1..], [10]);
      SizeIsText(lines[1..]);
      CodePointsConcat(first, [10]);
      assert CodePoints([10]) == 1 + CodePoints([10][1..]);
      CodePointsConcat(first + [10], rest);
    }
  }

  lemma FitsByText(x: Item)
    ensures Fits(x) <==> CodePoints(Encode(x, [10])) <= 37_748_736
  {
    hide CodePoints, Size, EncodeLines, ItemLines;
    SizeIsText(ItemLines(x));
    CodePointsConcat(EncodeLines(ItemLines(x), [10]), [10]);
    OneUnit();
  }

  lemma OneUnit()
    ensures CodePoints([10]) == 1
  {
    assert [10][1..] == [];
  }

  /** The decoder after a frame: between two events, with one more event and its id. */
  ghost predicate Dispatched(s: Decoder, r: Decoder, kind: Text, data: seq<Text>, id: Text, eol: Text)
    requires s.Live?
  {
    var last := |s.out.events|;
    && r.Live? && r.line == [] && r.skipLf == (eol == [13]) && r.data == [] && r.eventType == [] && r.characters == 0
    && r.pendingId == id && r.out.lastEventId == id && r.out.retry == s.out.retry
    && |r.out.events| == last + 1 && r.out.events[..last] == s.out.events
    && r.out.events[last].kind == Kind(kind)
    && r.out.events[last].data + [10] == Lines(data)
    && r.out.events[last].lastEventId == id
  }

  ghost predicate AllOneLine(data: seq<Text>) { forall i :: 0 <= i < |data| ==> OneLineText(data[i]) }

  /** A frame with an id dispatches its kind, its data and its id, and the id is kept for the next request. */
  lemma IdFrameIsRead(s: Decoder, id: Text, kind: Text, data: seq<Text>, eol: Text)
    requires Clean(s, eol) && Eol(eol)
    requires id != [] && OneLineText(id) && (forall i :: 0 <= i < |id| ==> id[i] != 0)
    requires OneLineText(kind) && data != [] && AllOneLine(data)
    requires CodePoints(IdFrame(id, kind, data, [10])) <= 37_748_736
    ensures Dispatched(s, Feed(s, IdFrame(id, kind, data, eol)), kind, data, id, eol)
  {
    hide Feed, CodePoints, JoinLines, Lines, Message, IdFrame, PlainFrame;
    Names();
    var x := Logged(Frame(id, kind, data));
    FitsByText(x);
    FramesAreWritten(id, kind, data, [10]);
    FramesAreWritten(id, kind, data, eol);
    assert ValidItem(x);
    FeedItem(s, x, eol, eol);
    JoinedLines(data);
  }

  /** A frame without an id, such as `event: thread-live`, dispatches its kind and data and keeps the id before it. */
  lemma PlainFrameIsRead(s: Decoder, kind: Text, data: seq<Text>, eol: Text)
    requires Clean(s, eol) && Eol(eol)
    requires OneLineText(kind) && data != [] && AllOneLine(data)
    requires CodePoints(PlainFrame(kind, data, [10])) <= 37_748_736
    ensures Dispatched(s, Feed(s, PlainFrame(kind, data, eol)), kind, data, s.out.lastEventId, eol)
  {
    hide Feed, CodePoints, JoinLines, Lines, Message, PlainFrame;
    Names();
    var x := Aside(kind, data);
    FitsByText(x);
    FramesAreWritten([], kind, data, [10]);
    FramesAreWritten([], kind, data, eol);
    assert ValidItem(x);
    FeedItem(s, x, eol, eol);
    JoinedLines(data);
  }
}
