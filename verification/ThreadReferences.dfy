/**
 Thread references embedded in message text (src/shared/thread-references.ts): the canonical
 block, its recognition, and the extraction of blocks from free text outside code fences.
 */
module ThreadReferences {
  import opened Wrappers
  import opened Utf16
  import opened JsonText

  const MAXIMUM_THREAD_REFERENCES: nat := 16
  const MAXIMUM_THREAD_INPUT_BYTES: nat := 262_144

  datatype Reference = Reference(threadId: Text, title: Text)

  // ---- the schema ----

  predicate HexDigit(u: Unit) { Digit(u) || 97 <= u <= 102 || 65 <= u <= 70 }

  /** Eight, four, four, four and twelve hexadecimal digits; a version and a variant, or all equal. */
  predicate Uuid(t: Text) {
    && |t| == 36
    && (forall i :: 0 <= i < 36 ==> if i in {8, 13, 18, 23} then t[i] == 45 else HexDigit(t[i]))
    && (|| (49 <= t[14] <= 56 && t[19] in {56, 57, 97, 98, 65, 66})
        || (forall i :: 0 <= i < 36 && i !in {8, 13, 18, 23} ==> t[i] == 48)
        || (forall i :: 0 <= i < 36 && i !in {8, 13, 18, 23} ==> t[i] == 102))
  }

  predicate ValidReference(r: Reference) { Uuid(r.threadId) && 1 <= |r.title| <= 512 }

  predicate UniqueIds(refs: seq<Reference>) {
    forall i, j :: 0 <= i < j < |refs| ==> refs[i].threadId != refs[j].threadId
  }

  predicate ValidBlock(refs: seq<Reference>) {
    && 1 <= |refs| <= MAXIMUM_THREAD_REFERENCES
    && (forall i :: 0 <= i < |refs| ==> ValidReference(refs[i]))
    && UniqueIds(refs)
  }

  // ---- printing a block ----

  /** A line that starts with a letter; the text around it is kept abstract, see `Header`. */
  predicate HeaderLine(t: Text) {
    t != [] && 65 <= t[0] <= 90 && forall i :: 0 <= i < |t| ==> 32 <= t[i] < 127
  }

  type HeaderText = t: Text | HeaderLine(t) witness [83]

  const BLOCK_OPEN := "{\"threadReferences\":["
  const ID_OPEN := "{\"threadId\":"
  const TITLE_OPEN := ",\"title\":"

  function BlockOpen(): Text { Ascii(BLOCK_OPEN) }
  function IdOpen(): Text { Ascii(ID_OPEN) }
  function TitleOpen(): Text { Ascii(TITLE_OPEN) }

  function PrintReference(r: Reference): Text {
    IdOpen() + (Quote(r.threadId) + (TitleOpen() + (Quote(r.title) + [CLOSE_BRACE])))
  }

  function PrintRest(refs: seq<Reference>): Text {
    if refs == [] then [CLOSE_BRACKET, CLOSE_BRACE]
    else [COMMA] + (PrintReference(refs[0]) + PrintRest(refs[1..]))
  }

  function PrintBlock(refs: seq<Reference>): Text {
    if refs == [] then BlockOpen() + PrintRest([])
    else BlockOpen() + (PrintReference(refs[0]) + PrintRest(refs[1..]))
  }

  /** The paragraph that carries the references. */
  function BlockText(header: HeaderText, refs: seq<Reference>): Text {
    header + [LF] + PrintBlock(refs) + [LF, LF]
  }

  function Format(header: HeaderText, text: Text, refs: seq<Reference>): Option<Text> {
    if refs == [] then Some(text)
    else if ValidBlock(refs) then Some(BlockText(header, refs) + text)
    else None
  }

  // ---- reading one back ----

  function Strip(t: Text, prefix: Text): Option<Text> {
    if prefix <= t then Some(t[|prefix|..]) else None
  }

  datatype ParsedReference = NoReference | ParsedReference(reference: Reference, rest: Text)

  function ParseTitle(id: Text, t: Text): ParsedReference {
    var a := Strip(t, TitleOpen());
    if a.None? then NoReference
    else
      var title := Unquote(a.value);
      if title.Parsed? && title.rest != [] && title.rest[0] == CLOSE_BRACE
      then ParsedReference(Reference(id, title.value), title.rest[1..]) else NoReference
  }

  function ParseReference(t: Text): ParsedReference {
    var a := Strip(t, IdOpen());
    if a.None? then NoReference
    else
      var id := Unquote(a.value);
      if id.Parsed? then ParseTitle(id.value, id.rest) else NoReference
  }

  function ParseList(t: Text, fuel: nat): Option<seq<Reference>>
    decreases fuel
  {
    var first := ParseReference(t);
    if first.NoReference? then None
    else if first.rest == [CLOSE_BRACKET, CLOSE_BRACE] then Some([first.reference])
    else if first.rest == [] || first.rest[0] != COMMA || fuel == 0 then None
    else
      var rest := ParseList(first.rest[1..], fuel - 1);
      if rest.None? then None else Some([first.reference] + rest.value)
  }

  /** The references of a canonical line: it parses, is valid, and prints as it was written. */
  function Recognize(json: Text): Option<seq<Reference>> {
    var a := Strip(json, BlockOpen());
    if a.None? then None
    else
      var refs := ParseList(a.value, MAXIMUM_THREAD_REFERENCES);
      if refs.Some? && ValidBlock(refs.value) && PrintBlock(refs.value) == json then refs else None
  }

  lemma StripPrefix(prefix: Text, t: Text)
    ensures Strip(prefix + t, prefix) == Some(t)
  {
    assert (prefix + t)[|prefix|..] == t;
  }

  lemma ParsePrinted(r: Reference, rest: Text)
    ensures ParseReference(PrintReference(r) + rest) == ParsedReference(r, rest)
  {
    hide Unquote, Quote, IdOpen, TitleOpen, Strip;
    var tail := [CLOSE_BRACE] + rest;
    var title := TitleOpen() + (Quote(r.title) + tail);
    assert PrintReference(r) + rest == IdOpen() + (Quote(r.threadId) + title);
    StripPrefix(IdOpen(), Quote(r.threadId) + title);
    QuoteRoundTrip(r.threadId, title);
    StripPrefix(TitleOpen(), Quote(r.title) + tail);
    QuoteRoundTrip(r.title, tail);
    assert tail[1..] == rest;
  }

  lemma {:induction false} ParsePrintedList(refs: seq<Reference>, fuel: nat)
    requires refs != [] && |refs| <= fuel + 1
    ensures ParseList(PrintReference(refs[0]) + PrintRest(refs[1..]), fuel) == Some(refs)
    decreases |refs|
  {
    hide ParseReference, PrintReference;
    var rest := refs[1..];
    ParsePrinted(refs[0], PrintRest(rest));
    if rest == [] {
      assert refs == [refs[0]];
    } else {
      var tail := PrintReference(rest[0]) + PrintRest(rest[1..]);
      assert PrintRest(rest) == [COMMA] + tail && PrintRest(rest)[1..] == tail;
      assert PrintRest(rest) != [CLOSE_BRACKET, CLOSE_BRACE] by { assert PrintRest(rest)[0] == COMMA; }
      ParsePrintedList(rest, fuel - 1);
      assert refs == [refs[0]] + rest;
    }
  }

  /** A line is recognized exactly when it is the print of a valid list of references. */
  lemma RecognizeExactly(json: Text, refs: seq<Reference>)
    ensures Recognize(json) == Some(refs) <==> ValidBlock(refs) && PrintBlock(refs) == json
  {
    hide ParseList, PrintReference, PrintRest, BlockOpen, ValidReference, UniqueIds, Strip;
    if ValidBlock(refs) && PrintBlock(refs) == json {
      StripPrefix(BlockOpen(), PrintReference(refs[0]) + PrintRest(refs[1..]));
      ParsePrintedList(refs, MAXIMUM_THREAD_REFERENCES);
    }
  }

  // ---- the printed line ----

  predicate Printable(t: Text) { forall i :: 0 <= i < |t| ==> t[i] >= 32 }

  lemma QuoteShape(t: Text)
    ensures Printable(Quote(t)) && |Quote(t)| <= 6 * |t| + 2
  {
    EscapeShape(t);
  }

  lemma PrintableConcat(a: Text, b: Text)
    requires Printable(a) && Printable(b)
    ensures Printable(a + b)
  {
  }

  lemma OpensPrintable()
    ensures Printable(IdOpen()) && |IdOpen()| == 12
    ensures Printable(TitleOpen()) && |TitleOpen()| == 9
    ensures Printable(BlockOpen()) && |BlockOpen()| == 21
  {
    hide Ascii;
  }

  lemma PrintReferenceShape(r: Reference)
    requires ValidReference(r)
    ensures Printable(PrintReference(r)) && |PrintReference(r)| <= 3500
  {
    hide Quote, Uuid, Printable, IdOpen, TitleOpen;
    UuidLength(r.threadId);
    QuoteShape(r.threadId);
    QuoteShape(r.title);
    OpensPrintable();
    PrintableClose();
    PrintableConcat(Quote(r.title), [CLOSE_BRACE]);
    PrintableConcat(TitleOpen(), Quote(r.title) + [CLOSE_BRACE]);
    PrintableConcat(Quote(r.threadId), TitleOpen() + (Quote(r.title) + [CLOSE_BRACE]));
    PrintableConcat(IdOpen(), Quote(r.threadId) + (TitleOpen() + (Quote(r.title) + [CLOSE_BRACE])));
  }

  lemma PrintableClose()
    ensures Printable([CLOSE_BRACE])
  {
  }

  lemma UuidLength(t: Text)
    requires Uuid(t)
    ensures |t| == 36
  {
  }

  lemma {:induction false} PrintRestShape(refs: seq<Reference>)
    requires forall i :: 0 <= i < |refs| ==> ValidReference(refs[i])
    ensures Printable(PrintRest(refs)) && |PrintRest(refs)| <= 3501 * |refs| + 2
  {
    hide PrintReference, ValidReference;
    if refs != [] {
      PrintReferenceShape(refs[0]);
      PrintRestShape(refs[1..]);
    }
  }

  /** Every valid block is one line that fits the length limit, however its titles are escaped. */
  lemma BlockFits(refs: seq<Reference>)
    requires ValidBlock(refs)
    ensures Printable(PrintBlock(refs)) && |PrintBlock(refs)| <= MAXIMUM_THREAD_INPUT_BYTES
  {
    hide PrintReference, PrintRest, ValidReference, UniqueIds, Printable, BlockOpen;
    OpensPrintable();
    PrintReferenceShape(refs[0]);
    PrintRestShape(refs[1..]);
    PrintableConcat(PrintReference(refs[0]), PrintRest(refs[1..]));
    PrintableConcat(BlockOpen(), PrintReference(refs[0]) + PrintRest(refs[1..]));
  }
}
