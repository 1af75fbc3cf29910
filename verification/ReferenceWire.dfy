/**
 The block of thread references as text in code units: the header line, the JSON object with its member names, and the
 limits of the schema (src/shared/thread-references.ts).
 */
module ReferenceWire {
  import opened Utf16
  import opened JsonText
  import opened CanonicalJson
  import opened JsonReader
  import opened KeyOrder
  import opened ThreadReferences
  import opened ReferenceMessages

  /** `Sedes thread references selected for this message:` */
  lemma HeaderUnits()
    ensures ThreadReferenceHeader() ==
              [83, 101, 100, 101, 115, 32, 116, 104, 114, 101, 97, 100, 32] +
              ([114, 101, 102, 101, 114, 101, 110, 99, 101, 115, 32, 115, 101, 108, 101, 99, 116, 101, 100, 32] +
               [102, 111, 114, 32, 116, 104, 105, 115, 32, 109, 101, 115, 115, 97, 103, 101, 58])
  {
    hide Ascii;
    FirstWords();
    MiddleWords();
    LastWords();
  }

  lemma FirstWords()
    ensures Ascii(HEADER_START) == [83, 101, 100, 101, 115, 32, 116, 104, 114, 101, 97, 100, 32]
  {
    hide Ascii;
  }

  lemma MiddleWords()
    ensures Ascii(HEADER_MIDDLE) ==
              [114, 101, 102, 101, 114, 101, 110, 99, 101, 115, 32, 115, 101, 108, 101, 99, 116, 101, 100, 32]
  {
    hide Ascii;
  }

  lemma LastWords()
    ensures Ascii(HEADER_END) == [102, 111, 114, 32, 116, 104, 105, 115, 32, 109, 101, 115, 115, 97, 103, 101, 58]
  {
    hide Ascii;
  }

  // ---- the JSON object ----

  /** `threadReferences`, `threadId` and `title`. */
  const REFERENCES_KEY: Text := [116, 104, 114, 101, 97, 100, 82, 101, 102, 101, 114, 101, 110, 99, 101, 115]
  const ID_KEY: Text := [116, 104, 114, 101, 97, 100, 73, 100]
  const TITLE_KEY: Text := [116, 105, 116, 108, 101]

  function ReferenceValue(r: Reference): Json {
    Object([Entry(ID_KEY, String(r.threadId)), Entry(TITLE_KEY, String(r.title))])
  }

  function ReferenceValues(refs: seq<Reference>): (values: seq<Json>)
    ensures |values| == |refs|
    ensures forall i :: 0 <= i < |refs| ==> values[i] == ReferenceValue(refs[i])
  {
    if refs == [] then [] else [ReferenceValue(refs[0])] + ReferenceValues(refs[1..])
  }

  function BlockValue(refs: seq<Reference>): Json {
    Object([Entry(REFERENCES_KEY, Array(ReferenceValues(refs)))])
  }

  /** Text without quotes, backslashes, control characters and surrogates is written as it is. */
  lemma {:induction false} PlainEscape(t: Text)
    requires forall i :: 0 <= i < |t| ==> 32 <= t[i] < 0xD800 && t[i] != 34 && t[i] != 92
    ensures Escape(t) == t
    decreases |t|
  {
    if t != [] { PlainEscape(t[1..]); }
  }

  lemma KeyTexts()
    ensures BlockOpen() == [123] + (Quote(REFERENCES_KEY) + ([58] + [91]))
    ensures IdOpen() == [123] + (Quote(ID_KEY) + [58])
    ensures TitleOpen() == [44] + (Quote(TITLE_KEY) + [58])
  {
    hide Ascii, Escape;
    PlainEscape(REFERENCES_KEY);
    PlainEscape(ID_KEY);
    PlainEscape(TITLE_KEY);
  }

  lemma ReferenceText(r: Reference)
    ensures PrintReference(r) == Print(ReferenceValue(r))
  {
    hide Quote, BlockOpen, IdOpen, TitleOpen;
    KeyTexts();
    var id, title := Entry(ID_KEY, String(r.threadId)), Entry(TITLE_KEY, String(r.title));
    EntryText(id);
    EntryText(title);
    hide PrintEntry;
    assert [id, title][1..] == [title] && [title][1..] == [];
    assert PrintEntries([title]) == [44] + (PrintEntry(title) + [125]);
  }

  lemma EntryText(e: Entry)
    requires e.value.String?
    ensures PrintEntry(e) == Quote(e.key) + ([58] + Quote(e.value.s))
  {
  }

  lemma {:induction false} RestText(refs: seq<Reference>)
    ensures PrintRest(refs) == PrintItems(ReferenceValues(refs)) + [125]
  {
    hide PrintReference, Print, ReferenceValue;
    if refs != [] {
      var values := ReferenceValues(refs);
      assert values[1..] == ReferenceValues(refs[1..]);
      ReferenceText(refs[0]);
      RestText(refs[1..]);
    }
  }

  lemma BlockIsPrinted(refs: seq<Reference>)
    requires refs != []
    ensures PrintBlock(refs) == Print(BlockValue(refs))
  {
    hide PrintReference, ReferenceValue, Quote, PrintItems, BlockOpen, Print, PrintEntry, ReferenceValues, PrintRest;
    KeyTexts();
    ReferenceText(refs[0]);
    RestText(refs[1..]);
    var values := ReferenceValues(refs);
    ValuesFirst(refs);
    var e := Entry(REFERENCES_KEY, Array(values));
    ArrayPrint(values);
    OnlyEntry(e);
    assert PrintEntry(e) == Quote(REFERENCES_KEY) + ([58] + Print(Array(values))) by { EntryPrint(e); }
    var first, more := Print(values[0]), PrintItems(values[1..]);
    Regroup([123], Quote(REFERENCES_KEY), first, more);
  }

  lemma Regroup(open: Text, key: Text, first: Text, more: Text)
    ensures open + (key + ([58] + [91])) + (first + (more + [125])) ==
              open + ((key + ([58] + ([91] + (first + more)))) + [125])
  {
  }

  lemma ValuesFirst(refs: seq<Reference>)
    requires refs != []
    ensures ReferenceValues(refs)[1..] == ReferenceValues(refs[1..])
    ensures ReferenceValues(refs)[0] == ReferenceValue(refs[0])
  {
    hide ReferenceValue;
  }

  lemma EntryPrint(e: Entry)
    ensures PrintEntry(e) == Quote(e.key) + ([58] + Print(e.value))
  {
    hide Print, Quote;
  }

  lemma ArrayPrint(values: seq<Json>)
    requires values != []
    ensures Print(Array(values)) == [91] + (Print(values[0]) + PrintItems(values[1..]))
  {
  }

  lemma OnlyEntry(e: Entry)
    ensures Print(Object([e])) == [123] + (PrintEntry(e) + [125])
  {
    hide PrintEntry;
    assert [e][1..] == [];
  }

  lemma KeysInOrder()
    ensures Before(ID_KEY, TITLE_KEY)
  {
    hide Lex, IsIndex;
    assert !IsIndex(ID_KEY) && !IsIndex(TITLE_KEY) by { NotIndices(); }
    LexExactly(ID_KEY, TITLE_KEY);
    assert ID_KEY[..1] == TITLE_KEY[..1];
  }

  lemma NotIndices()
    ensures !IsIndex(ID_KEY) && !IsIndex(TITLE_KEY)
  {
    assert !Digit(ID_KEY[0]) && !Digit(TITLE_KEY[0]);
  }

  /** A JSON reader finds in the block exactly the references, each under `threadId` and `title`. */
  lemma BlockIsJson(refs: seq<Reference>, rest: Text)
    requires refs != [] && Free(rest)
    ensures ReadValue(PrintBlock(refs) + rest) == Read(BlockValue(refs), rest)
  {
    hide ReadValue, PrintBlock, Print, Before;
    BlockIsPrinted(refs);
    KeysInOrder();
    assert forall r :: InForm(ReferenceValue(r));
    var values := ReferenceValues(refs);
    assert forall i :: 0 <= i < |values| ==> InForm(values[i]);
    ReadsBack(BlockValue(refs), rest);
  }

  // ---- the schema ----

  /** `0` to `9`, `a` to `f` and `A` to `F`. */
  predicate Hexadecimal(t: Text) {
    forall i :: 0 <= i < |t| ==> 48 <= t[i] <= 57 || 97 <= t[i] <= 102 || 65 <= t[i] <= 70
  }

  predicate All(t: Text, u: Unit) { forall i :: 0 <= i < |t| ==> t[i] == u }

  /** Five groups with `-` between them. */
  function Groups(a: Text, b: Text, c: Text, d: Text, e: Text): Text { a + [45] + b + [45] + c + [45] + d + [45] + e }

  predicate GroupLengths(a: Text, b: Text, c: Text, d: Text, e: Text) {
    |a| == 8 && |b| == 4 && |c| == 4 && |d| == 4 && |e| == 12
  }

  /** The groups are hexadecimal; version 1 to 8 and variant 8, 9, a or b, or else all `0` or all `f`. */
  predicate GoodGroups(a: Text, b: Text, c: Text, d: Text, e: Text)
    requires GroupLengths(a, b, c, d, e)
  {
    && Hexadecimal(a) && Hexadecimal(b) && Hexadecimal(c) && Hexadecimal(d) && Hexadecimal(e)
    && (|| (49 <= c[0] <= 56 && d[0] in {56, 57, 97, 98, 65, 66})
        || (All(a, 48) && All(b, 48) && All(c, 48) && All(d, 48) && All(e, 48))
        || (All(a, 102) && All(b, 102) && All(c, 102) && All(d, 102) && All(e, 102)))
  }

  lemma IdExactly(a: Text, b: Text, c: Text, d: Text, e: Text)
    requires GroupLengths(a, b, c, d, e)
    ensures Uuid(Groups(a, b, c, d, e)) <==> GoodGroups(a, b, c, d, e)
  {
    var t := Groups(a, b, c, d, e);
    assert forall i :: 0 <= i < 8 ==> t[i] == a[i];
    assert forall i :: 0 <= i < 4 ==> t[i + 9] == b[i] && t[i + 14] == c[i] && t[i + 19] == d[i];
    assert forall i :: 0 <= i < 12 ==> t[i + 24] == e[i];
  }

  /** Every id has five such groups. */
  lemma IdHasGroups(t: Text)
    requires Uuid(t)
    ensures t == Groups(t[..8], t[9..13], t[14..18], t[19..23], t[24..])
  {
  }

  /** One to sixteen references, titles of 1 to 512 units, and no id twice. */
  lemma BlockLimits(refs: seq<Reference>)
    ensures ValidBlock(refs) <==>
              && 1 <= |refs| <= 16
              && (forall i :: 0 <= i < |refs| ==> Uuid(refs[i].threadId) && 1 <= |refs[i].title| <= 512)
              && (forall i, j :: 0 <= i < j < |refs| ==> refs[i].threadId != refs[j].threadId)
  {
    hide Uuid;
  }
}
