/**
 A reader for the texts of src/server/canonical-json.ts, written from the grammar of RFC 8259 with every keyword and
 separator as code units. It reads a canonical text back, so the text is JSON for the value and for no other.
 */
module JsonReader {
  import opened Utf16
  import opened JsonText
  import opened CanonicalJson

  datatype Read<+T> = Bad | Read(value: T, rest: Text)

  /** `0` to `9`, `+`, `-`, `.` and `e`. */
  predicate Numeric(u: Unit) { 48 <= u <= 57 || u == 43 || u == 45 || u == 46 || u == 101 }

  function NumericLength(t: Text): (n: nat)
    ensures n <= |t| && forall i :: 0 <= i < n ==> Numeric(t[i])
  {
    if t == [] || !Numeric(t[0]) then 0 else 1 + NumericLength(t[1..])
  }

  predicate StartsWith(t: Text, word: Text) { |word| <= |t| && t[..|word|] == word }

  function ReadNumber(t: Text): Read<Json> {
    var n := NumericLength(t);
    if n == 0 then Bad else Read(Num(Finite(t[..n])), t[n..])
  }

  function ReadValue(t: Text): (r: Read<Json>)
    ensures r.Read? ==> |r.rest| < |t|
    decreases |t|, 0
  {
    if t == [] then Bad
    else if StartsWith(t, [110, 117, 108, 108]) then Read(Null, t[4..])
    else if StartsWith(t, [116, 114, 117, 101]) then Read(Bool(true), t[4..])
    else if StartsWith(t, [102, 97, 108, 115, 101]) then Read(Bool(false), t[5..])
    else if t[0] == 34 then
      match Unquote(t) { case Malformed => Bad case Parsed(s, rest) => Read(String(s), rest) }
    else if t[0] == 91 then
      if StartsWith(t[1..], [93]) then Read(Array([]), t[2..])
      else match ReadItems(t[1..]) { case Bad => Bad case Read(items, rest) => Read(Array(items), rest) }
    else if t[0] == 123 then
      if StartsWith(t[1..], [125]) then Read(Object([]), t[2..])
      else match ReadMembers(t[1..]) { case Bad => Bad case Read(entries, rest) => Read(Object(entries), rest) }
    else ReadNumber(t)
  }

  /** One or more values with `,` between them, up to `]`. */
  function ReadItems(t: Text): (r: Read<seq<Json>>)
    ensures r.Read? ==> |r.rest| < |t|
    decreases |t|, 1
  {
    match ReadValue(t)
    case Bad => Bad
    case Read(first, rest) =>
      if StartsWith(rest, [93]) then Read([first], rest[1..])
      else if StartsWith(rest, [44]) then
        match ReadItems(rest[1..]) { case Bad => Bad case Read(more, end) => Read([first] + more, end) }
      else Bad
  }

  /** One or more members `"key":value` with `,` between them, up to `}`. */
  function ReadMembers(t: Text): (r: Read<seq<Entry>>)
    ensures r.Read? ==> |r.rest| < |t|
    decreases |t|, 2
  {
    match ReadMember(t)
    case Bad => Bad
    case Read(first, rest) =>
      if StartsWith(rest, [125]) then Read([first], rest[1..])
      else if StartsWith(rest, [44]) then
        match ReadMembers(rest[1..]) { case Bad => Bad case Read(more, end) => Read([first] + more, end) }
      else Bad
  }

  function ReadMember(t: Text): (r: Read<Entry>)
    ensures r.Read? ==> |r.rest| < |t|
    decreases |t|, 1
  {
    match Unquote(t)
    case Malformed => Bad
    case Parsed(key, after) =>
      if !StartsWith(after, [58]) then Bad
      else match ReadValue(after[1..]) { case Bad => Bad case Read(v, rest) => Read(Entry(key, v), rest) }
  }

  // ---- reading what is printed ----

  /** A number ends where no more of it can follow. */
  predicate Free(rest: Text) { rest == [] || !Numeric(rest[0]) }

  lemma {:induction false} NumericEnds(a: Text, rest: Text)
    requires (forall i :: 0 <= i < |a| ==> Numeric(a[i])) && Free(rest)
    ensures NumericLength(a + rest) == |a|
  {
    if a == [] {
      assert a + rest == rest;
    } else {
      assert (a + rest)[1..] == a[1..] + rest;
      NumericEnds(a[1..], rest);
    }
  }

  lemma {:induction false} ReadsWord(word: Text, rest: Text)
    ensures StartsWith(word + rest, word) && (word + rest)[|word|..] == rest
  {
  }

  lemma Keywords()
    ensures Print(Null) == [110, 117, 108, 108]
    ensures Print(Bool(true)) == [116, 114, 117, 101] && Print(Bool(false)) == [102, 97, 108, 115, 101]
  {
    hide Ascii;
  }

  lemma ReadsKeyword(v: Json, rest: Text)
    requires v.Null? || v.Bool?
    ensures ReadValue(Print(v) + rest) == Read(v, rest)
  {
    Keywords();
    ReadsWord(Print(v), rest);
    hide Print, Ascii;
    assert (Print(v) + rest)[0] == Print(v)[0];
  }

  lemma OpensNumber(t: Text)
    requires t != [] && Numeric(t[0])
    ensures ReadValue(t) == ReadNumber(t)
  {
    hide ReadNumber, ReadItems, ReadMembers;
    assert t[0] != 110 && t[0] != 116 && t[0] != 102 && t[0] != 34 && t[0] != 91 && t[0] != 123;
    hide Numeric;
    NotWord(t, [110, 117, 108, 108]);
    NotWord(t, [116, 114, 117, 101]);
    NotWord(t, [102, 97, 108, 115, 101]);
  }

  lemma NotWord(t: Text, word: Text)
    requires t != [] && word != [] && t[0] != word[0]
    ensures !StartsWith(t, word)
  {
    if |word| <= |t| { assert t[..|word|][0] == t[0]; }
  }

  lemma NumberIsRead(text: NumberText, rest: Text)
    requires Free(rest)
    ensures Numeric((text + rest)[0])
    ensures ReadNumber(text + rest) == Read(Num(Finite(text)), rest)
  {
    assert forall i :: 0 <= i < |text| ==> NumberUnit(text[i]);
    assert (text + rest)[0] == text[0];
    NumericEnds(text, rest);
    ReadsWord(text, rest);
  }

  lemma ReadsNumber(v: Json, rest: Text)
    requires v.Num? && v.n.Finite? && Free(rest)
    ensures ReadValue(Print(v) + rest) == Read(v, rest)
  {
    NumberIsRead(v.n.text, rest);
    OpensNumber(v.n.text + rest);
    hide ReadValue, ReadNumber, Numeric, Free;
    assert Print(v) == v.n.text;
  }

  lemma ReadsString(s: Text, rest: Text)
    ensures ReadValue(Quote(s) + rest) == Read(String(s), rest)
  {
    QuoteRoundTrip(s, rest);
    hide Unquote;
    assert (Quote(s) + rest)[0] == 34;
  }

  /** The text of a canonical value, whatever follows it, reads back as that value and exactly that remainder. */
  lemma {:induction false} ReadsBack(v: Json, rest: Text)
    requires InForm(v) && Free(rest)
    ensures ReadValue(Print(v) + rest) == Read(v, rest)
    decreases v, 2
  {
    hide ReadValue, ReadItems, ReadMembers, Print, InForm;
    match v
    case Null => ReadsKeyword(v, rest);
    case Bool(_) => ReadsKeyword(v, rest);
    case Num(_) => assert v.n.Finite? by { NumberInForm(v); } ReadsNumber(v, rest);
    case String(s) => PrintString(v); ReadsString(s, rest);
    case Array(items) => ReadsArray(items, rest);
    case Object(entries) => ReadsObject(entries, rest);
  }

  lemma NumberInForm(v: Json)
    requires v.Num? && InForm(v)
    ensures v.n.Finite?
  {
  }

  lemma {:induction false} ReadsArray(items: seq<Json>, rest: Text)
    requires InForm(Array(items))
    ensures ReadValue(Print(Array(items)) + rest) == Read(Array(items), rest)
    decreases items, 4
  {
    hide Print, PrintItems, InForm, ReadValue, ReadItems;
    ArrayText(items, rest);
    if items != [] {
      ItemsInForm(items);
      ReadsItems(items, rest);
    }
  }

  lemma ItemsInForm(items: seq<Json>)
    requires InForm(Array(items))
    ensures forall i :: 0 <= i < |items| ==> InForm(items[i])
  {
  }

  function ItemsText(items: seq<Json>): Text
    requires items != []
  {
    Print(items[0]) + PrintItems(items[1..])
  }

  lemma OpensArray(body: Text)
    ensures ReadValue([91] + body) ==
              if StartsWith(body, [93]) then Read(Array([]), body[1..])
              else match ReadItems(body) { case Bad => Bad case Read(v, r) => Read(Array(v), r) }
  {
    hide ReadItems, ReadMembers, Unquote, ReadNumber;
    var t := [91] + body;
    assert t[1..] == body && (body != [] ==> t[2..] == body[1..]);
    assert |t| >= 4 ==> t[..4][0] == 91;
    assert |t| >= 5 ==> t[..5][0] == 91;
  }

  lemma OpensObject(body: Text)
    ensures ReadValue([123] + body) ==
              if StartsWith(body, [125]) then Read(Object([]), body[1..])
              else match ReadMembers(body) { case Bad => Bad case Read(v, r) => Read(Object(v), r) }
  {
    hide ReadItems, ReadMembers, Unquote, ReadNumber;
    var t := [123] + body;
    assert t[1..] == body && (body != [] ==> t[2..] == body[1..]);
    assert |t| >= 4 ==> t[..4][0] == 123;
    assert |t| >= 5 ==> t[..5][0] == 123;
  }

  /** How the reader takes an array apart. */
  lemma ArrayText(items: seq<Json>, rest: Text)
    ensures var t := Print(Array(items)) + rest;
            if items == [] then ReadValue(t) == Read(Array([]), rest)
            else ReadValue(t) == match ReadItems(ItemsText(items) + rest) { case Bad => Bad case Read(v, r) => Read(Array(v), r) }
  {
    hide ReadItems, ReadValue, PrintItems;
    var t := Print(Array(items)) + rest;
    if items == [] {
      assert t == [91] + ([93] + rest) && ([93] + rest)[1..] == rest;
      OpensArray([93] + rest);
    } else {
      var body := ItemsText(items) + rest;
      PrintStart(items[0]);
      hide Print;
      assert t == [91] + body && body[0] == Print(items[0])[0];
      OpensArray(body);
    }
  }

  lemma {:induction false} ReadsItems(items: seq<Json>, rest: Text)
    requires items != [] && forall i :: 0 <= i < |items| ==> InForm(items[i])
    ensures ReadItems(ItemsText(items) + rest) == Read(items, rest)
    decreases items, 3
  {
    hide Print, InForm, ReadValue;
    var after := PrintItems(items[1..]) + rest;
    assert ItemsText(items) + rest == Print(items[0]) + after;
    assert after[0] == if |items| == 1 then 93 else 44;
    ReadsBack(items[0], after);
    if |items| == 1 {
      assert after == [93] + rest && items == [items[0]];
    } else {
      assert after == [44] + (ItemsText(items[1..]) + rest);
      assert after[1..] == ItemsText(items[1..]) + rest;
      ReadsItems(items[1..], rest);
      assert items == [items[0]] + items[1..];
    }
  }

  lemma {:induction false} ReadsObject(entries: seq<Entry>, rest: Text)
    requires InForm(Object(entries))
    ensures ReadValue(Print(Object(entries)) + rest) == Read(Object(entries), rest)
    decreases entries, 4
  {
    hide Print, PrintEntries, PrintEntry, InForm, ReadValue, ReadMembers;
    ObjectText(entries, rest);
    if entries != [] {
      EntriesInForm(entries);
      ReadsMembers(entries, rest);
    }
  }

  lemma EntriesInForm(entries: seq<Entry>)
    requires InForm(Object(entries))
    ensures forall i :: 0 <= i < |entries| ==> InForm(entries[i].value)
  {
  }

  function MembersText(entries: seq<Entry>): Text
    requires entries != []
  {
    PrintEntry(entries[0]) + PrintEntries(entries[1..])
  }

  lemma ObjectText(entries: seq<Entry>, rest: Text)
    ensures var t := Print(Object(entries)) + rest;
            if entries == [] then ReadValue(t) == Read(Object([]), rest)
            else ReadValue(t) ==
                 match ReadMembers(MembersText(entries) + rest) { case Bad => Bad case Read(v, r) => Read(Object(v), r) }
  {
    hide ReadMembers, ReadValue, PrintEntries, Escape;
    var t := Print(Object(entries)) + rest;
    if entries == [] {
      assert t == [123] + ([125] + rest) && ([125] + rest)[1..] == rest;
      OpensObject([125] + rest);
    } else {
      var body := MembersText(entries) + rest;
      assert t == [123] + body && body[0] == 34;
      OpensObject(body);
    }
  }

  lemma {:induction false} ReadsMembers(entries: seq<Entry>, rest: Text)
    requires entries != [] && forall i :: 0 <= i < |entries| ==> InForm(entries[i].value)
    ensures ReadMembers(MembersText(entries) + rest) == Read(entries, rest)
    decreases entries, 3
  {
    hide Print, PrintEntry, InForm, ReadMember;
    var after := PrintEntries(entries[1..]) + rest;
    assert MembersText(entries) + rest == PrintEntry(entries[0]) + after;
    assert after[0] == if |entries| == 1 then 125 else 44;
    ReadsMember(entries[0], after);
    if |entries| == 1 {
      assert after == [125] + rest && entries == [entries[0]];
    } else {
      assert after == [44] + (MembersText(entries[1..]) + rest);
      assert after[1..] == MembersText(entries[1..]) + rest;
      ReadsMembers(entries[1..], rest);
      assert entries == [entries[0]] + entries[1..];
    }
  }

  lemma {:induction false} ReadsMember(e: Entry, rest: Text)
    requires InForm(e.value) && Free(rest)
    ensures ReadMember(PrintEntry(e) + rest) == Read(e, rest)
    decreases e, 3
  {
    hide Print, InForm, Quote, Unquote, ReadValue;
    var after := [58] + (Print(e.value) + rest);
    assert PrintEntry(e) + rest == Quote(e.key) + after;
    QuoteRoundTrip(e.key, after);
    assert after[1..] == Print(e.value) + rest;
    ReadsBack(e.value, rest);
  }

  /** Both zeros are written `0`, any other number by its own text. */
  lemma NumbersAreWritten(v: Json)
    requires v.Num?
    ensures DeterministicJson(v) == if v.n.NegativeZero? then [48] else v.n.text
  {
  }

  /** Reading the deterministic text of a value gives a value with the same meaning, and nothing is left over. */
  lemma DeterministicReads(v: Json)
    requires Proper(v)
    ensures var r := ReadValue(DeterministicJson(v)); r.Read? && r.rest == [] && Meaning(r.value) == Meaning(v)
  {
    hide Print, Canonical, ReadValue;
    CanonicalKeeps(v);
    ReadsBack(Canonical(v), []);
    assert Print(Canonical(v)) + [] == Print(Canonical(v));
  }

  // ---- the letters of a string ----

  /** `0` to `9` and `a` to `f`. */
  predicate HexDigit(u: Unit, n: int) { (0 <= n < 10 && u == 48 + n) || (10 <= n < 16 && u == 87 + n) }

  /** The text of a string of one unit: two-letter escapes, four hexadecimal digits, or the unit itself. */
  lemma QuotedUnit(u: Unit)
    ensures var t := Quote([u]);
            if u == 8 then t == [34, 92, 98, 34]
            else if u == 9 then t == [34, 92, 116, 34]
            else if u == 10 then t == [34, 92, 110, 34]
            else if u == 12 then t == [34, 92, 102, 34]
            else if u == 13 then t == [34, 92, 114, 34]
            else if u == 34 || u == 92 then t == [34, 92, u, 34]
            else if u < 32 || 0xD800 <= u <= 0xDFFF then
              && |t| == 8 && t[..3] == [34, 92, 117] && t[7] == 34
              && HexDigit(t[3], u / 4096) && HexDigit(t[4], u / 256 % 16)
              && HexDigit(t[5], u / 16 % 16) && HexDigit(t[6], u % 16)
            else t == [34, u, 34]
  {
    hide Hex;
    HexDigits(u);
    assert [u][1..] == [];
    assert Escape([u]) == EscapeUnit(u) + [] == EscapeUnit(u);
    HexLetters(u);
  }

  lemma HexLetters(u: Unit)
    requires u / 4096 < 16
    ensures HexDigit(Hex(u / 4096), u / 4096) && HexDigit(Hex(u / 256 % 16), u / 256 % 16)
    ensures HexDigit(Hex(u / 16 % 16), u / 16 % 16) && HexDigit(Hex(u % 16), u % 16)
  {
  }

  /** Longer strings are written part by part; a surrogate pair stays as it is. */
  lemma {:induction false} EscapeConcat(a: Text, b: Text)
    requires Boundary(a, b)
    ensures Escape(a + b) == Escape(a) + Escape(b)
    ensures |a| == 2 && 0xD800 <= a[0] <= 0xDBFF && 0xDC00 <= a[1] <= 0xDFFF ==> Escape(a) == a
    decreases |a|
  {
    hide EscapeUnit;
    if a == [] {
      assert a + b == b;
    } else if |a| > 1 && High(a[0]) && Low(a[1]) {
      assert (a + b)[2..] == a[2..] + b && (a + b)[..2] == a[..2];
      EscapeConcat(a[2..], b);
      assert a[..2] + (Escape(a[2..]) + Escape(b)) == a[..2] + Escape(a[2..]) + Escape(b);
    } else {
      assert (a + b)[1..] == a[1..] + b;
      EscapeConcat(a[1..], b);
      assert EscapeUnit(a[0]) + (Escape(a[1..]) + Escape(b)) == EscapeUnit(a[0]) + Escape(a[1..]) + Escape(b);
    }
  }
}
