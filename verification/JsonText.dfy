/**
 JSON strings as JSON.stringify writes them: the escapes of section 7 of RFC 8259, with a lone
 surrogate escaped too. Reading a written string back gives the string and what followed it.
 */
module JsonText {
  import opened Utf16

  const COMMA: Unit := 44
  const OPEN_BRACKET: Unit := 91
  const CLOSE_BRACKET: Unit := 93
  const OPEN_BRACE: Unit := 123
  const CLOSE_BRACE: Unit := 125

  function Hex(n: int): Unit
    requires 0 <= n < 16
  {
    if n < 10 then 48 + n else 87 + n
  }

  function HexValue(u: Unit): (n: int)
    ensures -1 <= n < 16
  {
    if 48 <= u <= 57 then u - 48 else if 97 <= u <= 102 then u - 87 else -1
  }

  const LOWER_U: Unit := 117

  function UnicodeEscape(u: Unit): Text {
    [BACKSLASH, LOWER_U, Hex(u / 4096), Hex(u / 256 % 16), Hex(u / 16 % 16), Hex(u % 16)]
  }

  /** The letter of a two-character escape, or zero. */
  function ShortEscape(u: Unit): Unit {
    if u == 8 then 98 else if u == 9 then 116 else if u == 10 then 110
    else if u == 12 then 102 else if u == 13 then 114
    else if u == QUOTE || u == BACKSLASH then u else 0
  }

  function ShortValue(letter: Unit): int {
    if letter == 98 then 8 else if letter == 116 then 9 else if letter == 110 then 10
    else if letter == 102 then 12 else if letter == 114 then 13
    else if letter == QUOTE || letter == BACKSLASH then letter else -1
  }

  function EscapeUnit(u: Unit): Text {
    if ShortEscape(u) != 0 then [BACKSLASH, ShortEscape(u)]
    else if u < 32 || High(u) || Low(u) then UnicodeEscape(u)
    else [u]
  }

  function Escape(t: Text): Text {
    if t == [] then []
    else if |t| > 1 && High(t[0]) && Low(t[1]) then t[..2] + Escape(t[2..])
    else EscapeUnit(t[0]) + Escape(t[1..])
  }

  function Quote(t: Text): Text { [QUOTE] + Escape(t) + [QUOTE] }

  datatype Parsed = Malformed | Parsed(value: Text, rest: Text)

  function Prefixed(u: Unit, p: Parsed): Parsed {
    if p.Parsed? then Parsed([u] + p.value, p.rest) else p
  }

  function HexUnit(t: Text): int
    requires |t| >= 4
  {
    var a, b, c, d := HexValue(t[0]), HexValue(t[1]), HexValue(t[2]), HexValue(t[3]);
    if a < 0 || b < 0 || c < 0 || d < 0 then -1 else ((a * 16 + b) * 16 + c) * 16 + d
  }

  /** Reads a string body up to its closing quote. */
  function Unescape(t: Text): (p: Parsed)
    ensures p.Parsed? ==> |p.rest| < |t|
    decreases |t|
  {
    if t == [] then Malformed
    else if t[0] == QUOTE then Parsed([], t[1..])
    else if t[0] != BACKSLASH then Prefixed(t[0], Unescape(t[1..]))
    else if |t| >= 6 && t[1] == LOWER_U && 0 <= HexUnit(t[2..6]) < 0x1_0000 then
      Prefixed(HexUnit(t[2..6]), Unescape(t[6..]))
    else if |t| >= 2 && ShortValue(t[1]) >= 0 then Prefixed(ShortValue(t[1]), Unescape(t[2..]))
    else Malformed
  }

  function Unquote(t: Text): Parsed {
    if t == [] || t[0] != QUOTE then Malformed else Unescape(t[1..])
  }

  lemma HexDigits(u: Unit)
    ensures u / 4096 < 16
    ensures HexUnit([Hex(u / 4096), Hex(u / 256 % 16), Hex(u / 16 % 16), Hex(u % 16)]) == u
  {
    assert u / 256 == 16 * (u / 4096) + u / 256 % 16;
    assert u / 16 == 16 * (u / 256) + u / 16 % 16;
    assert u == 16 * (u / 16) + u % 16;
  }

  lemma UnescapePlain(u: Unit, rest: Text)
    requires u != QUOTE && u != BACKSLASH
    ensures Unescape([u] + rest) == Prefixed(u, Unescape(rest))
  {
    hide HexUnit, Prefixed;
    assert ([u] + rest)[1..] == rest;
  }

  lemma UnescapeHex(u: Unit, rest: Text)
    ensures Unescape(UnicodeEscape(u) + rest) == Prefixed(u, Unescape(rest))
  {
    hide HexUnit, Hex, Prefixed;
    HexDigits(u);
    var t := UnicodeEscape(u) + rest;
    assert t[2..6] == [Hex(u / 4096), Hex(u / 256 % 16), Hex(u / 16 % 16), Hex(u % 16)];
    assert t[6..] == rest;
  }

  lemma UnescapeUnit(u: Unit, rest: Text)
    ensures Unescape(EscapeUnit(u) + rest) == Prefixed(u, Unescape(rest))
  {
    if ShortEscape(u) != 0 {
      hide HexUnit, Prefixed;
      var t := [BACKSLASH, ShortEscape(u)] + rest;
      assert t[2..] == rest;
    } else if u < 32 || High(u) || Low(u) {
      UnescapeHex(u, rest);
    } else {
      UnescapePlain(u, rest);
    }
  }

  lemma UnescapeEnd(rest: Text)
    ensures Unescape([QUOTE] + rest) == Parsed([], rest)
  {
    hide HexUnit;
    assert ([QUOTE] + rest)[1..] == rest;
  }

  lemma {:induction false} EscapeRoundTrip(t: Text, rest: Text)
    ensures Unescape(Escape(t) + ([QUOTE] + rest)) == Parsed(t, rest)
    decreases |t|
  {
    hide Unescape, EscapeUnit;
    var tail := [QUOTE] + rest;
    if t == [] {
      assert Escape(t) + tail == tail;
      UnescapeEnd(rest);
    } else if |t| > 1 && High(t[0]) && Low(t[1]) {
      var after := Escape(t[2..]) + tail;
      assert Escape(t) + tail == [t[0]] + ([t[1]] + after);
      EscapeRoundTrip(t[2..], rest);
      UnescapePlain(t[1], after);
      UnescapePlain(t[0], [t[1]] + after);
      assert [t[0]] + ([t[1]] + t[2..]) == t;
    } else {
      var after := Escape(t[1..]) + tail;
      assert Escape(t) + tail == EscapeUnit(t[0]) + after;
      EscapeRoundTrip(t[1..], rest);
      UnescapeUnit(t[0], after);
      assert [t[0]] + t[1..] == t;
    }
  }

  lemma QuoteRoundTrip(t: Text, rest: Text)
    ensures Unquote(Quote(t) + rest) == Parsed(t, rest)
  {
    hide Unescape, Escape;
    assert (Quote(t) + rest)[1..] == Escape(t) + ([QUOTE] + rest);
    EscapeRoundTrip(t, rest);
  }

  /** Quoted strings are self-delimiting: equal texts hold equal strings and equal remainders. */
  lemma QuoteInjective(a: Text, b: Text, r: Text, s: Text)
    requires Quote(a) + r == Quote(b) + s
    ensures a == b && r == s
  {
    QuoteRoundTrip(a, r);
    QuoteRoundTrip(b, s);
  }

  /** A written string stays on its line and is at most six times as long, plus the quotes. */
  lemma {:induction false} EscapeShape(t: Text)
    ensures forall i :: 0 <= i < |Escape(t)| ==> Escape(t)[i] >= 32
    ensures |t| <= |Escape(t)| <= 6 * |t|
    decreases |t|
  {
    if t == [] {
    } else if |t| > 1 && High(t[0]) && Low(t[1]) {
      EscapeShape(t[2..]);
    } else {
      EscapeShape(t[1..]);
      HexDigits(t[0]);
    }
  }
}
