/**
 The Content-Disposition header of a download (src/shared/downloads.ts and
 `workspaceFileDownloadContentDisposition` of src/server/normalized-app.ts): an ASCII fallback in quotes,
 and the name itself as an extended value (section 3.2.1 of RFC 8187).
 */
module ContentDisposition {

  import opened DownloadNames

  datatype Disposition = Inline | Attachment

  const PERCENT: CodePoint := 37
  const QUOTE: CodePoint := 34
  const UNDERSCORE: CodePoint := 95

  // ---- the extended value ----

  predicate Alphanumeric(c: CodePoint) { 48 <= c <= 57 || 65 <= c <= 90 || 97 <= c <= 122 }

  /** `'`, `(`, `)` and `*`, which encodeURIComponent leaves and the header escapes. */
  predicate Marked(c: CodePoint) { 39 <= c <= 42 }

  /** What encodeURIComponent leaves: letters, digits and - _ . ! ~ * ' ( ) */
  predicate Unreserved(c: CodePoint) {
    Alphanumeric(c) || Marked(c) || c == 45 || c == 95 || c == 46 || c == 33 || c == 126
  }

  /** attr-char of section 3.2.1 of RFC 8187 */
  predicate AttrChar(c: CodePoint) {
    Alphanumeric(c) || c == 33 || c == 35 || c == 36 || c == 38 || c == 43 || c == 45 || c == 46 ||
    c == 94 || c == 95 || c == 96 || c == 124 || c == 126
  }

  function HexDigit(n: nat): CodePoint
    requires n < 16
  {
    if n < 10 then 48 + n else 55 + n
  }

  function Escape(b: Byte): Name { [PERCENT, HexDigit(b / 16), HexDigit(b % 16)] }

  function EscapeAll(b: seq<Byte>): Name { if b == [] then [] else Escape(b[0]) + EscapeAll(b[1..]) }

  function Piece(c: CodePoint): Name { if Unreserved(c) then [c] else EscapeAll(Encode(c)) }

  function Pieces(s: Name): Name { if s == [] then [] else Piece(s[0]) + Pieces(s[1..]) }

  /** A lone surrogate makes encodeURIComponent throw. */
  function EncodeUriComponent(s: Name): Result<Name> { if Scalars(s) then Success(Pieces(s)) else Failure }

  function EscapeMarks(t: Name): Name {
    if t == [] then [] else (if Marked(t[0]) then Escape(t[0]) else [t[0]]) + EscapeMarks(t[1..])
  }

  // ---- reading it back ----

  function HexValue(c: CodePoint): int {
    if 48 <= c <= 57 then c as int - 48 else if 65 <= c <= 70 then c as int - 55 else -1
  }

  function PercentDecode(t: Name): seq<Byte> {
    if t == [] then []
    else if t[0] == PERCENT && |t| >= 3 && HexValue(t[1]) >= 0 && HexValue(t[2]) >= 0 then
      [16 * HexValue(t[1]) + HexValue(t[2])] + PercentDecode(t[3..])
    else [t[0] % 256] + PercentDecode(t[1..])
  }

  lemma EscapeIsRead(b: Byte, rest: Name)
    ensures PercentDecode(Escape(b) + rest) == [b] + PercentDecode(rest)
  {
    var t := Escape(b) + rest;
    assert t[0] == PERCENT && t[1] == HexDigit(b / 16) && t[2] == HexDigit(b % 16) && t[3..] == rest;
    assert HexValue(t[1]) == b / 16 && HexValue(t[2]) == b % 16;
  }

  lemma {:induction false} EscapesAreRead(b: seq<Byte>, rest: Name)
    ensures PercentDecode(EscapeAll(b) + rest) == b + PercentDecode(rest)
  {
    hide PercentDecode, Escape;
    if b == [] {
      assert EscapeAll(b) + rest == rest;
    } else {
      assert EscapeAll(b) + rest == Escape(b[0]) + (EscapeAll(b[1..]) + rest);
      EscapeIsRead(b[0], EscapeAll(b[1..]) + rest);
      EscapesAreRead(b[1..], rest);
      assert [b[0]] + (b[1..] + PercentDecode(rest)) == b + PercentDecode(rest);
    }
  }

  lemma {:induction false} MarksConcat(a: Name, b: Name)
    ensures EscapeMarks(a + b) == EscapeMarks(a) + EscapeMarks(b)
  {
    hide EscapeMarks;
    if a == [] {
      assert a + b == b;
      Empty();
    } else {
      assert a + b == [a[0]] + (a[1..] + b) && a == [a[0]] + a[1..];
      FirstMark(a[0], a[1..] + b);
      FirstMark(a[0], a[1..]);
      MarksConcat(a[1..], b);
    }
  }

  lemma FirstMark(c: CodePoint, rest: Name)
    ensures EscapeMarks([c] + rest) == EscapeMarks([c]) + EscapeMarks(rest)
  {
    hide Escape;
    assert ([c] + rest)[1..] == rest && [c][1..] == [];
  }

  /** Escapes have no marks in them. */
  lemma {:induction false} EscapesHaveNoMarks(b: seq<Byte>)
    ensures EscapeMarks(EscapeAll(b)) == EscapeAll(b)
  {
    hide Escape;
    if b != [] {
      MarksConcat(Escape(b[0]), EscapeAll(b[1..]));
      EscapeHasNoMarks(b[0]);
      EscapesHaveNoMarks(b[1..]);
    }
  }

  lemma EscapeHasNoMarks(b: Byte)
    ensures EscapeMarks(Escape(b)) == Escape(b)
  {
    var e := Escape(b);
    assert e == [e[0]] + [e[1]] + [e[2]];
    assert e[1..] == [e[1], e[2]] && e[2..] == [e[2]] && e[1..][1..] == [e[2]];
    assert EscapeMarks([e[2]]) == [e[2]];
    assert EscapeMarks([e[1], e[2]]) == [e[1]] + EscapeMarks([e[2]]);
  }

  /** One character: what it becomes, how long that is, and what it decodes to. */
  function Encoded(c: CodePoint): Name { if Unreserved(c) && !Marked(c) then [c] else EscapeAll(Encode(c)) }

  lemma PieceIsEncoded(c: CodePoint)
    ensures EscapeMarks(Piece(c)) == Encoded(c)
  {
    hide Encode, EscapeAll, Escape;
    if Marked(c) {
      MarkIsEncoded(c);
      assert EscapeMarks([c]) == Escape(c) + EscapeMarks([]);
    } else if Unreserved(c) {
      assert EscapeMarks([c]) == [c] + EscapeMarks([]);
    } else {
      EscapesHaveNoMarks(Encode(c));
    }
  }

  lemma MarkIsEncoded(c: CodePoint)
    requires Marked(c)
    ensures EscapeAll(Encode(c)) == Escape(c)
  {
    assert Encode(c) == [c];
    assert EscapeAll([c]) == Escape(c) + EscapeAll([]);
  }

  lemma EncodedIsRead(c: CodePoint, rest: Name)
    requires !Surrogate(c)
    ensures PercentDecode(Encoded(c) + rest) == Encode(c) + PercentDecode(rest)
  {
    hide EscapeAll;
    if Unreserved(c) && !Marked(c) {
      assert ([c] + rest)[1..] == rest;
      assert Encode(c) == [c];
    } else {
      EscapesAreRead(Encode(c), rest);
    }
  }

  lemma {:induction false} ExtendedIsRead(s: Name)
    requires Scalars(s)
    ensures PercentDecode(EscapeMarks(Pieces(s))) == Utf8(s)
  {
    hide PercentDecode, EscapeMarks, Piece, Encoded, Encode;
    if s == [] {
      Empty();
    } else {
      MarksConcat(Piece(s[0]), Pieces(s[1..]));
      PieceIsEncoded(s[0]);
      EncodedIsRead(s[0], EscapeMarks(Pieces(s[1..])));
      ExtendedIsRead(s[1..]);
    }
  }

  lemma Empty()
    ensures EscapeMarks([]) == [] && PercentDecode([]) == []
  {
  }

  // ---- size and alphabet ----

  ghost predicate Plain(t: Name) { forall i :: 0 <= i < |t| ==> AttrChar(t[i]) || t[i] == PERCENT }

  lemma {:induction false} EscapesArePlain(b: seq<Byte>)
    ensures |EscapeAll(b)| == 3 * |b| && Plain(EscapeAll(b))
  {
    if b != [] { EscapesArePlain(b[1..]); }
  }

  lemma EncodedIsPlain(c: CodePoint)
    ensures |Encoded(c)| <= 3 * |Encode(c)| && Plain(Encoded(c))
  {
    hide Encode;
    EscapesArePlain(Encode(c));
  }

  lemma {:induction false} ExtendedIsPlain(s: Name)
    ensures var e := EscapeMarks(Pieces(s)); |e| <= 3 * |Utf8(s)| && Plain(e)
  {
    hide EscapeMarks, Piece, Encoded, Encode, AttrChar;
    if s == [] {
      Empty();
    } else {
      MarksConcat(Piece(s[0]), Pieces(s[1..]));
      PieceIsEncoded(s[0]);
      EncodedIsPlain(s[0]);
      ExtendedIsPlain(s[1..]);
    }
  }

  // ---- the extended value, byte by byte ----

  /** A letter, a digit or one of `! - . _ ~` as it is, any other byte as `%` and two digits in upper case. */
  function Shown(b: Byte): Name {
    if 48 <= b <= 57 || 65 <= b <= 90 || 97 <= b <= 122 || b in {33, 45, 46, 95, 126} then [b]
    else [37, UpperHex(b / 16), UpperHex(b % 16)]
  }

  function UpperHex(n: nat): CodePoint
    requires n < 16
  {
    [48, 49, 50, 51, 52, 53, 54, 55, 56, 57, 65, 66, 67, 68, 69, 70][n]
  }

  function ShownAll(b: seq<Byte>): Name { if b == [] then [] else Shown(b[0]) + ShownAll(b[1..]) }

  lemma {:induction false} ShownConcat(a: seq<Byte>, b: seq<Byte>)
    ensures ShownAll(a + b) == ShownAll(a) + ShownAll(b)
  {
    hide Shown;
    if a == [] {
      assert a + b == b;
    } else {
      assert (a + b)[1..] == a[1..] + b;
      ShownConcat(a[1..], b);
    }
  }

  ghost predicate Left(c: int) { 48 <= c <= 57 || 65 <= c <= 90 || 97 <= c <= 122 || c in {33, 45, 46, 95, 126} }

  lemma EscapeIsShown(b: Byte)
    requires !Left(b)
    ensures Escape(b) == Shown(b)
  {
    assert forall n :: 0 <= n < 16 ==> HexDigit(n) == UpperHex(n);
    hide HexDigit, UpperHex;
  }

  lemma {:induction false} EscapesAreShown(b: seq<Byte>)
    requires forall i :: 0 <= i < |b| ==> !Left(b[i])
    ensures EscapeAll(b) == ShownAll(b)
  {
    hide Left, Escape, Shown;
    if b != [] {
      EscapeIsShown(b[0]);
      EscapesAreShown(b[1..]);
    }
  }

  lemma BytesAreLeft(c: CodePoint)
    ensures Unreserved(c) && !Marked(c) <==> Left(c)
    ensures Left(c) ==> Encode(c) == [c]
    ensures !Left(c) ==> forall i :: 0 <= i < |Encode(c)| ==> !Left(Encode(c)[i])
  {
  }

  lemma EncodedIsShown(c: CodePoint)
    ensures Encoded(c) == ShownAll(Encode(c))
  {
    hide Encode, EscapeAll, Unreserved, Marked;
    BytesAreLeft(c);
    if Left(c) { assert ShownAll([c]) == Shown(c) + ShownAll([]); } else { EscapesAreShown(Encode(c)); }
  }

  /** The extended value shows the bytes of the name one by one. */
  lemma {:induction false} ExtendedExactly(s: Name)
    ensures EscapeMarks(Pieces(s)) == ShownAll(Utf8(s))
  {
    hide EscapeMarks, Piece, Encoded, Encode, Shown;
    if s == [] {
      Empty();
    } else {
      MarksConcat(Piece(s[0]), Pieces(s[1..]));
      PieceIsEncoded(s[0]);
      EncodedIsShown(s[0]);
      ShownConcat(Encode(s[0]), Utf8(s[1..]));
      ExtendedExactly(s[1..]);
    }
  }

  // ---- the fallback ----

  function Ascii(c: CodePoint): CodePoint { if c < 0x20 || c > 0x7E || c == QUOTE || c == 92 then UNDERSCORE else c }

  function AsciiAll(s: Name): (t: Name)
    ensures |t| == |s| && forall i :: 0 <= i < |s| ==> t[i] == Ascii(s[i])
  {
    if s == [] then [] else [Ascii(s[0])] + AsciiAll(s[1..])
  }

  const ATTACHMENT: Name := [97, 116, 116, 97, 99, 104, 109, 101, 110, 116]

  function Fallback(decomposed: Name): (f: Name)
    ensures 0 < |f| <= 180
    ensures forall i :: 0 <= i < |f| ==> 0x20 <= f[i] <= 0x7E && f[i] != QUOTE
  {
    var t := AsciiAll(decomposed);
    var cut := if |t| <= 180 then t else t[..180];
    if cut == [] then ATTACHMENT else cut
  }

  // ---- the header ----

  /** `inline; filename="` and `attachment; filename="` */
  const INLINE_START: Name := [105, 110, 108, 105, 110, 101] + PARAMETER
  const ATTACHMENT_START: Name := ATTACHMENT + PARAMETER
  const PARAMETER: Name := [59, 32, 102, 105, 108, 101, 110, 97, 109, 101, 61, 34]

  /** `"; filename*=UTF-8''` */
  const MIDDLE: Name := [34, 59, 32, 102, 105, 108, 101, 110, 97, 109, 101, 42, 61, 85, 84, 70, 45, 56, 39, 39]

  function Start(disposition: Disposition): (t: Name)
    ensures 0 < |t| <= 22 && t[|t| - 1] == QUOTE
    ensures forall i :: 0 <= i < |t| - 1 ==> 0x20 <= t[i] <= 0x7E && t[i] != QUOTE
  {
    match disposition
    case Inline => INLINE_START
    case Attachment => ATTACHMENT_START
  }

  /** `decomposed` is the NFKD form of the name. */
  function AttachmentContentDisposition(disposition: Disposition, name: Name, decomposed: Name): Result<Name> {
    match EncodeUriComponent(name)
    case Failure => Failure
    case Success(component) => Success(Start(disposition) + Fallback(decomposed) + MIDDLE + EscapeMarks(component))
  }

  function WorkspaceFileDownload(name: Name, decomposed: Name): Result<Name> {
    match AttachmentContentDisposition(Attachment, name, decomposed)
    case Failure => Failure
    case Success(header) => if |header| > 2_048 then Failure else Success(header)
  }

  /**
   How a client reads the header: the disposition up to `;`, the fallback between quotes, then the extended value, with
   `; filename="` and `"; filename*=UTF-8''` as code units.
   */
  function ReadHeader(header: Name): Result<(Name, Name, Name)> {
    var s := FirstOf(header, 59);
    if s + 12 > |header| || header[s..s + 12] != [59, 32, 102, 105, 108, 101, 110, 97, 109, 101, 61, 34] then Failure
    else
      var rest := header[s + 12..];
      var j := FirstOf(rest, 34);
      if j + 20 > |rest|
         || rest[j..j + 20] != [34, 59, 32, 102, 105, 108, 101, 110, 97, 109, 101, 42, 61, 85, 84, 70, 45, 56, 39, 39]
      then Failure
      else Success((header[..s], rest[..j], rest[j + 20..]))
  }

  function FirstOf(t: Name, c: CodePoint): (i: nat)
    ensures i <= |t| && (i < |t| ==> t[i] == c) && forall j :: 0 <= j < i ==> t[j] != c
  {
    if t == [] || t[0] == c then 0 else 1 + FirstOf(t[1..], c)
  }

  /** `inline` or `attachment` */
  function Word(disposition: Disposition): Name {
    if disposition == Inline then [105, 110, 108, 105, 110, 101] else [97, 116, 116, 97, 99, 104, 109, 101, 110, 116]
  }

  lemma FirstOfAt(a: Name, c: CodePoint, b: Name)
    requires forall i :: 0 <= i < |a| ==> a[i] != c
    requires b != [] && b[0] == c
    ensures FirstOf(a + b, c) == |a|
  {
    assert (a + b)[|a|] == c;
    assert forall i :: 0 <= i < |a| ==> (a + b)[i] != c;
  }

  lemma StartIsWord(disposition: Disposition)
    ensures Start(disposition) ==
              Word(disposition) + [59, 32, 102, 105, 108, 101, 110, 97, 109, 101, 61, 34]
    ensures forall i :: 0 <= i < |Word(disposition)| ==> Word(disposition)[i] != 59
  {
  }

  lemma HeaderIsRead(disposition: Disposition, fallback: Name, extended: Name)
    requires forall i :: 0 <= i < |fallback| ==> fallback[i] != 34
    ensures ReadHeader(Start(disposition) + fallback + MIDDLE + extended) ==
              Success((Word(disposition), fallback, extended))
  {
    hide Start, FirstOf, Word;
    var word, equals := Word(disposition), [59, 32, 102, 105, 108, 101, 110, 97, 109, 101, 61, 34];
    var header, n := Start(disposition) + fallback + MIDDLE + extended, |word|;
    var rest := fallback + (MIDDLE + extended);
    StartIsWord(disposition);
    assert header == word + (equals + rest);
    FirstOfAt(word, 59, equals + rest);
    assert header[n..n + 12] == equals && header[n + 12..] == rest && header[..n] == word;
    FirstOfAt(fallback, 34, MIDDLE + extended);
    RestIsRead(fallback, extended);
  }

  lemma RestIsRead(fallback: Name, extended: Name)
    ensures var rest, n := fallback + (MIDDLE + extended), |fallback|;
            && |MIDDLE| == 20 && rest[..n] == fallback && rest[n + 20..] == extended
            && rest[n..n + 20] ==
               [34, 59, 32, 102, 105, 108, 101, 110, 97, 109, 101, 42, 61, 85, 84, 70, 45, 56, 39, 39]
  {
  }

  /** The fallback is the decomposed name with `_` for all but printable ASCII without quote and backslash, cut at 180. */
  lemma FallbackExactly(decomposed: Name)
    ensures var f := Fallback(decomposed);
            if decomposed == [] then f == [97, 116, 116, 97, 99, 104, 109, 101, 110, 116]
            else
              && |f| == (if |decomposed| <= 180 then |decomposed| else 180)
              && forall i :: 0 <= i < |f| ==>
                   f[i] == if 32 <= decomposed[i] <= 126 && decomposed[i] != 34 && decomposed[i] != 92
                           then decomposed[i] else 95
  {
  }

  /** Printable ASCII; the disposition, the quoted fallback and the extended value can be read, and that is the name. */
  ghost predicate Carries(header: Name, disposition: Disposition, fallback: Name, name: Name) {
    && (forall i :: 0 <= i < |header| ==> 0x20 <= header[i] <= 0x7E)
    && match ReadHeader(header) {
         case Failure => false
         case Success(read) =>
           && read.0 == Word(disposition) && read.1 == fallback && read.2 == ShownAll(Utf8(name)) && Plain(read.2)
           && PercentDecode(read.2) == Utf8(name) && FromUtf8(PercentDecode(read.2)) == name
       }
  }

  /** For every name without lone surrogates, whatever its NFKD form; the size is at most three characters for each
      byte of the name and 222 more. */
  lemma HeaderCarriesName(disposition: Disposition, name: Name, decomposed: Name)
    ensures AttachmentContentDisposition(disposition, name, decomposed).Success? <==> Scalars(name)
    ensures Scalars(name) ==>
      var header := AttachmentContentDisposition(disposition, name, decomposed).value;
      |header| <= 222 + 3 * |Utf8(name)| && Carries(header, disposition, Fallback(decomposed), name)
  {
    hide ReadHeader, PercentDecode, FromUtf8, EscapeMarks, Pieces, Start, Fallback, Utf8, ShownAll, Plain;
    if Scalars(name) {
      var extended, fallback := EscapeMarks(Pieces(name)), Fallback(decomposed);
      ExtendedIsPlain(name);
      ExtendedIsRead(name);
      ExtendedExactly(name);
      Utf8RoundTrip(name);
      HeaderIsRead(disposition, fallback, extended);
      HeaderIsPrintable(disposition, fallback, extended);
    }
  }

  lemma HeaderIsPrintable(disposition: Disposition, fallback: Name, extended: Name)
    requires (forall i :: 0 <= i < |fallback| ==> 0x20 <= fallback[i] <= 0x7E) && Plain(extended)
    ensures var header := Start(disposition) + fallback + MIDDLE + extended;
            forall i :: 0 <= i < |header| ==> 0x20 <= header[i] <= 0x7E
  {
    hide Start;
    var s := Start(disposition);
    assert forall i :: 0 <= i < |s| ==> 0x20 <= s[i] <= 0x7E;
    assert forall i :: 0 <= i < |MIDDLE| ==> 0x20 <= MIDDLE[i] <= 0x7E;
    assert forall i :: 0 <= i < |extended| ==> 0x20 <= extended[i] <= 0x7E;
  }

  /** The header of a page download never fails and stays below the clients' limit. */
  lemma PageHeaderFits(composed: Name, revision: int, decomposed: Name)
    requires 1 <= revision <= MAX_SAFE_INTEGER
    ensures FileName(composed, revision).Success?
    ensures var h := AttachmentContentDisposition(Attachment, FileName(composed, revision).value, decomposed);
            && h.Success? && |h.value| < 1_024
            && Carries(h.value, Attachment, Fallback(decomposed), FileName(composed, revision).value)
  {
    hide FileName, AttachmentContentDisposition, Carries;
    NameIsSafe(composed, revision);
    HeaderCarriesName(Attachment, FileName(composed, revision).value, decomposed);
  }

  /** The size check of a workspace download is there for names that no file system gives: up to 608 bytes pass. */
  lemma WorkspaceNameFits(name: Name, decomposed: Name)
    requires Scalars(name) && |Utf8(name)| <= 608
    ensures WorkspaceFileDownload(name, decomposed) == AttachmentContentDisposition(Attachment, name, decomposed)
    ensures WorkspaceFileDownload(name, decomposed).Success?
  {
    hide AttachmentContentDisposition, Utf8, Carries;
    HeaderCarriesName(Attachment, name, decomposed);
  }

  /** The download is refused exactly for a name with a lone surrogate and for a header of more than 2,048 bytes. */
  lemma WorkspaceRefusesExactly(name: Name, decomposed: Name)
    ensures WorkspaceFileDownload(name, decomposed).Failure? <==>
              !Scalars(name)
              || 12 + 10 + |Fallback(decomposed)| + 20 + |ShownAll(Utf8(name))| > 2_048
  {
    hide Utf8, ShownAll, Fallback, Pieces, EscapeMarks;
    if Scalars(name) { ExtendedExactly(name); }
  }
}
