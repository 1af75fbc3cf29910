/**
 Names of downloaded pages (src/shared/page-download.ts) and the Content-Disposition header
 (src/shared/downloads.ts, src/server/normalized-app.ts). Text is a sequence of code points here, because the
 program's loop and its regular expressions go by code points. Unicode normalization is given: the texts
 called `composed` and `decomposed` are the results of NFC and NFKD.
 */
module DownloadNames {

  type CodePoint = c: int | 0 <= c <= 0x10FFFF
  type Byte = b: int | 0 <= b < 256
  type Name = seq<CodePoint>

  datatype Result<T> = Success(value: T) | Failure

  const MAX_BYTES := 180
  const MAX_POINTS := 128
  const MAX_SAFE_INTEGER := 9_007_199_254_740_991

  predicate Surrogate(c: CodePoint) { 0xD800 <= c <= 0xDFFF }

  // ---- UTF-8 ----

  /** A lone surrogate is encoded as U+FFFD, as TextEncoder does. */
  function Encode(c: CodePoint): (b: seq<Byte>)
    ensures 1 <= |b| <= 4
  {
    if Surrogate(c) then [0xEF, 0xBF, 0xBD]
    else if c < 0x80 then [c]
    else if c < 0x800 then [0xC0 + c / 64, 0x80 + c % 64]
    else if c < 0x1_0000 then [0xE0 + c / 4096, 0x80 + c / 64 % 64, 0x80 + c % 64]
    else [0xF0 + c / 262144, 0x80 + c / 4096 % 64, 0x80 + c / 64 % 64, 0x80 + c % 64]
  }

  function Utf8(s: Name): seq<Byte> { if s == [] then [] else Encode(s[0]) + Utf8(s[1..]) }

  predicate Scalars(s: Name) { forall i :: 0 <= i < |s| ==> !Surrogate(s[i]) }

  lemma {:induction false} Utf8Concat(a: Name, b: Name)
    ensures Utf8(a + b) == Utf8(a) + Utf8(b)
  {
    hide Encode;
    if a == [] {
      assert a + b == b;
    } else {
      assert (a + b)[1..] == a[1..] + b;
      Utf8Concat(a[1..], b);
      assert Utf8(a + b) == Encode(a[0]) + (Utf8(a[1..]) + Utf8(b));
    }
  }

  /** The length that the first byte of a character announces. */
  function Announced(b: Byte): nat { if b < 0xC0 then 1 else if b < 0xE0 then 2 else if b < 0xF0 then 3 else 4 }

  function Value(b: seq<Byte>): int
    requires 1 <= |b| <= 4
  {
    if |b| == 1 then b[0]
    else if |b| == 2 then (b[0] as int - 0xC0) * 64 + (b[1] as int - 0x80)
    else if |b| == 3 then (b[0] as int - 0xE0) * 4096 + (b[1] as int - 0x80) * 64 + (b[2] as int - 0x80)
    else (b[0] as int - 0xF0) * 262144 + (b[1] as int - 0x80) * 4096 + (b[2] as int - 0x80) * 64 + (b[3] as int - 0x80)
  }

  /** A decoder that does not look at how the encoder works: first byte, announced length, value. */
  function FromUtf8(b: seq<Byte>): Name {
    if b == [] then []
    else
      var n := Announced(b[0]);
      if n > |b| || Value(b[..n]) < 0 || Value(b[..n]) > 0x10FFFF then []
      else [Value(b[..n])] + FromUtf8(b[n..])
  }

  lemma EncodeIsRead(c: CodePoint)
    requires !Surrogate(c)
    ensures Announced(Encode(c)[0]) == |Encode(c)| && Value(Encode(c)) == c
  {
    assert c / 64 == c / 4096 * 64 + c / 64 % 64;
    assert c / 4096 == c / 262144 * 64 + c / 4096 % 64;
  }

  lemma {:induction false} Utf8RoundTrip(s: Name)
    requires Scalars(s)
    ensures FromUtf8(Utf8(s)) == s
  {
    hide Encode, Value, Announced;
    if s != [] {
      var e := Encode(s[0]);
      EncodeIsRead(s[0]);
      var b := e + Utf8(s[1..]);
      assert b[..|e|] == e && b[|e|..] == Utf8(s[1..]);
      Utf8RoundTrip(s[1..]);
    }
  }

  // ---- the name of a page ----

  predicate Forbidden(c: CodePoint) {
    c <= 0x1F || 0x7F <= c <= 0x9F || 0x202A <= c <= 0x202E || 0x2066 <= c <= 0x2069 ||
    c == 34 || c == 42 || c == 47 || c == 58 || c == 60 || c == 62 || c == 63 || c == 92 || c == 124
  }

  const DASH: CodePoint := 45
  const DOT: CodePoint := 46

  /** `[.\s]` */
  predicate Blank(c: CodePoint) {
    c == DOT || 9 <= c <= 13 || c == 32 || c == 0xA0 || c == 0x1680 || 0x2000 <= c <= 0x200A ||
    c == 0x2028 || c == 0x2029 || c == 0x202F || c == 0x205F || c == 0x3000 || c == 0xFEFF
  }

  function Replaced(s: Name): (r: Name)
    ensures |r| == |s|
    ensures forall i :: 0 <= i < |s| ==> r[i] == if Forbidden(s[i]) then DASH else s[i]
  {
    if s == [] then [] else [if Forbidden(s[0]) then DASH else s[0]] + Replaced(s[1..])
  }

  function TrimStart(s: Name): (r: Name)
    ensures |r| <= |s| && r == s[|s| - |r|..]
    ensures r != [] ==> !Blank(r[0])
    ensures forall i :: 0 <= i < |s| - |r| ==> Blank(s[i])
  {
    if s != [] && Blank(s[0]) then TrimStart(s[1..]) else s
  }

  function TrimEnd(s: Name): (r: Name)
    ensures |r| <= |s| && r == s[..|r|]
    ensures r != [] ==> !Blank(r[|r| - 1])
    ensures forall i :: |r| <= i < |s| ==> Blank(s[i])
  {
    if s != [] && Blank(s[|s| - 1]) then TrimEnd(s[..|s| - 1]) else s
  }

  function Lower(c: CodePoint): CodePoint { if 65 <= c <= 90 then c + 32 else c }

  predicate StartsWith(s: Name, word: Name) {
    |s| >= |word| && forall i :: 0 <= i < |word| ==> Lower(s[i]) == word[i]
  }

  predicate DeviceDigit(c: CodePoint) { 49 <= c <= 57 || c == 0xB9 || c == 0xB2 || c == 0xB3 }

  const CON: Name := [99, 111, 110]
  const PRN: Name := [112, 114, 110]
  const AUX: Name := [97, 117, 120]
  const NUL: Name := [110, 117, 108]
  const COM: Name := [99, 111, 109]
  const LPT: Name := [108, 112, 116]

  /** How long the device name at the beginning is, 0 if there is none. */
  function DeviceLength(s: Name): nat {
    if StartsWith(s, CON) || StartsWith(s, PRN) || StartsWith(s, AUX) || StartsWith(s, NUL) then 3
    else if (StartsWith(s, COM) || StartsWith(s, LPT)) && |s| > 3 && DeviceDigit(s[3]) then 4
    else 0
  }

  /** Windows reserves a device name even when an extension follows it. */
  predicate Reserved(s: Name) {
    var n := DeviceLength(s);
    0 < n <= |s| && (|s| == n || s[n] == DOT)
  }

  const PAGE: Name := [112, 97, 103, 101]

  function Normalized(composed: Name): Name {
    var s := TrimEnd(TrimStart(Replaced(composed)));
    if Reserved(s) then PAGE + [DASH] + s else s
  }

  function Decimal(n: nat): (d: Name)
    ensures 1 <= |d| && forall i :: 0 <= i < |d| ==> 48 <= d[i] <= 57
  {
    if n < 10 then [48 + n] else Decimal(n / 10) + [48 + n % 10]
  }

  const HTML: Name := [46, 104, 116, 109, 108]

  function Suffix(revision: nat): Name { [DASH, 114] + Decimal(revision) + HTML }

  function Safe(c: CodePoint): CodePoint { if Surrogate(c) then DASH else c }

  /** What the loop takes: the characters that still fit. */
  function Fit(s: Name, bytes: nat, points: nat): Name {
    if s == [] then []
    else
      var c := Safe(s[0]);
      if bytes + |Encode(c)| > MAX_BYTES || points >= MAX_POINTS then []
      else [c] + Fit(s[1..], bytes + |Encode(c)|, points + 1)
  }

  function Stem(composed: Name, suffix: Name): Name {
    var stem := TrimEnd(Fit(Normalized(composed), |suffix|, |suffix|));
    if stem == [] then PAGE else stem
  }

  function FileName(composed: Name, revision: int): Result<Name> {
    if 1 <= revision <= MAX_SAFE_INTEGER then Success(Stem(composed, Suffix(revision)) + Suffix(revision))
    else Failure
  }

  lemma FitSteps(s: Name, i: nat, bytes: nat, points: nat)
    requires i <= |s|
    ensures i == |s| ==> Fit(s[i..], bytes, points) == []
    ensures i < |s| ==>
      var c := Safe(s[i]);
      Fit(s[i..], bytes, points) == if bytes + |Encode(c)| > MAX_BYTES || points >= MAX_POINTS then []
                                    else [c] + Fit(s[i + 1..], bytes + |Encode(c)|, points + 1)
  {
    hide Encode;
    if i < |s| { assert s[i..][1..] == s[i + 1..]; }
  }

  /** The loop of `pageDownloadFileName`. */
  method TakeFitting(normalized: Name, suffix: Name) returns (basename: Name)
    ensures basename == Fit(normalized, |suffix|, |suffix|)
  {
    hide Fit, Encode;
    var bytes: nat, codePoints: nat, i: nat := |suffix|, |suffix|, 0;
    basename := [];
    assert normalized[0..] == normalized;
    while i < |normalized|
      invariant 0 <= i <= |normalized|
      invariant basename + Fit(normalized[i..], bytes, codePoints) == Fit(normalized, |suffix|, |suffix|)
    {
      var c := Safe(normalized[i]);
      var size := |Encode(c)|;
      FitSteps(normalized, i, bytes, codePoints);
      if bytes + size > MAX_BYTES || codePoints >= MAX_POINTS {
        return;
      }
      basename, bytes, codePoints, i := basename + [c], bytes + size, codePoints + 1, i + 1;
    }
    FitSteps(normalized, i, bytes, codePoints);
  }

  /** `pageDownloadFileName` */
  method PageDownloadFileName(composed: Name, revision: int) returns (r: Result<Name>)
    ensures r == FileName(composed, revision)
  {
    hide Fit, Reserved, Suffix, Blank, Forbidden;
    if revision < 1 || revision > MAX_SAFE_INTEGER {
      return Failure;
    }
    var suffix := Suffix(revision);
    var normalized := TrimEnd(TrimStart(Replaced(composed)));
    if Reserved(normalized) {
      normalized := PAGE + [DASH] + normalized;
    }
    var basename := TakeFitting(normalized, suffix);
    basename := TrimEnd(basename);
    r := Success((if basename == [] then PAGE else basename) + suffix);
  }

  // ---- what the loop keeps ----

  lemma {:induction false} FitFits(s: Name, bytes: nat, points: nat)
    requires bytes <= MAX_BYTES && points <= MAX_POINTS
    ensures var f := Fit(s, bytes, points); bytes + |Utf8(f)| <= MAX_BYTES && points + |f| <= MAX_POINTS
  {
    hide Encode;
    if s != [] && bytes + |Encode(Safe(s[0]))| <= MAX_BYTES && points < MAX_POINTS {
      FitFits(s[1..], bytes + |Encode(Safe(s[0]))|, points + 1);
      assert Fit(s, bytes, points)[1..] == Fit(s[1..], bytes + |Encode(Safe(s[0]))|, points + 1);
    }
  }

  /** It is the beginning of the text with lone surrogates replaced, and no longer beginning fits. */
  lemma {:induction false} FitIsLongest(s: Name, bytes: nat, points: nat)
    ensures var f := Fit(s, bytes, points);
            && |f| <= |s| && (forall i :: 0 <= i < |f| ==> f[i] == Safe(s[i]))
            && (|f| < |s| ==> bytes + |Utf8(f + [Safe(s[|f|])])| > MAX_BYTES || points + |f| >= MAX_POINTS)
  {
    hide Encode;
    var f := Fit(s, bytes, points);
    if s == [] {
    } else if bytes + |Encode(Safe(s[0]))| > MAX_BYTES || points >= MAX_POINTS {
      assert f + [Safe(s[0])] == [Safe(s[0])];
      assert Utf8([Safe(s[0])]) == Encode(Safe(s[0])) + Utf8([]);
    } else {
      var rest := Fit(s[1..], bytes + |Encode(Safe(s[0]))|, points + 1);
      FitIsLongest(s[1..], bytes + |Encode(Safe(s[0]))|, points + 1);
      assert f == [Safe(s[0])] + rest;
      if |f| < |s| {
        assert s[1..][|rest|] == s[|f|];
        assert (f + [Safe(s[|f|])])[1..] == rest + [Safe(s[|f|])];
      }
    }
  }

  // ---- the suffix ----

  function Ten(k: nat): nat { if k == 0 then 1 else 10 * Ten(k - 1) }

  lemma {:induction false} DecimalIsShort(n: nat, k: nat)
    requires k >= 1 && n < Ten(k)
    ensures |Decimal(n)| <= k
  {
    if n >= 10 {
      assert k >= 2 && Ten(k) == 10 * Ten(k - 1);
      DecimalIsShort(n / 10, k - 1);
    }
  }

  lemma TenToSixteen()
    ensures MAX_SAFE_INTEGER < Ten(16)
  {
    assert Ten(4) == 10 * Ten(3) && Ten(3) == 10 * Ten(2) && Ten(2) == 10 * Ten(1) && Ten(1) == 10;
    assert Ten(8) == 10 * Ten(7) && Ten(7) == 10 * Ten(6) && Ten(6) == 10 * Ten(5) && Ten(5) == 10 * Ten(4);
    assert Ten(12) == 10 * Ten(11) && Ten(11) == 10 * Ten(10) && Ten(10) == 10 * Ten(9) && Ten(9) == 10 * Ten(8);
    assert Ten(16) == 10 * Ten(15) && Ten(15) == 10 * Ten(14) && Ten(14) == 10 * Ten(13) && Ten(13) == 10 * Ten(12);
  }

  function Read(d: Name): int { if d == [] then 0 else 10 * Read(d[..|d| - 1]) + d[|d| - 1] - 48 }

  lemma {:induction false} DecimalRoundTrip(n: nat)
    ensures Read(Decimal(n)) == n
  {
    if n < 10 {
      assert Decimal(n)[..0] == [];
    } else {
      DecimalRoundTrip(n / 10);
      assert Decimal(n)[..|Decimal(n)| - 1] == Decimal(n / 10);
    }
  }

  lemma SuffixIsShort(revision: nat)
    requires revision <= MAX_SAFE_INTEGER
    ensures 8 <= |Suffix(revision)| <= 23
  {
    TenToSixteen();
    DecimalIsShort(revision, 16);
  }

  lemma {:induction false} AsciiIsOneByte(s: Name)
    requires forall i :: 0 <= i < |s| ==> s[i] < 0x80
    ensures |Utf8(s)| == |s|
  {
    if s != [] { AsciiIsOneByte(s[1..]); }
  }

  lemma SuffixIsPlain(revision: nat)
    ensures forall i :: 0 <= i < |Suffix(revision)| ==>
              0x20 < Suffix(revision)[i] < 0x7F && !Forbidden(Suffix(revision)[i])
    ensures Suffix(revision)[0] == DASH
  {
    hide Decimal;
    var d := Decimal(revision);
    assert forall i :: 0 <= i < |d| ==> 48 <= d[i] <= 57;
  }

  // ---- what every name satisfies ----

  ghost predicate NoForbidden(s: Name) { forall i :: 0 <= i < |s| ==> !Forbidden(s[i]) }

  lemma TrimmedIsClean(composed: Name)
    ensures var s := TrimEnd(TrimStart(Replaced(composed))); NoForbidden(s) && (s == [] || !Blank(s[0]))
  {
    hide Blank, Forbidden, TrimStart, TrimEnd, Replaced;
    var r := Replaced(composed);
    DashIsFine();
    var a := TrimStart(r);
    var s := TrimEnd(a);
    forall i | 0 <= i < |s|
      ensures !Forbidden(s[i])
    {
      assert s[i] == a[i] && a[i] == r[|r| - |a| + i];
    }
    assert s != [] ==> s[0] == a[0];
  }

  lemma NormalizedIsClean(composed: Name)
    ensures var n := Normalized(composed); NoForbidden(n) && (n == [] || !Blank(n[0])) && !Reserved(n)
  {
    hide Blank, NoForbidden, Reserved, TrimStart, TrimEnd, Replaced;
    TrimmedIsClean(composed);
    var s := TrimEnd(TrimStart(Replaced(composed)));
    PageIsFine(s);
  }

  lemma DashIsFine()
    ensures !Forbidden(DASH) && !Blank(DASH) && !Surrogate(DASH)
  {
  }

  lemma PageIsFine(s: Name)
    requires NoForbidden(s)
    ensures NoForbidden(PAGE + [DASH] + s) && !Blank(PAGE[0]) && !Reserved(PAGE + [DASH] + s)
  {
    assert NoForbidden(PAGE + [DASH]);
    var t := PAGE + [DASH] + s;
    assert t[0] == 112 && t[1] == 97;
    assert PRN[1] == 114 && Lower(t[1]) == 97;
    assert CON[0] == 99 && AUX[0] == 97 && NUL[0] == 110 && COM[0] == 99 && LPT[0] == 108;
  }

  lemma StemShape(composed: Name, suffix: Name)
    ensures var f, stem := Fit(Normalized(composed), |suffix|, |suffix|), Stem(composed, suffix);
            && stem != [] && !Blank(stem[0]) && !Blank(stem[|stem| - 1])
            && (stem == PAGE || (|stem| <= |f| && stem == f[..|stem|]))
  {
    hide Fit, Normalized, Blank;
    var n, f := Normalized(composed), Fit(Normalized(composed), |suffix|, |suffix|);
    NormalizedIsClean(composed);
    FitIsLongest(n, |suffix|, |suffix|);
    DashIsFine();
    assert !Blank(PAGE[0]) && !Blank(PAGE[3]) by { PageIsNotBlank(); }
    var trimmed := TrimEnd(f);
    assert trimmed != [] ==> trimmed[0] == Safe(n[0]);
  }

  lemma PageIsNotBlank()
    ensures !Blank(PAGE[0]) && !Blank(PAGE[3])
  {
  }

  lemma StemIsClean(composed: Name, suffix: Name)
    ensures NoForbidden(Stem(composed, suffix)) && Scalars(Stem(composed, suffix))
  {
    hide Fit, Normalized, Forbidden, Stem, Blank;
    var n := Normalized(composed);
    NormalizedIsClean(composed);
    FitIsLongest(n, |suffix|, |suffix|);
    StemShape(composed, suffix);
    DashIsFine();
    assert NoForbidden(PAGE) by { PageIsFine([]); assert PAGE == (PAGE + [DASH] + [])[..4]; }
  }

  /** The cut and the suffix do not bring a device name back. */
  lemma CutIsNotReserved(n: Name, stem: Name, suffix: Name)
    requires !Reserved(n) && |suffix| >= 8 && suffix[0] == DASH
    requires |stem| <= |n| && forall i :: 0 <= i < |stem| ==> stem[i] == Safe(n[i])
    ensures !Reserved(stem + suffix)
  {
    var name := stem + suffix;
    var k := DeviceLength(name);
    if Reserved(name) {
      DeviceHasNoDash(name);
      assert name[|stem|] == DASH;
      assert |stem| > k;
      assert forall i :: 0 <= i <= k ==> name[i] == stem[i];
      SameDevice(name, n, k);
    }
  }

  lemma DeviceHasNoDash(s: Name)
    requires DeviceLength(s) > 0
    ensures DeviceLength(s) <= |s| && forall i :: 0 <= i < DeviceLength(s) ==> s[i] != DASH
  {
    assert forall i :: 0 <= i < 3 ==> CON[i] != DASH && PRN[i] != DASH && AUX[i] != DASH;
    assert forall i :: 0 <= i < 3 ==> NUL[i] != DASH && COM[i] != DASH && LPT[i] != DASH;
    forall i | 0 <= i < 3
      ensures s[i] != DASH
    {
      assert Lower(s[i]) != DASH;
    }
  }

  lemma SameDevice(s: Name, n: Name, k: nat)
    requires DeviceLength(s) == k > 0 && |s| > k && |n| > k && forall i :: 0 <= i <= k ==> s[i] == n[i]
    ensures DeviceLength(n) == k
  {
    assert |CON| == 3 && |PRN| == 3 && |AUX| == 3 && |NUL| == 3 && |COM| == 3 && |LPT| == 3;
    assert forall w: Name :: |w| == 3 ==> StartsWith(s, w) == StartsWith(n, w);
  }

  /** For every title and every safe revision. */
  lemma NameIsSafe(composed: Name, revision: int)
    requires 1 <= revision <= MAX_SAFE_INTEGER
    ensures FileName(composed, revision).Success?
    ensures var name := FileName(composed, revision).value;
            && |Utf8(name)| <= MAX_BYTES && |name| <= MAX_POINTS
            && NoForbidden(name) && Scalars(name) && !Blank(name[0]) && !Reserved(name)
  {
    hide Fit, Normalized, Forbidden, Stem, Blank, Suffix, Reserved, Encode;
    var suffix := Suffix(revision);
    var n, stem := Normalized(composed), Stem(composed, suffix);
    SuffixIsShort(revision);
    SuffixIsPlain(revision);
    StemShape(composed, suffix);
    StemIsClean(composed, suffix);
    NormalizedIsClean(composed);
    FitIsLongest(n, |suffix|, |suffix|);
    StemFits(composed, suffix);
    if stem == PAGE {
      PageSuffixIsFine(suffix);
    } else {
      CutIsNotReserved(n, stem, suffix);
    }
    Utf8Concat(stem, suffix);
    AsciiIsOneByte(suffix);
  }

  lemma PageSuffixIsFine(suffix: Name)
    requires suffix != [] && suffix[0] == DASH && NoForbidden(suffix)
    ensures !Reserved(PAGE + suffix)
  {
    PageIsFine(suffix[1..]);
    assert PAGE + [DASH] + suffix[1..] == PAGE + suffix;
  }

  lemma StemFits(composed: Name, suffix: Name)
    requires |suffix| <= 23
    ensures var stem := Stem(composed, suffix); |Utf8(stem)| + |suffix| <= MAX_BYTES && |stem| + |suffix| <= MAX_POINTS
  {
    hide Fit, Normalized, Stem, Encode;
    var f, stem := Fit(Normalized(composed), |suffix|, |suffix|), Stem(composed, suffix);
    FitFits(Normalized(composed), |suffix|, |suffix|);
    StemShape(composed, suffix);
    AsciiIsOneByte(PAGE);
    if stem != PAGE {
      assert f == stem + f[|stem|..];
      Utf8Concat(stem, f[|stem|..]);
    }
  }

  /** A title that needs no change and fits is kept as it is. */
  lemma GoodTitleIsKept(title: Name, revision: int)
    requires 1 <= revision <= MAX_SAFE_INTEGER
    requires title != [] && NoForbidden(title) && Scalars(title) && !Reserved(title)
    requires !Blank(title[0]) && !Blank(title[|title| - 1])
    requires |Utf8(title + Suffix(revision))| <= MAX_BYTES && |title + Suffix(revision)| <= MAX_POINTS
    ensures FileName(title, revision) == Success(title + Suffix(revision))
  {
    hide Fit, Forbidden, Blank, Suffix, Reserved, Encode;
    var suffix := Suffix(revision);
    assert Replaced(title) == title;
    assert TrimStart(title) == title && TrimEnd(title) == title;
    SuffixIsPlain(revision);
    Utf8Concat(title, suffix);
    AsciiIsOneByte(suffix);
    AllFits(title, |suffix|, |suffix|);
  }

  lemma {:induction false} AllFits(s: Name, bytes: nat, points: nat)
    requires Scalars(s) && bytes + |Utf8(s)| <= MAX_BYTES && points + |s| <= MAX_POINTS
    ensures Fit(s, bytes, points) == s
  {
    hide Encode;
    if s != [] {
      assert Safe(s[0]) == s[0];
      AllFits(s[1..], bytes + |Encode(s[0])|, points + 1);
    }
  }

  /** The revision can be read from the name: names of different revisions differ. */
  lemma RevisionIsReadable(a: Name, m: int, b: Name, n: int)
    requires FileName(a, m).Success? && FileName(a, m) == FileName(b, n)
    ensures m == n
  {
    hide Stem, Decimal;
    var s, t := Stem(a, Suffix(m)), Stem(b, Suffix(n));
    var d, e := Decimal(m), Decimal(n);
    var name := s + Suffix(m);
    assert name == s + [DASH, 114] + d + HTML && name == t + [DASH, 114] + e + HTML;
    assert forall i :: 0 <= i < |d| ==> 48 <= d[i] <= 57;
    assert forall i :: 0 <= i < |e| ==> 48 <= e[i] <= 57;
    var end := |name| - 5;
    assert name[end - |d| - 1] == 114 && name[end - |e| - 1] == 114;
    assert |d| == |e|;
    assert d == name[end - |d|..end] == e;
    DecimalRoundTrip(m);
    DecimalRoundTrip(n);
  }
}
