/**
 The name of a downloaded page from its title, told in code points and step by step without naming the functions that
 compute it (`pageDownloadFileName` of src/shared/page-download.ts).
 */
module NameText {
  import opened DownloadNames

  /** Control characters, directional marks, and `" * / : < > ? \ |`. */
  predicate Barred(c: CodePoint) {
    || 0 <= c <= 31 || 127 <= c <= 159 || 0x202A <= c <= 0x202E || 0x2066 <= c <= 0x2069
    || c in {34, 42, 47, 58, 60, 62, 63, 92, 124}
  }

  /** A dot or white space. */
  predicate Gap(c: CodePoint) {
    c == 46 || 9 <= c <= 13 || 0x2000 <= c <= 0x200A
    || c in {32, 160, 0x1680, 0x2028, 0x2029, 0x202F, 0x205F, 0x3000, 0xFEFF}
  }

  lemma ClassesExactly()
    ensures forall c: CodePoint :: Forbidden(c) <==> Barred(c)
    ensures forall c: CodePoint :: Blank(c) <==> Gap(c)
  {
  }

  /** What is left of `s` after `i` characters, without gaps at either end, and nothing but gaps is gone. */
  ghost predicate TrimmedAt(s: Name, r: Name, i: nat) {
    && i + |r| <= |s| && r == s[i..i + |r|]
    && (forall k :: 0 <= k < i || i + |r| <= k < |s| ==> Gap(s[k]))
    && (r != [] ==> !Gap(r[0]) && !Gap(r[|r| - 1]))
  }

  lemma StartTrimmed(s: Name)
    ensures var t := TrimStart(s);
            && |t| <= |s| && t == s[|s| - |t|..] && (forall i :: 0 <= i < |s| - |t| ==> Gap(s[i])) && (t != [] ==> !Gap(t[0]))
  {
    ClassesExactly();
    hide Blank, Gap;
  }

  lemma EndTrimmed(t: Name)
    ensures var r := TrimEnd(t);
            && |r| <= |t| && r == t[..|r|] && (forall i :: |r| <= i < |t| ==> Gap(t[i])) && (r != [] ==> !Gap(r[|r| - 1]))
  {
    ClassesExactly();
    hide Blank, Gap;
  }

  lemma SliceOfSlice(s: Name, i: nat, n: nat)
    requires i + n <= |s|
    ensures s[i..][..n] == s[i..i + n]
  {
  }

  lemma TrimsBothEnds(s: Name) returns (i: nat)
    ensures TrimmedAt(s, TrimEnd(TrimStart(s)), i)
  {
    StartTrimmed(s);
    var t := TrimStart(s);
    EndTrimmed(t);
    var r := TrimEnd(t);
    hide *;
    i := |s| - |t|;
    SliceOfSlice(s, i, |r|);
    Trimmed(s, t, r);
  }

  lemma Trimmed(s: Name, t: Name, r: Name)
    requires |t| <= |s| && t == s[|s| - |t|..] && forall i :: 0 <= i < |s| - |t| ==> Gap(s[i])
    requires t != [] ==> !Gap(t[0])
    requires |r| <= |t| && r == t[..|r|] && forall i :: |r| <= i < |t| ==> Gap(t[i])
    requires r != [] ==> !Gap(r[|r| - 1])
    ensures TrimmedAt(s, r, |s| - |t|)
  {
    hide Gap;
    var i := |s| - |t|;
    SliceOfSlice(s, i, |r|);
    forall k | 0 <= k < i || i + |r| <= k < |s|
      ensures Gap(s[k])
    {
      if k >= i { assert s[k] == t[k - i]; }
    }
  }

  /** Text in lower case, as far as it is Latin. */
  function Lowered(s: Name): Name {
    if s == [] then [] else [if 65 <= s[0] <= 90 then s[0] + 32 else s[0]] + Lowered(s[1..])
  }

  /** `con`, `prn`, `aux`, `nul`, and `com` and `lpt` with a digit from 1 to 9 or a raised one. */
  ghost predicate DeviceName(s: Name) {
    || s in {[99, 111, 110], [112, 114, 110], [97, 117, 120], [110, 117, 108]}
    || (|s| == 4 && s[..3] in {[99, 111, 109], [108, 112, 116]}
        && (49 <= s[3] <= 57 || s[3] == 0xB9 || s[3] == 0xB2 || s[3] == 0xB3))
  }

  /** A device name, alone or before a dot. */
  ghost predicate Taken(s: Name) {
    exists n: nat :: n <= |s| && DeviceName(Lowered(s[..n])) && (n == |s| || s[n] == 46)
  }

  lemma {:induction false} LoweredAt(s: Name)
    ensures |Lowered(s)| == |s|
    ensures forall i :: 0 <= i < |s| ==> Lowered(s)[i] == if 65 <= s[i] <= 90 then s[i] + 32 else s[i]
  {
    if s != [] { LoweredAt(s[1..]); }
  }

  lemma StartsExactly(s: Name, word: Name)
    ensures StartsWith(s, word) <==> |word| <= |s| && Lowered(s[..|word|]) == word
  {
    if |word| <= |s| {
      LoweredAt(s[..|word|]);
      assert forall i :: 0 <= i < |word| ==> s[..|word|][i] == s[i];
    }
  }

  lemma DevicePrefix(s: Name, n: nat)
    requires n <= |s|
    ensures DeviceName(Lowered(s[..n])) ==>
              (n == 3 && (StartsWith(s, CON) || StartsWith(s, PRN) || StartsWith(s, AUX) || StartsWith(s, NUL)))
              || (n == 4 && (StartsWith(s, COM) || StartsWith(s, LPT)) && DeviceDigit(s[3]))
  {
    hide StartsWith;
    LoweredAt(s[..n]);
    StartsExactly(s, CON);
    StartsExactly(s, PRN);
    StartsExactly(s, AUX);
    StartsExactly(s, NUL);
    StartsExactly(s, COM);
    StartsExactly(s, LPT);
    if n == 4 {
      LoweredAt(s[..3]);
      assert Lowered(s[..4])[..3] == Lowered(s[..3]);
    }
  }

  lemma DeviceFound(s: Name)
    ensures DeviceLength(s) > 0 ==> DeviceLength(s) <= |s| && DeviceName(Lowered(s[..DeviceLength(s)]))
  {
    StartsExactly(s, CON);
    StartsExactly(s, PRN);
    StartsExactly(s, AUX);
    StartsExactly(s, NUL);
    StartsExactly(s, COM);
    StartsExactly(s, LPT);
    if DeviceLength(s) == 4 {
      LoweredAt(s[..4]);
      LoweredAt(s[..3]);
      assert Lowered(s[..4])[..3] == Lowered(s[..3]);
    }
  }

  lemma TakenExactly(s: Name)
    ensures Reserved(s) <==> Taken(s)
  {
    hide DeviceName, Lowered;
    DeviceFound(s);
    if n: nat :| n <= |s| && DeviceName(Lowered(s[..n])) && (n == |s| || s[n] == 46) {
      DevicePrefix(s, n);
      OneLength(s, n);
    }
  }

  /** A text starts with at most one device name that ends there. */
  lemma OneLength(s: Name, n: nat)
    requires n <= |s|
    requires (n == 3 && (StartsWith(s, CON) || StartsWith(s, PRN) || StartsWith(s, AUX) || StartsWith(s, NUL)))
             || (n == 4 && (StartsWith(s, COM) || StartsWith(s, LPT)) && DeviceDigit(s[3]))
    ensures DeviceLength(s) == n
  {
    if n == 4 {
      assert COM[0] == 99 && COM[2] == 109 && LPT[0] == 108 && CON[2] == 110 && PRN[0] == 112 && AUX[0] == 97 && NUL[0] == 110;
      assert CON[0] == 99;
      assert Lower(s[0]) in {99, 108} && (Lower(s[0]) == 99 ==> Lower(s[2]) == 109);
    }
  }

  /** UTF-8 needs one byte up to U+007F, two up to U+07FF, three up to U+FFFF, and else four. */
  lemma SizesExactly(c: CodePoint)
    ensures |Encode(c)| == if c <= 0x7F then 1 else if c <= 0x7FF then 2 else if c <= 0xFFFF then 3 else 4
  {
  }

  function Written(n: nat): Name { if n < 10 then [48 + n] else Written(n / 10) + [48 + n % 10] }

  lemma {:induction false} DecimalIsWritten(n: nat)
    ensures Decimal(n) == Written(n)
  {
    if n >= 10 { DecimalIsWritten(n / 10); }
  }

  /** `-r`, the revision, and `.html` */
  function Ending(revision: nat): Name { [45, 114] + Written(revision) + [46, 104, 116, 109, 108] }

  /** A lone surrogate becomes a dash. */
  function Repaired(c: CodePoint): CodePoint { if 0xD800 <= c <= 0xDFFF then 45 else c }

  /** The longest beginning that, with the ending, has at most 180 bytes and 128 characters. */
  ghost predicate LongestBeginning(s: Name, kept: Name, ending: Name) {
    && |kept| <= |s| && (forall i :: 0 <= i < |kept| ==> kept[i] == Repaired(s[i]))
    && |Utf8(kept)| + |ending| <= 180 && |kept| + |ending| <= 128
    && (|kept| < |s| ==> |Utf8(kept + [Repaired(s[|kept|])])| + |ending| > 180 || |kept| + |ending| >= 128)
  }

  ghost predicate Dashed(s: Name, r: Name) {
    |r| == |s| && forall i :: 0 <= i < |s| ==> r[i] == if Barred(s[i]) then 45 else s[i]
  }

  /** The steps from a title to its stem. */
  datatype Steps = Steps(dashed: Name, start: nat, trimmed: Name, safe: Name, kept: Name, stem: Name)

  /**
   Barred characters become dashes, gaps at both ends go, a device name gets `page-` in front, what is too long is cut,
   gaps at the new end go, and nothing at all becomes `page`.
   */
  ghost predicate Derives(title: Name, ending: Name, s: Steps) {
    && Dashed(title, s.dashed)
    && TrimmedAt(s.dashed, s.trimmed, s.start)
    && s.safe == (if Taken(s.trimmed) then [112, 97, 103, 101, 45] + s.trimmed else s.trimmed)
    && LongestBeginning(s.safe, s.kept, ending)
    && s.stem <= s.kept && (forall i :: |s.stem| <= i < |s.kept| ==> Gap(s.kept[i]))
    && (s.stem != [] ==> !Gap(s.stem[|s.stem| - 1]))
  }

  lemma EndingIsSuffix(revision: nat)
    requires revision <= MAX_SAFE_INTEGER
    ensures Suffix(revision) == Ending(revision) && |Suffix(revision)| <= 23
  {
    DecimalIsWritten(revision);
    SuffixIsShort(revision);
  }

  lemma FitIsLongestBeginning(s: Name, ending: Name)
    requires |ending| <= 23
    ensures LongestBeginning(s, Fit(s, |ending|, |ending|), ending)
  {
    hide Fit, Utf8;
    FitIsLongest(s, |ending|, |ending|);
    FitFits(s, |ending|, |ending|);
  }

  lemma NormalizedExactly(title: Name) returns (dashed: Name, start: nat, trimmed: Name)
    ensures Dashed(title, dashed) && TrimmedAt(dashed, trimmed, start)
    ensures Normalized(title) == if Taken(trimmed) then [112, 97, 103, 101, 45] + trimmed else trimmed
  {
    hide Forbidden, Barred, TrimStart, TrimEnd, TrimmedAt, Taken, Reserved;
    ClassesExactly();
    dashed := Replaced(title);
    trimmed := TrimEnd(TrimStart(dashed));
    start := TrimsBothEnds(dashed);
    TakenExactly(trimmed);
    assert PAGE + [DASH] == [112, 97, 103, 101, 45];
  }

  lemma StemExactly(title: Name, ending: Name) returns (s: Steps)
    requires |ending| <= 23
    ensures Derives(title, ending, s)
    ensures Stem(title, ending) == if s.stem == [] then [112, 97, 103, 101] else s.stem
  {
    hide Dashed, TrimmedAt, Taken, LongestBeginning, Normalized, Fit, TrimEnd, Gap;
    var dashed, start, trimmed := NormalizedExactly(title);
    var safe := Normalized(title);
    var kept := Fit(safe, |ending|, |ending|);
    FitIsLongestBeginning(safe, ending);
    EndTrimmed(kept);
    s := Steps(dashed, start, trimmed, safe, kept, TrimEnd(kept));
  }

  /** For every title and revision the name is what those steps give, followed by the ending; other revisions fail. */
  lemma NameExactly(title: Name, revision: int) returns (s: Steps)
    ensures FileName(title, revision).Failure? <==> revision < 1 || revision > 9_007_199_254_740_991
    ensures 1 <= revision <= 9_007_199_254_740_991 ==>
              && Derives(title, Ending(revision), s)
              && FileName(title, revision) ==
                   Success((if s.stem == [] then [112, 97, 103, 101] else s.stem) + Ending(revision))
  {
    hide Derives, Ending, Stem, Suffix;
    s := Steps([], 0, [], [], [], []);
    if 1 <= revision <= 9_007_199_254_740_991 {
      EndingIsSuffix(revision);
      s := StemExactly(title, Ending(revision));
    }
  }
}
