/**
 The check of a reviewed schema change (scripts/codex-probes/reviewed-schema-delta.ts): two
 inventories of hashed files against a list of reviewed differences.
 */
module SchemaDelta {
  import opened Wrappers
  type Name = string
  type Hash = string

  /** A reviewed difference; a missing file has no hash. */
  datatype Change = Change(path: Name, baseline: Option<Hash>, candidate: Option<Hash>)

  datatype Review = Review(baselineFiles: nat, candidateFiles: nat, changes: seq<Change>)

  type Inventory = map<Name, Hash>

  predicate WellFormedHash(h: Option<Hash>) {
    h.Some? ==> |h.value| == 64 && forall i :: 0 <= i < 64 ==> '0' <= h.value[i] <= '9' || 'a' <= h.value[i] <= 'f'
  }

  function Lookup(m: Inventory, p: Name): Option<Hash> { if p in m then Some(m[p]) else None }

  function Apply(m: Inventory, c: Change): Inventory {
    if c.candidate.None? then m - {c.path} else m[c.path := c.candidate.value]
  }

  // ---- what a review has to say ----

  ghost predicate DistinctPaths(changes: seq<Change>) {
    forall i, j :: 0 <= i < j < |changes| ==> changes[i].path != changes[j].path
  }

  predicate Listed(changes: seq<Change>, p: Name) { exists i :: 0 <= i < |changes| && changes[i].path == p }

  /** The entry tells the hashes on both sides. */
  predicate Truthful(baseline: Inventory, candidate: Inventory, c: Change) {
    c.baseline == Lookup(baseline, c.path) && c.candidate == Lookup(candidate, c.path)
  }

  /** Exactly the files that differ are listed, once each, with their hashes. */
  ghost predicate Exact(baseline: Inventory, candidate: Inventory, changes: seq<Change>) {
    && DistinctPaths(changes)
    && (forall i :: 0 <= i < |changes| ==> Truthful(baseline, candidate, changes[i]))
    && (forall p :: Listed(changes, p) <==> Lookup(baseline, p) != Lookup(candidate, p))
  }

  ghost predicate Accepted(baseline: Inventory, candidate: Inventory, review: Review) {
    && |baseline| == review.baselineFiles && |candidate| == review.candidateFiles
    && (forall i :: 0 <= i < |review.changes| ==>
          WellFormedHash(review.changes[i].baseline) && WellFormedHash(review.changes[i].candidate))
    && Exact(baseline, candidate, review.changes)
  }

  // ---- the checker ----

  /** The expected inventory after the first changes: theirs where listed, the baseline elsewhere. */
  ghost predicate Replayed(baseline: Inventory, changes: seq<Change>, expected: Inventory) {
    && (forall i :: 0 <= i < |changes| ==> Lookup(expected, changes[i].path) == changes[i].candidate)
    && (forall p :: !Listed(changes, p) ==> Lookup(expected, p) == Lookup(baseline, p))
  }

  /** What the loop has established about the changes it has seen. */
  ghost predicate Seen(baseline: Inventory, changes: seq<Change>) {
    && DistinctPaths(changes)
    && forall i :: 0 <= i < |changes| ==>
         && changes[i].baseline == Lookup(baseline, changes[i].path) && changes[i].baseline != changes[i].candidate
         && WellFormedHash(changes[i].baseline) && WellFormedHash(changes[i].candidate)
  }

  method Verify(baseline: Inventory, candidate: Inventory, review: Review) returns (ok: bool)
    ensures ok <==> Accepted(baseline, candidate, review)
  {
    if |baseline| != review.baselineFiles || |candidate| != review.candidateFiles { return false; }
    hide WellFormedHash;
    var expected, reviewed := baseline, {};
    var changes := review.changes;
    var i := 0;
    while i < |changes|
      invariant 0 <= i <= |changes|
      invariant Seen(baseline, changes[..i]) && Replayed(baseline, changes[..i], expected)
      invariant forall p :: p in reviewed <==> Listed(changes[..i], p)
    {
      var change := changes[i];
      NextChange(baseline, changes, i, expected);
      if change.path in reviewed
         || !WellFormedHash(change.baseline) || !WellFormedHash(change.candidate)
         || change.baseline == change.candidate
         || Lookup(expected, change.path) != change.baseline {
        RefusedHere(baseline, candidate, review, i);
        return false;
      }
      reviewed := reviewed + {change.path};
      expected := Apply(expected, change);
      i := i + 1;
    }
    assert changes[..i] == changes;
    ok := candidate.Keys == expected.Keys && forall p :: p in candidate ==> candidate[p] == expected[p];
    assert ok <==> candidate == expected;
    ReplayedDecides(baseline, candidate, changes, expected);
  }

  lemma ListedSnoc(changes: seq<Change>, i: nat, p: Name)
    requires i < |changes|
    ensures Listed(changes[..i + 1], p) <==> Listed(changes[..i], p) || changes[i].path == p
  {
    var a, b := changes[..i + 1], changes[..i];
    if Listed(b, p) {
      var j :| 0 <= j < |b| && b[j].path == p;
      assert a[j] == b[j];
    }
    if changes[i].path == p { assert a[i].path == p; }
    if Listed(a, p) {
      var j :| 0 <= j < |a| && a[j].path == p;
      assert j < i ==> b[j] == a[j];
    }
  }

  /** What one more change does to the invariant. */
  lemma NextChange(baseline: Inventory, changes: seq<Change>, i: nat, expected: Inventory)
    requires i < |changes| && Seen(baseline, changes[..i]) && Replayed(baseline, changes[..i], expected)
    ensures forall p :: Listed(changes[..i + 1], p) <==> Listed(changes[..i], p) || changes[i].path == p
    ensures !Listed(changes[..i], changes[i].path) ==>
              && Lookup(expected, changes[i].path) == Lookup(baseline, changes[i].path)
              && DistinctPaths(changes[..i + 1])
              && Replayed(baseline, changes[..i + 1], Apply(expected, changes[i]))
    ensures var c := changes[i];
            && !Listed(changes[..i], c.path) && c.baseline == Lookup(baseline, c.path)
            && c.baseline != c.candidate && WellFormedHash(c.baseline) && WellFormedHash(c.candidate)
            ==> Seen(baseline, changes[..i + 1])
  {
    hide WellFormedHash, Replayed, Apply, Lookup;
    var c, before, after := changes[i], changes[..i], changes[..i + 1];
    forall p ensures Listed(after, p) <==> Listed(before, p) || c.path == p {
      ListedSnoc(changes, i, p);
    }
    assert forall j :: 0 <= j < i ==> after[j] == before[j] == changes[j];
    if !Listed(before, c.path) {
      forall j | 0 <= j < i ensures after[j].path != c.path {
        assert before[j].path == after[j].path;
      }
      ReplayNext(baseline, changes, i, expected);
    }
  }

  lemma ReplayNext(baseline: Inventory, changes: seq<Change>, i: nat, expected: Inventory)
    requires i < |changes| && Replayed(baseline, changes[..i], expected)
    requires !Listed(changes[..i], changes[i].path)
    ensures Lookup(expected, changes[i].path) == Lookup(baseline, changes[i].path)
    ensures Replayed(baseline, changes[..i + 1], Apply(expected, changes[i]))
  {
    var c, before, after := changes[i], changes[..i], changes[..i + 1];
    forall p ensures Listed(after, p) <==> Listed(before, p) || c.path == p {
      ListedSnoc(changes, i, p);
    }
    assert forall j :: 0 <= j < i ==> after[j] == before[j] == changes[j];
    forall j | 0 <= j < i ensures after[j].path != c.path {
      assert before[j].path == after[j].path;
    }
    var next := Apply(expected, c);
    forall p | p != c.path ensures Lookup(next, p) == Lookup(expected, p) {
    }
  }

  /** A change that the loop refuses is one that no accepted review contains. */
  lemma RefusedHere(baseline: Inventory, candidate: Inventory, review: Review, i: nat)
    requires i < |review.changes|
    requires var c := review.changes[i];
             || Listed(review.changes[..i], c.path)
             || !WellFormedHash(c.baseline) || !WellFormedHash(c.candidate)
             || c.baseline == c.candidate || Lookup(baseline, c.path) != c.baseline
    ensures !Accepted(baseline, candidate, review)
  {
    hide WellFormedHash;
    var changes, c := review.changes, review.changes[i];
    assert Listed(changes, c.path);
    assert forall j :: 0 <= j < i ==> changes[..i][j] == changes[j];
    assert Accepted(baseline, candidate, review) ==> Truthful(baseline, candidate, c);
  }

  /** At the end the candidate is the expected inventory exactly when the review is exact. */
  lemma ReplayedDecides(baseline: Inventory, candidate: Inventory, changes: seq<Change>, expected: Inventory)
    requires Seen(baseline, changes) && Replayed(baseline, changes, expected)
    ensures candidate == expected <==> Exact(baseline, candidate, changes)
  {
    hide WellFormedHash;
    if candidate == expected {
      forall i | 0 <= i < |changes| ensures Truthful(baseline, candidate, changes[i]) {
      }
      forall p ensures Listed(changes, p) <==> Lookup(baseline, p) != Lookup(candidate, p) {
        if Listed(changes, p) {
          var i :| 0 <= i < |changes| && changes[i].path == p;
        }
      }
    }
    if Exact(baseline, candidate, changes) {
      forall p ensures Lookup(candidate, p) == Lookup(expected, p) {
        if Listed(changes, p) {
          var i :| 0 <= i < |changes| && changes[i].path == p;
          assert Truthful(baseline, candidate, changes[i]);
        }
      }
      SameLookups(candidate, expected);
    }
  }

  lemma SameLookups(a: Inventory, b: Inventory)
    requires forall p :: Lookup(a, p) == Lookup(b, p)
    ensures a == b
  {
    assert forall p :: p in a ==> Lookup(a, p) == Some(a[p]) && Lookup(b, p) == Some(a[p]);
    assert forall p :: p in b ==> Lookup(a, p) == Lookup(b, p) == Some(b[p]);
    assert a.Keys == b.Keys;
  }

  // ---- order and direction ----

  /** The verdict does not depend on the order of the entries. */
  lemma OrderDoesNotMatter(baseline: Inventory, candidate: Inventory, review: Review, other: Review)
    requires other.baselineFiles == review.baselineFiles && other.candidateFiles == review.candidateFiles
    requires multiset(review.changes) == multiset(other.changes)
    ensures Accepted(baseline, candidate, review) <==> Accepted(baseline, candidate, other)
  {
    if Accepted(baseline, candidate, review) { PermutedAccepted(baseline, candidate, review, other); }
    if Accepted(baseline, candidate, other) { PermutedAccepted(baseline, candidate, other, review); }
  }

  lemma PermutedAccepted(baseline: Inventory, candidate: Inventory, review: Review, other: Review)
    requires other.baselineFiles == review.baselineFiles && other.candidateFiles == review.candidateFiles
    requires multiset(review.changes) == multiset(other.changes) && Accepted(baseline, candidate, review)
    ensures Accepted(baseline, candidate, other)
  {
    hide WellFormedHash, Lookup, Listed, DistinctPaths;
    var a, b := review.changes, other.changes;
    SameEntries(a, b);
    SameEntries(b, a);
    assert forall c :: c in a ==>
      Truthful(baseline, candidate, c) && WellFormedHash(c.baseline) && WellFormedHash(c.candidate);
    forall p ensures Listed(b, p) <==> Listed(a, p) {
      ListedPermuted(a, b, p);
    }
    DistinctPermuted(a, b);
  }

  lemma SameEntries(a: seq<Change>, b: seq<Change>)
    requires multiset(a) == multiset(b)
    ensures forall i :: 0 <= i < |b| ==> b[i] in a
  {
    forall i | 0 <= i < |b| ensures b[i] in a {
      assert b[i] in multiset(b);
    }
  }

  lemma ListedPermuted(a: seq<Change>, b: seq<Change>, p: Name)
    requires forall i :: 0 <= i < |b| ==> b[i] in a
    requires forall i :: 0 <= i < |a| ==> a[i] in b
    ensures Listed(b, p) <==> Listed(a, p)
  {
    if i :| 0 <= i < |b| && b[i].path == p {
      var j :| 0 <= j < |a| && a[j] == b[i];
    }
    if i :| 0 <= i < |a| && a[i].path == p {
      var j :| 0 <= j < |b| && b[j] == a[i];
    }
  }

  lemma DistinctPermuted(a: seq<Change>, b: seq<Change>)
    requires multiset(a) == multiset(b) && DistinctPaths(a)
    ensures DistinctPaths(b)
  {
    forall i, j | 0 <= i < j < |b| ensures b[i].path != b[j].path {
      OnceEach(a, b, i, j);
    }
  }

  /** Distinct paths mean distinct entries, however they are ordered. */
  lemma OnceEach(a: seq<Change>, b: seq<Change>, i: nat, j: nat)
    requires multiset(a) == multiset(b) && DistinctPaths(a) && i < j < |b|
    ensures b[i].path != b[j].path
  {
    assert b[i] in multiset(b) && b[j] in multiset(b);
    var k :| 0 <= k < |a| && a[k] == b[i];
    var l :| 0 <= l < |a| && a[l] == b[j];
    if k == l {
      TwoOccurrences(b, i, j);
      OneOccurrence(a, k);
      assert false;
    }
  }

  lemma TwoOccurrences(b: seq<Change>, i: nat, j: nat)
    requires i < j < |b| && b[i] == b[j]
    ensures multiset(b)[b[i]] >= 2
  {
    assert b == b[..i] + [b[i]] + b[i + 1..j] + [b[j]] + b[j + 1..];
  }

  lemma OneOccurrence(a: seq<Change>, k: nat)
    requires k < |a| && DistinctPaths(a)
    ensures multiset(a)[a[k]] == 1
  {
    var before, after := a[..k], a[k + 1..];
    assert a == before + [a[k]] + after;
    assert forall i :: 0 <= i < |before| ==> before[i] == a[i];
    assert forall i :: 0 <= i < |after| ==> after[i] == a[k + 1 + i];
    assert a[k] !in before && a[k] !in after;
  }

  function Reversed(c: Change): Change { Change(c.path, c.candidate, c.baseline) }

  ghost function ReversedReview(review: Review): Review {
    Review(review.candidateFiles, review.baselineFiles,
           seq(|review.changes|, i requires 0 <= i < |review.changes| => Reversed(review.changes[i])))
  }

  /** The reversed review is accepted for the reversed change. */
  lemma ReversalIsAccepted(baseline: Inventory, candidate: Inventory, review: Review)
    ensures Accepted(candidate, baseline, ReversedReview(review)) <==> Accepted(baseline, candidate, review)
  {
    hide WellFormedHash, Lookup;
    var a, b := review.changes, ReversedReview(review).changes;
    forall p ensures Listed(b, p) <==> Listed(a, p) {
      if Listed(b, p) {
        var i :| 0 <= i < |b| && b[i].path == p;
        assert a[i].path == p;
      }
      if Listed(a, p) {
        var i :| 0 <= i < |a| && a[i].path == p;
        assert b[i].path == p;
      }
    }
    assert forall i :: 0 <= i < |a| ==> Truthful(candidate, baseline, b[i]) == Truthful(baseline, candidate, a[i]);
    assert DistinctPaths(a) <==> DistinctPaths(b);
  }

  // ---- what a hash is ----

  type Digest = d: seq<int> | forall i :: 0 <= i < |d| ==> 0 <= d[i] < 256

  function HexPair(b: int): (h: Hash)
    requires 0 <= b < 256
    ensures |h| == 2
  {
    ["0123456789abcdef"[b / 16], "0123456789abcdef"[b % 16]]
  }

  function HexOf(d: Digest): Hash { if d == [] then "" else HexPair(d[0]) + HexOf(d[1..]) }

  predicate HexDigit(c: char) { '0' <= c <= '9' || 'a' <= c <= 'f' }

  function HexValue(c: char): (n: int)
    requires HexDigit(c)
    ensures 0 <= n < 16 && "0123456789abcdef"[n] == c
  {
    if c <= '9' then c as int - 48 else c as int - 87
  }

  lemma {:induction false} HexIsDigits(d: Digest)
    ensures |HexOf(d)| == 2 * |d| && forall i :: 0 <= i < 2 * |d| ==> HexDigit(HexOf(d)[i])
  {
    if d != [] {
      assert forall n :: 0 <= n < 16 ==> HexDigit("0123456789abcdef"[n]);
      assert HexDigit(HexPair(d[0])[0]) && HexDigit(HexPair(d[0])[1]);
      hide HexDigit, HexPair;
      HexIsDigits(d[1..]);
    }
  }

  lemma PairOf(h: Hash) returns (b: int)
    requires |h| == 2 && HexDigit(h[0]) && HexDigit(h[1])
    ensures 0 <= b < 256 && HexPair(b) == h
  {
    var m, n := HexValue(h[0]), HexValue(h[1]);
    b := m * 16 + n;
    assert b / 16 == m && b % 16 == n;
  }

  lemma {:induction false} DigitsAreHex(h: Hash) returns (d: Digest)
    requires |h| % 2 == 0 && forall i :: 0 <= i < |h| ==> HexDigit(h[i])
    ensures 2 * |d| == |h| && HexOf(d) == h
  {
    hide HexPair, HexDigit;
    d := [];
    if h != [] {
      var rest := DigitsAreHex(h[2..]);
      var b := PairOf(h[..2]);
      d := [b] + rest;
      assert d[1..] == rest && h == [h[0], h[1]] + h[2..];
    }
  }

  /** A present hash is well formed exactly if it writes 32 bytes in lower-case hexadecimal. */
  lemma HashIsDigest(h: Hash)
    ensures WellFormedHash(None)
    ensures WellFormedHash(Some(h)) <==> exists d: Digest :: |d| == 32 && HexOf(d) == h
  {
    hide HexOf;
    if WellFormedHash(Some(h)) { var d := DigitsAreHex(h); }
    if d: Digest :| |d| == 32 && HexOf(d) == h { HexIsDigits(d); }
  }
}
