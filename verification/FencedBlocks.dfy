/**
 Reference blocks among other text (`splitThreadReferenceText` of src/shared/thread-references.ts): a block after a
 closed code fence is taken, one after a fence that is still open stays, in terms of the lines themselves.
 */
module FencedBlocks {
  import opened Wrappers
  import opened Utf16
  import opened CodeFences
  import opened FenceText
  import opened ThreadReferences
  import opened ReferenceSplit

  // ---- the fence that is open where a text ends ----

  lemma {:induction false} StillInside(value: Text, p: nat, stop: nat, r: nat, f: Fence)
    requires f.Fence? && p <= r <= stop <= |value| && (p == 0 || Breaks(value[p - 1])) && (r == 0 || Breaks(value[r - 1]))
    requires forall s: nat, e: nat :: p <= s < r && LineIs(value, s, e) ==> !ClosesWith(value[s..e], f.character, f.length)
    ensures FenceAt(value, p, stop, f) == FenceAt(value, r, stop, f)
    decreases r - p
  {
    hide MarkerOf, ClosesWith;
    if p < r {
      StopIsLine(value, p);
      var e := LineStop(value, p);
      LineIsStop(value, p, e);
      ClosesIsMarker(value[p..e], f.character, f.length);
      LineBefore(value, p, e, r);
      StillInside(value, e + 1, stop, r, f);
    }
  }

  lemma OpensHere(value: Text, p: nat, open: nat, stop: nat, c: Unit, n: nat)
    requires LineIs(value, p, open) && open < stop <= |value| && OpensWith(value[p..open], c, n)
    ensures FenceAt(value, p, stop, NoFence) == FenceAt(value, open + 1, stop, Fence(c, n, p))
  {
    hide MarkerOf, OpensWith;
    LineIsStop(value, p, open);
    OpensIsMarker(value[p..open], c, n);
  }

  lemma ClosesHere(value: Text, r: nat, q: nat, stop: nat, f: Fence)
    requires LineIs(value, r, q) && q < stop <= |value| && f.Fence? && ClosesWith(value[r..q], f.character, f.length)
    ensures FenceAt(value, r, stop, f) == FenceAt(value, q + 1, stop, NoFence)
  {
    hide MarkerOf, ClosesWith;
    LineIsStop(value, r, q);
    ClosesIsMarker(value[r..q], f.character, f.length);
  }

  /** Lines that open no fence leave none open. */
  lemma {:induction false} OrdinaryLines(value: Text, p: nat, stop: nat)
    requires p <= stop <= |value| && (p == 0 || Breaks(value[p - 1])) && (stop == 0 || Breaks(value[stop - 1]))
    requires forall s: nat, e: nat :: p <= s && e < stop && LineIs(value, s, e) ==> Ordinary(value[s..e])
    ensures FenceAt(value, p, stop, NoFence) == NoFence
    decreases stop - p
  {
    hide MarkerOf, Ordinary;
    if p < stop {
      StopIsLine(value, p);
      var e := LineStop(value, p);
      LineIsStop(value, p, e);
      LineBefore(value, p, e, stop);
      OrdinaryHasNoMarker(value[p..e]);
      OrdinaryLines(value, e + 1, stop);
    }
  }

  /** A fence that opens with the line at 0, closes with the line `r..q`, and only ordinary lines after it. */
  ghost predicate ClosedBefore(before: Text, open: nat, r: nat, q: nat, c: Unit, n: nat) {
    && LineIs(before, 0, open) && LineIs(before, r, q) && open < r && q < |before|
    && OpensWith(before[..open], c, n) && StaysOpen(before, open, r, c, n) && ClosesWith(before[r..q], c, n)
    && forall s: nat, e: nat :: q < s && e < |before| && LineIs(before, s, e) ==> Ordinary(before[s..e])
  }

  /** A fence that opens with the line at 0, and no line that closes it. */
  ghost predicate OpenBefore(before: Text, open: nat, c: Unit, n: nat) {
    && LineIs(before, 0, open) && open < |before|
    && OpensWith(before[..open], c, n) && StaysOpen(before, open, |before|, c, n)
  }

  lemma ClosedIsClosed(before: Text, open: nat, r: nat, q: nat, c: Unit, n: nat)
    requires ClosedBefore(before, open, r, q, c, n) && Breaks(before[|before| - 1])
    ensures FenceAt(before, 0, |before|, NoFence) == NoFence
  {
    hide OpensWith, ClosesWith, FenceAt, Ordinary;
    assert before[0..open] == before[..open];
    OpensHere(before, 0, open, |before|, c, n);
    StillInside(before, open + 1, |before|, r, Fence(c, n, 0));
    ClosesHere(before, r, q, |before|, Fence(c, n, 0));
    OrdinaryLines(before, q + 1, |before|);
  }

  lemma OpenIsOpen(before: Text, open: nat, c: Unit, n: nat)
    requires OpenBefore(before, open, c, n) && Breaks(before[|before| - 1])
    ensures FenceAt(before, 0, |before|, NoFence) == Fence(c, n, 0)
  {
    hide OpensWith, ClosesWith, MarkerOf;
    assert before[0..open] == before[..open];
    OpensHere(before, 0, open, |before|, c, n);
    StillInside(before, open + 1, |before|, |before|, Fence(c, n, 0));
  }

  // ---- a block between two texts ----

  /** Up to the block nothing is the header, so everything is kept. */
  lemma {:induction false} ScanBefore(header: HeaderText, value: Text, o: nat, stop: nat, refs: RefMap, ranges: seq<Range>)
    requires o <= stop <= |value|
    requires forall i :: o <= i < stop && LineStart(value, i) ==> !LeadAt(header, value, i)
    ensures Scan(header, value, o, refs, ranges) ==
              Prepend(value[o..stop], Scan(header, value, stop, refs, ranges))
    decreases stop - o
  {
    hide Decide, LeadAt, LineStart, Merge, Scan;
    var rest := Scan(header, value, stop, refs, ranges);
    if o == stop {
      assert [] + rest.text == rest.text;
    } else {
      PlainHere(header, value, o, refs, ranges);
      ScanStep(header, value, o, refs, ranges);
      ScanBefore(header, value, o + 1, stop, refs, ranges);
      assert value[o..o + 1] + (value[o + 1..stop] + rest.text) == value[o..stop] + rest.text;
    }
  }

  /** A paragraph ends before the block. */
  predicate EndsParagraph(before: Text) { before == [] || (|before| >= 2 && before[|before| - 2..] == [10, 10]) }

  /** Header lines lie on one side of an empty line or the other. */
  lemma LeadStaysBefore(header: HeaderText, before: Text, after: Text, i: nat)
    requires EndsParagraph(before) && i < |before| && LeadAt(header, before + after, i)
    ensures LeadAt(header, before, i)
  {
    var value, lead := before + after, Lead(header);
    assert forall k :: 0 <= k < |lead| ==> value[i + k] == value[i..][k] == lead[k];
    assert before[|before| - 2..][1] == before[|before| - 1];
    assert forall k :: 0 <= k < |header| ==> lead[k] == header[k] >= 32;
    assert value[i + (|before| - 1 - i)] == 10;
    assert i + |lead| <= |before|;
    assert before[i..] == value[i..|before|];
    assert value[i..][..|lead|] == before[i..][..|lead|];
  }

  /**
   A block that starts a paragraph, between texts without a header line: outside every fence it is taken out and its
   references are the result; inside one the whole text stays.
   */
  lemma BlockInText(header: HeaderText, before: Text, refs: seq<Reference>, after: Text)
    requires ValidBlock(refs) && EndsParagraph(before) && NoLead(header, before) && NoLead(header, after)
    ensures SplitText(header, before + BlockText(header, refs) + after) ==
              if FenceAt(before, 0, |before|, NoFence).NoFence? then Split(before + after, FromBlock(refs))
              else Split(before + BlockText(header, refs) + after, EMPTY)
  {
    hide *;
    var block := BlockText(header, refs);
    UpToBlock(header, before, block, after);
    AtBlock(header, before, refs, after);
    if FenceAt(before, 0, |before|, NoFence).NoFence? {
      AfterBlock(header, before, block, after, FromBlock(refs));
      PrependSplit(before, after, FromBlock(refs));
    } else {
      AfterBlock(header, before, block, after, EMPTY);
      PrependSplit(block, after, EMPTY);
      PrependSplit(before, block + after, EMPTY);
      assert before + (block + after) == before + block + after;
    }
  }

  lemma PrependSplit(kept: Text, text: Text, m: RefMap)
    ensures Prepend(kept, Split(text, m)) == Split(kept + text, m)
  {
  }

  /** The scan from the block on. */
  ghost function BlockAt(header: HeaderText, before: Text, block: Text, after: Text, o: nat, m: RefMap): Split
    requires o <= |before + block + after|
  {
    Scan(header, before + block + after, o, m, Ranges(before + block + after, 0, NoFence))
  }

  lemma AfterBlock(header: HeaderText, before: Text, block: Text, after: Text, m: RefMap)
    requires NoLead(header, after)
    ensures BlockAt(header, before, block, after, |before + block|, m) == Split(after, m)
  {
    hide Scan, Ranges, NoLead, NoLeadFrom;
    NoLeadHere(header, before + block, after);
    var value := before + block + after;
    ScanPlain(header, value, |before + block|, m, Ranges(value, 0, NoFence));
    assert value[|before + block|..] == after;
  }

  lemma AtBlock(header: HeaderText, before: Text, refs: seq<Reference>, after: Text)
    requires ValidBlock(refs) && EndsParagraph(before)
    ensures var block := BlockText(header, refs);
            var next := |before + block|;
            BlockAt(header, before, block, after, |before|, EMPTY) ==
            if FenceAt(before, 0, |before|, NoFence).NoFence?
            then BlockAt(header, before, block, after, next, FromBlock(refs))
            else Prepend(block, BlockAt(header, before, block, after, next, EMPTY))
  {
    hide BlockText, Decide, Scan, Ranges, FenceAt, ValidBlock, Merge, Titles;
    var block := BlockText(header, refs);
    var value, o := before + block + after, |before|;
    assert |EMPTY.titles.Keys + Titles(refs).Keys| <= 16 by { BlockAlone(refs); }
    DecideBlock(header, before, refs, after, EMPTY);
    ScanStep(header, value, o, EMPTY, Ranges(value, 0, NoFence));
    assert value[o..|before + block|] == block;
  }

  lemma NoLeadHere(header: HeaderText, before: Text, after: Text)
    requires NoLead(header, after)
    ensures NoLeadFrom(header, before + after, |before|)
  {
    NoLeadSuffix(header, before, after);
  }

  lemma BlockAlone(refs: seq<Reference>)
    requires ValidBlock(refs)
    ensures |EMPTY.titles.Keys + Titles(refs).Keys| <= 16
  {
    hide ValidReference, UniqueIds, Titles;
    TitlesSize(refs);
    assert EMPTY.titles.Keys + Titles(refs).Keys == Titles(refs).Keys;
  }

  lemma UpToBlock(header: HeaderText, before: Text, block: Text, after: Text)
    requires EndsParagraph(before) && NoLead(header, before)
    ensures var value := before + block + after;
            SplitText(header, value) == Prepend(before, BlockAt(header, before, block, after, |before|, EMPTY))
  {
    hide Scan, Ranges, NoLead, LeadAt, LineStart;
    var value := before + block + after;
    assert value == before + (block + after);
    NoHeaderBefore(header, before, block + after);
    ScanBefore(header, value, 0, |before|, EMPTY, Ranges(value, 0, NoFence));
    assert value[0..|before|] == before;
  }

  lemma NoHeaderBefore(header: HeaderText, before: Text, after: Text)
    requires EndsParagraph(before) && NoLead(header, before)
    ensures forall i :: 0 <= i < |before| && LineStart(before + after, i) ==> !LeadAt(header, before + after, i)
  {
    hide LeadAt;
    forall i | 0 <= i < |before| && LineStart(before + after, i)
      ensures !LeadAt(header, before + after, i)
    {
      assert LineStart(before, i);
      if LeadAt(header, before + after, i) { LeadStaysBefore(header, before, after, i); }
    }
  }

  /** After a closed fence the block is taken. */
  lemma BlockAfterClosedFence(header: HeaderText, before: Text, refs: seq<Reference>, after: Text,
                              open: nat, r: nat, q: nat, c: Unit, n: nat)
    requires ValidBlock(refs) && EndsParagraph(before) && NoLead(header, before) && NoLead(header, after)
    requires ClosedBefore(before, open, r, q, c, n)
    ensures SplitText(header, before + BlockText(header, refs) + after) == Split(before + after, FromBlock(refs))
    ensures ValidMap(FromBlock(refs)) && Values(FromBlock(refs)) == refs
  {
    hide BlockText, SplitText, NoLead, ValidMap, Values, FromBlock, FenceAt, ClosedBefore, UniqueIds, ValidReference;
    LastBreaks(before, open, r, q, c, n);
    ClosedIsClosed(before, open, r, q, c, n);
    BlockInText(header, before, refs, after);
    FromBlockValues(refs);
  }

  lemma LastBreaks(before: Text, open: nat, r: nat, q: nat, c: Unit, n: nat)
    requires EndsParagraph(before) && ClosedBefore(before, open, r, q, c, n)
    ensures before != [] && Breaks(before[|before| - 1])
  {
    hide OpensWith, ClosesWith, Ordinary;
    assert before[|before| - 2..][1] == before[|before| - 1];
  }

  /** After a fence that is still open everything stays. */
  lemma BlockInOpenFence(header: HeaderText, before: Text, refs: seq<Reference>, after: Text, open: nat, c: Unit, n: nat)
    requires ValidBlock(refs) && EndsParagraph(before) && NoLead(header, before) && NoLead(header, after)
    requires OpenBefore(before, open, c, n)
    ensures SplitText(header, before + BlockText(header, refs) + after) ==
              Split(before + BlockText(header, refs) + after, EMPTY)
  {
    hide BlockText, SplitText, NoLead, FenceAt, OpensWith, ClosesWith, UniqueIds, ValidReference;
    assert before[|before| - 2..][1] == before[|before| - 1];
    OpenIsOpen(before, open, c, n);
    BlockInText(header, before, refs, after);
  }
}
