/**
 Messages with thread references (src/shared/thread-references.ts): the scanning loop, editing the
 body, and when a message that was formatted twice comes apart again.
 */
module ReferenceMessages {
  import opened Wrappers
  import opened Utf16
  import opened JsonText
  import opened CodeFences
  import opened ThreadReferences
  import opened ReferenceSplit

  // ---- the header in use ----

  predicate AsciiLine(t: Text) { forall i :: 0 <= i < |t| ==> 32 <= t[i] < 127 }

  const HEADER_START := "Sedes thread "
  const HEADER_MIDDLE := "references selected "
  const HEADER_END := "for this message:"

  function ThreadReferenceHeader(): Text {
    Ascii(HEADER_START) + (Ascii(HEADER_MIDDLE) + Ascii(HEADER_END))
  }

  lemma HeaderParts()
    ensures Ascii(HEADER_START) != [] && Ascii(HEADER_START)[0] == 83
    ensures AsciiLine(Ascii(HEADER_START)) && AsciiLine(Ascii(HEADER_MIDDLE)) && AsciiLine(Ascii(HEADER_END))
  {
    hide Ascii;
  }

  /** So everything below holds of the header the program uses. */
  lemma HeaderIsLine()
    ensures HeaderLine(ThreadReferenceHeader())
  {
    hide Ascii;
    HeaderParts();
    var a, b, c := Ascii(HEADER_START), Ascii(HEADER_MIDDLE), Ascii(HEADER_END);
    assert AsciiLine(b + c);
    assert AsciiLine(a + (b + c));
  }

  // ---- the loop ----

  predicate Includes(header: HeaderText, value: Text) { exists i :: 0 <= i <= |value| && LeadAt(header, value, i) }

  method SplitThreadReferenceText(header: HeaderText, value: Text) returns (text: Text, references: RefMap)
    ensures Split(text, references) == SplitText(header, value)
  {
    hide LeadAt, Ranges, MatchAt, Recognize, Titles, Merge, InFence, Ordered, Scan, Decide;
    if !Includes(header, value) {
      PlainText(header, value);
      return value, EMPTY;
    }
    var fences := CodeFenceRanges(value);
    RangesOrdered(value, 0, NoFence);
    var fenceIndex, o := 0, 0;
    text, references := [], EMPTY;
    ghost var whole := SplitText(header, value);
    while o < |value|
      invariant 0 <= o <= |value| && 0 <= fenceIndex <= |fences|
      invariant forall i :: 0 <= i < fenceIndex ==> fences[i].end <= o
      invariant Prepend(text, Scan(header, value, o, references, fences)) == whole
      decreases |value| - o
    {
      var m := MatchAt(header, value, o);
      ghost var d := Decide(header, value, o, references, fences);
      ScanStep(header, value, o, references, fences);
      DecideShape(header, value, o, references, fences);
      var next := if m.Match? then m.end else o + 1;
      var taken := false;
      if m.Match? && ParagraphStart(value, o) && |m.json| <= MAXIMUM_THREAD_INPUT_BYTES {
        var parsed := Recognize(m.json);
        if parsed.Some? {
          PointerAgrees(fences, fenceIndex, o);
          fenceIndex := Skip(fences, fenceIndex, o);
          if !(fenceIndex < |fences| && fences[fenceIndex].start <= o) {
            var ids := references.titles.Keys + Titles(parsed.value).Keys;
            if |ids| <= MAXIMUM_THREAD_REFERENCES {
              references := Merge(references, parsed.value);
              taken := true;
            }
          }
        }
      }
      if !taken {
        PrependTwice(text, value[o..next], Scan(header, value, next, references, fences));
        text := text + value[o..next];
      }
      o := next;
    }
    assert text + [] == text;
    assert Scan(header, value, o, references, fences) == Split([], references) by {
      ScanEnd(header, value, references, fences);
    }
  }

  lemma ScanEnd(header: HeaderText, value: Text, refs: RefMap, ranges: seq<Range>)
    ensures Scan(header, value, |value|, refs, ranges) == Split([], refs)
  {
  }

  lemma PrependTwice(a: Text, b: Text, s: Split)
    ensures Prepend(a, Prepend(b, s)) == Prepend(a + b, s)
  {
    assert a + (b + s.text) == a + b + s.text;
  }

  lemma DecideShape(header: HeaderText, value: Text, o: nat, refs: RefMap, ranges: seq<Range>)
    requires o < |value|
    ensures var m, d := MatchAt(header, value, o), Decide(header, value, o, refs, ranges);
            var next := if m.Match? then m.end else o + 1;
            if m.Match? && Taken(header, value, o, m, refs, ranges)
            then d == Drop(Recognize(m.json).value, next) else d == Keep(next)
  {
    hide MatchAt, Taken, Recognize;
  }

  // ---- editing the body ----

  ghost predicate AllValid(m: RefMap) {
    ValidMap(m) && forall id :: id in m.titles ==> ValidReference(Reference(id, m.titles[id]))
  }

  lemma {:induction false} TitlesValid(block: seq<Reference>)
    requires forall i :: 0 <= i < |block| ==> ValidReference(block[i])
    ensures forall id :: id in Titles(block) ==> ValidReference(Reference(id, Titles(block)[id]))
  {
    hide ValidReference;
    if block != [] {
      TitlesValid(block[1..]);
      assert block[0] == Reference(block[0].threadId, block[0].title);
    }
  }

  lemma {:induction false} ScanValid(header: HeaderText, value: Text, o: nat, refs: RefMap, ranges: seq<Range>)
    requires o <= |value| && AllValid(refs)
    ensures AllValid(Scan(header, value, o, refs, ranges).references)
    decreases |value| - o
  {
    hide Decide, Merge, Titles, BlockText, UniqueIds, ValidReference, InFence, ValidMap;
    match Decide(header, value, o, refs, ranges)
    case End =>
    case Keep(next) => ScanValid(header, value, next, refs, ranges);
    case Drop(block, next) =>
      DropIsBlock(header, value, o, refs, ranges);
      MergeKeeps(refs, block);
      TitlesValid(block);
      ScanValid(header, value, next, Merge(refs, block), ranges);
  }

  /** What a split collects can be formatted again. */
  lemma CollectedIsValid(header: HeaderText, value: Text)
    ensures var m := SplitText(header, value).references;
            ValidMap(m) && (m.order == [] || ValidBlock(Values(m)))
  {
    hide Scan, Ranges, ValidReference;
    EmptyMap();
    ScanValid(header, value, 0, EMPTY, Ranges(value, 0, NoFence));
    SplitBounded(header, value);
    var m := SplitText(header, value).references;
    var values := Values(m);
    assert forall i :: 0 <= i < |values| ==> values[i] == Reference(m.order[i], m.titles[m.order[i]]);
  }

  ghost function ReplaceBody(header: HeaderText, value: Text, text: Text): Option<Text>
  {
    var m := SplitText(header, value).references;
    if forall i :: 0 <= i < |m.order| ==> m.order[i] in m.titles then Format(header, text, Values(m)) else None
  }

  /** Replacing the body never fails, gives the new body, and keeps the references. */
  lemma ReplaceKeepsReferences(header: HeaderText, value: Text, text: Text)
    requires NoLead(header, text)
    ensures ReplaceBody(header, value, text).Some?
    ensures var s := SplitText(header, ReplaceBody(header, value, text).value);
            && s.text == text && ValidMap(s.references) && ValidMap(SplitText(header, value).references)
            && Values(s.references) == Values(SplitText(header, value).references)
  {
    hide SplitText, ValidReference, UniqueIds, BlockText, NoLead;
    CollectedIsValid(header, value);
    var m := SplitText(header, value).references;
    if m.order == [] {
      EmptyMap();
      PlainText(header, text);
    } else {
      RoundTrip(header, text, Values(m));
    }
  }

  // ---- when the outer block leaves a code fence open ----

  predicate Unbroken(t: Text) { forall i :: 0 <= i < |t| ==> !Terminator(t[i]) }

  /** One line of the scan for fences. */
  lemma FenceStep(value: Text, pos: nat, stop: nat, fence: Fence, line: Text)
    requires pos + |line| < stop <= |value| && value[pos..pos + |line|] == line
    requires Unbroken(line) && Terminator(value[pos + |line|])
    ensures FenceAt(value, pos, stop, fence) ==
            FenceAt(value, pos + |line| + 1, stop, After(fence, MarkerOf(line), pos))
  {
    hide MarkerOf;
    assert forall i :: pos <= i < pos + |line| ==> value[i] == line[i - pos];
    LineStopUnique(value, pos, pos + |line|);
  }

  lemma LineWithoutMarker(line: Text)
    requires line == [] || line[0] !in {SPACE, BACKTICK, TILDE}
    ensures MarkerOf(line).NoMarker?
  {
  }

  lemma FenceAtEnd(value: Text, fence: Fence)
    ensures FenceAt(value, |value|, |value|, fence) == fence
  {
  }

  predicate NoSeparator(t: Text) { forall i :: 0 <= i < |t| ==> t[i] != 0x2028 && t[i] != 0x2029 }

  lemma {:induction false} EscapeNoSeparator(t: Text)
    requires NoSeparator(t)
    ensures NoSeparator(Escape(t))
    decreases |t|
  {
    if t == [] {
    } else if |t| > 1 && High(t[0]) && Low(t[1]) {
      EscapeNoSeparator(t[2..]);
    } else {
      EscapeNoSeparator(t[1..]);
    }
  }

  lemma NoSeparatorConcat(a: Text, b: Text)
    requires NoSeparator(a) && NoSeparator(b)
    ensures NoSeparator(a + b)
  {
  }

  lemma OpensNoSeparator()
    ensures NoSeparator(IdOpen()) && NoSeparator(TitleOpen()) && NoSeparator(BlockOpen())
    ensures BlockOpen()[0] == 123
  {
    hide Ascii;
  }

  lemma PrintReferenceNoSeparator(r: Reference)
    requires Uuid(r.threadId) && NoSeparator(r.title)
    ensures NoSeparator(PrintReference(r))
  {
    hide Quote, IdOpen, TitleOpen, NoSeparator, Uuid;
    UuidNoSeparator(r.threadId);
    QuoteNoSeparator(r.threadId);
    QuoteNoSeparator(r.title);
    OpensNoSeparator();
    var a := Quote(r.title) + [CLOSE_BRACE];
    assert NoSeparator([CLOSE_BRACE]) by { BraceNoSeparator(); }
    NoSeparatorConcat(Quote(r.title), [CLOSE_BRACE]);
    NoSeparatorConcat(TitleOpen(), a);
    NoSeparatorConcat(Quote(r.threadId), TitleOpen() + a);
    NoSeparatorConcat(IdOpen(), Quote(r.threadId) + (TitleOpen() + a));
  }

  lemma BraceNoSeparator()
    ensures NoSeparator([CLOSE_BRACE])
  {
  }

  lemma UuidNoSeparator(id: Text)
    requires Uuid(id)
    ensures NoSeparator(id)
  {
  }

  lemma QuoteNoSeparator(t: Text)
    requires NoSeparator(t)
    ensures NoSeparator(Quote(t))
  {
    hide Escape;
    EscapeNoSeparator(t);
  }

  lemma PrintBlockNoSeparator(refs: seq<Reference>)
    requires ValidBlock(refs) && forall i :: 0 <= i < |refs| ==> NoSeparator(refs[i].title)
    ensures NoSeparator(PrintBlock(refs)) && PrintBlock(refs) != [] && PrintBlock(refs)[0] == 123
  {
    hide PrintReference, PrintRest, BlockOpen, Uuid, UniqueIds, NoSeparator, PrintBlock;
    var rest := refs[1..];
    assert forall i :: 0 <= i < |rest| ==> rest[i] == refs[i + 1];
    PrintReferenceNoSeparator(refs[0]);
    PrintRestNoSeparator(rest);
    JoinNoSeparator(refs);
  }

  lemma JoinNoSeparator(refs: seq<Reference>)
    requires refs != [] && NoSeparator(PrintReference(refs[0])) && NoSeparator(PrintRest(refs[1..]))
    ensures NoSeparator(PrintBlock(refs)) && PrintBlock(refs) != [] && PrintBlock(refs)[0] == 123
  {
    hide PrintReference, PrintRest, BlockOpen, NoSeparator;
    OpensPrintable();
    OpensNoSeparator();
    NoSeparatorConcat(PrintReference(refs[0]), PrintRest(refs[1..]));
    NoSeparatorConcat(BlockOpen(), PrintReference(refs[0]) + PrintRest(refs[1..]));
  }

  lemma UnbrokenLine(t: Text)
    requires Printable(t) && NoSeparator(t)
    ensures Unbroken(t)
  {
  }

  lemma {:induction false} PrintRestNoSeparator(refs: seq<Reference>)
    requires forall i :: 0 <= i < |refs| ==> Uuid(refs[i].threadId) && NoSeparator(refs[i].title)
    ensures NoSeparator(PrintRest(refs))
  {
    hide PrintReference, Uuid;
    if refs != [] {
      PrintReferenceNoSeparator(refs[0]);
      PrintRestNoSeparator(refs[1..]);
    }
  }

  /** Without line or paragraph separators in the titles, no fence is left open. */
  lemma OrdinaryTitlesAreSafe(header: HeaderText, refs: seq<Reference>)
    requires ValidBlock(refs) && forall i :: 0 <= i < |refs| ==> NoSeparator(refs[i].title)
    ensures !LeavesFenceOpen(header, refs)
  {
    hide PrintBlock, MarkerOf, FenceAt, ValidBlock, Printable, NoSeparator, Unbroken;
    var json, block := PrintBlock(refs), BlockText(header, refs);
    BlockFits(refs);
    PrintBlockNoSeparator(refs);
    UnbrokenLine(json);
    HeaderIsUnbroken(header);
    BlockLines(header, json);
    assert block == header + [LF] + json + [LF, LF];
    FenceStep(block, 0, |block|, NoFence, header);
    LineWithoutMarker(header);
    FenceStep(block, |header| + 1, |block|, NoFence, json);
    LineWithoutMarker(json);
    FenceStep(block, |header| + |json| + 2, |block|, NoFence, []);
    LineWithoutMarker([]);
    FenceAtEnd(block, NoFence);
  }

  lemma HeaderIsUnbroken(header: HeaderText)
    ensures Unbroken(header) && Unbroken([])
  {
  }

  lemma BlockLines(header: HeaderText, json: Text)
    ensures var block := header + [LF] + json + [LF, LF];
            && |block| == |header| + |json| + 3
            && block[0..|header|] == header && block[|header|] == LF
            && block[|header| + 1..|header| + 1 + |json|] == json && block[|header| + 1 + |json|] == LF
            && block[|header| + 2 + |json|] == LF
            && block[|header| + 2 + |json|..|header| + 2 + |json|] == []
  {
  }

  /** A title that hides a fence behind a line separator. */
  const FENCE_TITLE: Text := [0x2028, BACKTICK, BACKTICK, BACKTICK]

  lemma FenceTitleIsPlain()
    ensures Quote(FENCE_TITLE) == [QUOTE, 0x2028, BACKTICK, BACKTICK, BACKTICK, QUOTE]
  {
    assert Escape(FENCE_TITLE[4..]) == [];
    assert Escape(FENCE_TITLE[3..]) == [BACKTICK] + Escape(FENCE_TITLE[3..][1..]);
    assert Escape(FENCE_TITLE[2..]) == [BACKTICK] + Escape(FENCE_TITLE[2..][1..]);
    assert Escape(FENCE_TITLE[1..]) == [BACKTICK] + Escape(FENCE_TITLE[1..][1..]);
    assert FENCE_TITLE[3..][1..] == FENCE_TITLE[4..] && FENCE_TITLE[2..][1..] == FENCE_TITLE[3..];
    assert FENCE_TITLE[1..][1..] == FENCE_TITLE[2..];
    assert Escape(FENCE_TITLE) == [0x2028] + Escape(FENCE_TITLE[1..]);
  }

  /** With such a title the block does leave a fence open, so the inner block of a nested message stays. */
  lemma FenceTitleLeavesOpen(header: HeaderText, id: Text)
    requires Uuid(id)
    ensures LeavesFenceOpen(header, [Reference(id, FENCE_TITLE)])
  {
    hide Quote, BlockOpen, IdOpen, TitleOpen, MarkerOf, FenceAt, Uuid, Unbroken;
    var r := Reference(id, FENCE_TITLE);
    var head := BlockOpen() + IdOpen() + Quote(id) + TitleOpen() + [QUOTE];
    var tail := [BACKTICK, BACKTICK, BACKTICK, QUOTE, CLOSE_BRACE, CLOSE_BRACKET, CLOSE_BRACE];
    FenceTitleIsPlain();
    assert [r][1..] == [];
    assert PrintBlock([r]) == head + [0x2028] + tail;
    HeadIsUnbroken(id);
    assert BlockText(header, [r]) == header + [LF] + head + [0x2028] + tail + [LF, LF];
    TailOpensFence(header, head, tail);
  }

  lemma TailOpensFence(header: HeaderText, head: Text, tail: Text)
    requires Unbroken(head) && head != [] && head[0] == 123
    requires tail == [BACKTICK, BACKTICK, BACKTICK, QUOTE, CLOSE_BRACE, CLOSE_BRACKET, CLOSE_BRACE]
    ensures var block := header + [LF] + head + [0x2028] + tail + [LF, LF];
            FenceAt(block, 0, |block|, NoFence).Fence?
  {
    hide MarkerOf, FenceAt;
    var block := header + [LF] + head + [0x2028] + tail + [LF, LF];
    var p := |header| + 1;
    var q := p + |head| + 1;
    TwoPartLines(header, head, tail);
    FenceStep(block, 0, |block|, NoFence, header);
    LineWithoutMarker(header);
    FenceStep(block, p, |block|, NoFence, head);
    LineWithoutMarker(head);
    TailMarker(tail);
    FenceStep(block, q, |block|, NoFence, tail);
    var open := Fence(BACKTICK, 3, q);
    FenceStep(block, q + |tail| + 1, |block|, open, []);
    LineWithoutMarker([]);
    FenceAtEnd(block, open);
  }

  lemma HeadIsUnbroken(id: Text)
    requires Uuid(id)
    ensures var head := BlockOpen() + IdOpen() + Quote(id) + TitleOpen() + [QUOTE];
            Unbroken(head) && head[0] == 123
  {
    hide Escape, BlockOpen, IdOpen, TitleOpen;
    OpensPrintable();
    OpensNoSeparator();
    EscapeShape(id);
    EscapeNoSeparator(id);
  }

  lemma TailMarker(tail: Text)
    requires tail == [BACKTICK, BACKTICK, BACKTICK, QUOTE, CLOSE_BRACE, CLOSE_BRACKET, CLOSE_BRACE]
    ensures MarkerOf(tail) == Marker(BACKTICK, 3, false) && Unbroken(tail)
  {
    assert RunLength(tail, SPACE) == 0 && tail[0..] == tail;
    assert tail[2..][1..] == tail[3..] && tail[1..][1..] == tail[2..];
    assert RunLength(tail[3..], BACKTICK) == 0;
    assert RunLength(tail[2..], BACKTICK) == 1 + RunLength(tail[2..][1..], BACKTICK);
    assert RunLength(tail[1..], BACKTICK) == 1 + RunLength(tail[1..][1..], BACKTICK);
    assert RunLength(tail, BACKTICK) == 3;
    assert tail[3..][0] == QUOTE && !White(QUOTE);
  }

  lemma TwoPartLines(header: Text, head: Text, tail: Text)
    ensures var block := header + [LF] + head + [0x2028] + tail + [LF, LF];
            var p, q := |header| + 1, |header| + |head| + 2;
            && |block| == q + |tail| + 2
            && block[0..|header|] == header && block[|header|] == LF
            && block[p..p + |head|] == head && block[p + |head|] == 0x2028
            && block[q..q + |tail|] == tail && block[q + |tail|] == LF
            && block[q + |tail| + 1] == LF && block[q + |tail| + 1..q + |tail| + 1] == []
  {
  }
}
