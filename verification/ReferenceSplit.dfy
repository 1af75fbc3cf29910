/** Extracting reference blocks from text: `splitThreadReferenceText` of src/shared/thread-references.ts. */
module ReferenceSplit {
  import opened Wrappers
  import opened Utf16
  import opened JsonText
  import opened CodeFences
  import opened ThreadReferences

  // ---- the reference map: insertion order, later values win ----

  datatype RefMap = RefMap(order: seq<Text>, titles: map<Text, Text>)

  const EMPTY := RefMap([], map[])

  ghost predicate ValidMap(m: RefMap) {
    && |m.order| == |m.titles|
    && (forall i :: 0 <= i < |m.order| ==> m.order[i] in m.titles)
    && (forall i, j :: 0 <= i < j < |m.order| ==> m.order[i] != m.order[j])
  }

  function Put(m: RefMap, r: Reference): RefMap {
    RefMap(if r.threadId in m.titles then m.order else m.order + [r.threadId],
           m.titles[r.threadId := r.title])
  }

  function Merge(m: RefMap, block: seq<Reference>): RefMap
    decreases |block|
  {
    if block == [] then m else Merge(Put(m, block[0]), block[1..])
  }

  /** The titles a list gives, the last one for each id. */
  function Titles(block: seq<Reference>): map<Text, Text> {
    if block == [] then map[] else map[block[0].threadId := block[0].title] + Titles(block[1..])
  }

  function Values(m: RefMap): seq<Reference>
    requires forall i :: 0 <= i < |m.order| ==> m.order[i] in m.titles
  {
    seq(|m.order|, i requires 0 <= i < |m.order| => Reference(m.order[i], m.titles[m.order[i]]))
  }

  lemma PutKeeps(m: RefMap, r: Reference)
    requires ValidMap(m)
    ensures ValidMap(Put(m, r)) && m.order <= Put(m, r).order
  {
    if r.threadId !in m.titles {
      assert (m.titles[r.threadId := r.title]).Keys == m.titles.Keys + {r.threadId};
    } else {
      assert (m.titles[r.threadId := r.title]).Keys == m.titles.Keys;
    }
  }

  /** Merging keeps what was there in place, appends new ids, and gives every id its last title. */
  lemma {:induction false} MergeKeeps(m: RefMap, block: seq<Reference>)
    requires ValidMap(m)
    ensures ValidMap(Merge(m, block)) && m.order <= Merge(m, block).order
    ensures Merge(m, block).titles == m.titles + Titles(block)
    decreases |block|
  {
    hide ValidMap;
    if block != [] {
      var first, rest := block[0], block[1..];
      PutKeeps(m, first);
      MergeKeeps(Put(m, first), rest);
      UnionAssoc(m.titles, first.threadId, first.title, Titles(rest));
    } else {
      assert m.titles + map[] == m.titles;
    }
  }

  lemma UnionAssoc(a: map<Text, Text>, key: Text, value: Text, b: map<Text, Text>)
    ensures a[key := value] + b == a + (map[key := value] + b)
  {
  }

  /** Merging a block into nothing gives the block back. */
  lemma {:induction false} MergeFresh(m: RefMap, done: seq<Reference>, block: seq<Reference>)
    requires ValidMap(m) && Values(m) == done && UniqueIds(done + block)
    ensures ValidMap(Merge(m, block)) && Values(Merge(m, block)) == done + block
    decreases |block|
  {
    if block == [] {
      assert done + block == done;
    } else {
      var first, rest := block[0], block[1..];
      assert (done + [first]) + rest == done + block;
      FirstIsNew(m, done, block);
      PutKeeps(m, first);
      assert Values(Put(m, first)) == done + [first];
      MergeFresh(Put(m, first), done + [first], rest);
    }
  }

  lemma FirstIsNew(m: RefMap, done: seq<Reference>, block: seq<Reference>)
    requires ValidMap(m) && Values(m) == done && UniqueIds(done + block) && block != []
    ensures block[0].threadId !in m.titles
  {
    var all := done + block;
    assert all[|done|] == block[0];
    assert forall i :: 0 <= i < |done| ==> all[i] == done[i] && done[i].threadId == m.order[i];
    if block[0].threadId in m.titles {
      OrderCovers(m, block[0].threadId);
      assert false;
    }
  }

  /** Every id is in the order. */
  lemma OrderCovers(m: RefMap, id: Text)
    requires ValidMap(m) && id in m.titles
    ensures id in m.order
  {
    var listed := set k | k in m.order;
    SizeOfDistinct(m.order);
    assert listed <= m.titles.Keys;
    assert |m.titles.Keys - listed| == |m.titles.Keys| - |listed|;
  }

  lemma {:induction false} SizeOfDistinct(keys: seq<Text>)
    requires forall i, j :: 0 <= i < j < |keys| ==> keys[i] != keys[j]
    ensures |set k | k in keys| == |keys|
  {
    if keys != [] {
      SizeOfDistinct(keys[1..]);
      assert (set k | k in keys) == (set k | k in keys[1..]) + {keys[0]};
    }
  }

  // ---- the pattern ----

  datatype Match = NoMatch | Match(json: Text, end: nat)

  function Lead(header: HeaderText): Text { header + [LF] }

  predicate LeadAt(header: HeaderText, value: Text, o: nat)
    ensures LeadAt(header, value, o) ==> o + |Lead(header)| <= |value|
  {
    o <= |value| && Lead(header) <= value[o..]
  }

  /** One line and an empty line. */
  function MatchBody(body: Text): (m: Match)
    ensures m.Match? ==> m.end <= |body|
  {
    var n := IndexOf(body, LF);
    if n + 1 < |body| && body[n + 1] == LF then Match(body[..n], n + 2) else NoMatch
  }

  /** A match of the pattern at `o`: the header line, one line, and an empty line. */
  function MatchAt(header: HeaderText, value: Text, o: nat): (m: Match)
    ensures m.Match? ==> o < m.end <= |value|
  {
    if !LineStart(value, o) || !LeadAt(header, value, o) then NoMatch
    else
      var m := MatchBody(value[o + |Lead(header)|..]);
      if m.Match? then Match(m.json, o + |Lead(header)| + m.end) else NoMatch
  }

  predicate ParagraphStart(value: Text, o: nat) {
    o == 0 || (2 <= o <= |value| && value[o - 2..o] == [LF, LF])
  }

  /** The block at `o` is removed. */
  ghost predicate Taken(header: HeaderText, value: Text, o: nat, m: Match, refs: RefMap, ranges: seq<Range>)
    requires m.Match?
  {
    && ParagraphStart(value, o)
    && |m.json| <= MAXIMUM_THREAD_INPUT_BYTES
    && Recognize(m.json).Some?
    && !InFence(ranges, o)
    && |refs.titles.Keys + Titles(Recognize(m.json).value).Keys| <= MAXIMUM_THREAD_REFERENCES
  }

  datatype Step = End | Keep(next: nat) | Drop(block: seq<Reference>, next: nat)

  /** What the scan does at `o`. */
  ghost function Decide(header: HeaderText, value: Text, o: nat, refs: RefMap, ranges: seq<Range>): (d: Step)
    requires o <= |value|
    ensures d.End? <==> o == |value|
    ensures !d.End? ==> o < d.next <= |value|
  {
    var m := MatchAt(header, value, o);
    if o == |value| then End
    else if m.NoMatch? then Keep(o + 1)
    else if Taken(header, value, o, m, refs, ranges) then Drop(Recognize(m.json).value, m.end)
    else Keep(m.end)
  }

  datatype Split = Split(text: Text, references: RefMap)

  function Prepend(kept: Text, s: Split): Split { Split(kept + s.text, s.references) }

  /** The rest of the text from `o`, with `refs` collected so far. */
  ghost function Scan(header: HeaderText, value: Text, o: nat, refs: RefMap, ranges: seq<Range>): Split
    requires o <= |value|
    decreases |value| - o
  {
    match Decide(header, value, o, refs, ranges)
    case End => Split([], refs)
    case Keep(next) =>
      Prepend(value[o..next], Scan(header, value, next, refs, ranges))
    case Drop(block, next) => Scan(header, value, next, Merge(refs, block), ranges)
  }

  ghost function SplitText(header: HeaderText, value: Text): Split {
    Scan(header, value, 0, EMPTY, Ranges(value, 0, NoFence))
  }

  // ---- text without blocks ----

  /** From `o` on no line is the header; inside a line its text does no harm. */
  ghost predicate NoLeadFrom(header: HeaderText, value: Text, o: nat) {
    forall i :: o <= i <= |value| && LineStart(value, i) ==> !LeadAt(header, value, i)
  }

  lemma PlainHere(header: HeaderText, value: Text, o: nat, refs: RefMap, ranges: seq<Range>)
    requires o < |value| && !(LineStart(value, o) && LeadAt(header, value, o))
    ensures Decide(header, value, o, refs, ranges) == Keep(o + 1)
  {
    hide Taken, LeadAt, LineStart, MatchBody;
    assert MatchAt(header, value, o).NoMatch?;
  }

  lemma {:induction false} ScanPlain(header: HeaderText, value: Text, o: nat, refs: RefMap, ranges: seq<Range>)
    requires o <= |value| && NoLeadFrom(header, value, o)
    ensures Scan(header, value, o, refs, ranges) == Split(value[o..], refs)
    decreases |value| - o
  {
    hide Decide, LeadAt, LineStart, Merge;
    if o < |value| {
      PlainHere(header, value, o, refs, ranges);
      ScanPlain(header, value, o + 1, refs, ranges);
      assert value[o..] == value[o..o + 1] + value[o + 1..];
    }
  }

  // ---- conservation: the text is kept pieces and removed canonical blocks ----

  datatype Piece = Kept(text: Text) | Removed(block: seq<Reference>)

  ghost function Pieces(header: HeaderText, value: Text, o: nat, refs: RefMap, ranges: seq<Range>): seq<Piece>
    requires o <= |value|
    decreases |value| - o
  {
    match Decide(header, value, o, refs, ranges)
    case End => []
    case Keep(next) => [Kept(value[o..next])] + Pieces(header, value, next, refs, ranges)
    case Drop(block, next) => [Removed(block)] + Pieces(header, value, next, Merge(refs, block), ranges)
  }

  ghost predicate PiecesOk(pieces: seq<Piece>) {
    forall i :: 0 <= i < |pieces| && pieces[i].Removed? ==> ValidBlock(pieces[i].block)
  }

  /** The original text, from its pieces. */
  ghost function Original(header: HeaderText, pieces: seq<Piece>): Text {
    if pieces == [] then [] else Shown(header, pieces[0]) + Original(header, pieces[1..])
  }

  function Shown(header: HeaderText, p: Piece): Text { if p.Kept? then p.text else BlockText(header, p.block) }

  ghost function KeptText(pieces: seq<Piece>): Text {
    if pieces == [] then [] else (if pieces[0].Kept? then pieces[0].text else []) + KeptText(pieces[1..])
  }

  ghost function Collected(refs: RefMap, pieces: seq<Piece>): RefMap
    decreases |pieces|
  {
    if pieces == [] then refs
    else Collected(if pieces[0].Kept? then refs else Merge(refs, pieces[0].block), pieces[1..])
  }

  /** A match whose line is recognized is, unit for unit, the block of those references. */
  lemma MatchIsBlock(header: HeaderText, value: Text, o: nat)
    requires MatchAt(header, value, o).Match? && Recognize(MatchAt(header, value, o).json).Some?
    ensures var block := Recognize(MatchAt(header, value, o).json).value;
            ValidBlock(block) && value[o..MatchAt(header, value, o).end] == BlockText(header, block)
  {
    hide Recognize, ValidBlock, PrintBlock;
    var m := MatchAt(header, value, o);
    var block := Recognize(m.json).value;
    RecognizeExactly(m.json, block);
    var body := value[o + |Lead(header)|..];
    assert value[o..][..|Lead(header)|] == Lead(header);
    assert value[o..m.end] == Lead(header) + value[o + |Lead(header)|..m.end];
    assert value[o + |Lead(header)|..m.end] == body[..|m.json| + 2] == m.json + [LF, LF];
    ValidNonEmpty(block);
    assert Lead(header) + (m.json + [LF, LF]) == header + [LF] + m.json + [LF, LF];
  }

  lemma ValidNonEmpty(block: seq<Reference>)
    requires ValidBlock(block)
    ensures block != [] && UniqueIds(block) && |block| <= MAXIMUM_THREAD_REFERENCES
  {
  }

  /** What is dropped is a canonical block. */
  lemma DropIsBlock(header: HeaderText, value: Text, o: nat, refs: RefMap, ranges: seq<Range>)
    requires o <= |value| && Decide(header, value, o, refs, ranges).Drop?
    ensures var d := Decide(header, value, o, refs, ranges);
            && ValidBlock(d.block) && value[o..d.next] == BlockText(header, d.block)
            && (o == 0 || (o >= 2 && value[o - 2] == 10 && value[o - 1] == 10)) && !InFence(ranges, o)
            && |refs.titles.Keys + Titles(d.block).Keys| <= 16
  {
    hide MatchAt, Recognize, BlockText, ValidBlock, InFence, Titles;
    MatchIsBlock(header, value, o);
    assert o != 0 ==> value[o - 2..o][0] == value[o - 2] && value[o - 2..o][1] == value[o - 1];
  }

  lemma {:induction false} PiecesAreValue(header: HeaderText, value: Text, o: nat, refs: RefMap, ranges: seq<Range>)
    requires o <= |value|
    ensures var pieces := Pieces(header, value, o, refs, ranges);
            PiecesOk(pieces) && Original(header, pieces) == value[o..]
    decreases |value| - o
  {
    hide Decide, Merge, BlockText, ValidBlock, Original, KeptText, Collected, PiecesOk, InFence, Titles;
    match Decide(header, value, o, refs, ranges)
    case End => NoPieces(header, refs);
    case Keep(next) =>
      PiecesAreValue(header, value, next, refs, ranges);
      PiecesStep(header, Kept(value[o..next]), Pieces(header, value, next, refs, ranges));
      assert value[o..] == value[o..next] + value[next..];
    case Drop(block, next) =>
      DropIsBlock(header, value, o, refs, ranges);
      PiecesAreValue(header, value, next, Merge(refs, block), ranges);
      PiecesStep(header, Removed(block), Pieces(header, value, next, Merge(refs, block), ranges));
      assert value[o..] == value[o..next] + value[next..];
  }

  lemma {:induction false} PiecesAreScan(header: HeaderText, value: Text, o: nat, refs: RefMap, ranges: seq<Range>)
    requires o <= |value|
    ensures var pieces := Pieces(header, value, o, refs, ranges);
            var s := Scan(header, value, o, refs, ranges);
            KeptText(pieces) == s.text && Collected(refs, pieces) == s.references
    decreases |value| - o
  {
    hide Decide, Merge, BlockText, ValidBlock, Original, KeptText, Collected, PiecesOk, InFence, Titles;
    match Decide(header, value, o, refs, ranges)
    case End => NoPieces(header, refs);
    case Keep(next) =>
      PiecesAreScan(header, value, next, refs, ranges);
      PiecesStep(header, Kept(value[o..next]), Pieces(header, value, next, refs, ranges));
    case Drop(block, next) =>
      PiecesAreScan(header, value, next, Merge(refs, block), ranges);
      PiecesStep(header, Removed(block), Pieces(header, value, next, Merge(refs, block), ranges));
  }

  lemma PiecesRebuild(header: HeaderText, value: Text, o: nat, refs: RefMap, ranges: seq<Range>)
    requires o <= |value|
    ensures var pieces := Pieces(header, value, o, refs, ranges);
            var s := Scan(header, value, o, refs, ranges);
            && PiecesOk(pieces) && Original(header, pieces) == value[o..]
            && KeptText(pieces) == s.text && Collected(refs, pieces) == s.references
  {
    hide Pieces, Scan, Original, KeptText, Collected, PiecesOk;
    PiecesAreValue(header, value, o, refs, ranges);
    PiecesAreScan(header, value, o, refs, ranges);
  }

  lemma NoPieces(header: HeaderText, refs: RefMap)
    ensures PiecesOk([]) && Original(header, []) == [] && KeptText([]) == [] && Collected(refs, []) == refs
  {
  }

  lemma PiecesStep(header: HeaderText, p: Piece, rest: seq<Piece>)
    ensures PiecesOk(rest) && (p.Removed? ==> ValidBlock(p.block)) ==> PiecesOk([p] + rest)
    ensures Original(header, [p] + rest) == Shown(header, p) + Original(header, rest)
    ensures KeptText([p] + rest) == (if p.Kept? then p.text else []) + KeptText(rest)
    ensures forall refs :: Collected(refs, [p] + rest) ==
                           Collected(if p.Kept? then refs else Merge(refs, p.block), rest)
  {
    hide Shown, ValidBlock, Merge;
    assert ([p] + rest)[1..] == rest;
  }

  /** Nothing is lost or moved: the text is exactly the kept pieces and the removed blocks, in order. */
  lemma SplitConserves(header: HeaderText, value: Text)
    ensures exists pieces ::
              && PiecesOk(pieces) && Original(header, pieces) == value
              && KeptText(pieces) == SplitText(header, value).text
              && Collected(EMPTY, pieces) == SplitText(header, value).references
  {
    hide Pieces, Scan, Ranges;
    var ranges := Ranges(value, 0, NoFence);
    PiecesRebuild(header, value, 0, EMPTY, ranges);
    assert value[0..] == value;
    assert PiecesOk(Pieces(header, value, 0, EMPTY, ranges));
  }

  /** At most sixteen references, none twice. */
  lemma {:induction false} ScanBounded(header: HeaderText, value: Text, o: nat, refs: RefMap, ranges: seq<Range>)
    requires o <= |value| && ValidMap(refs) && |refs.order| <= MAXIMUM_THREAD_REFERENCES
    ensures var r := Scan(header, value, o, refs, ranges).references;
            ValidMap(r) && |r.order| <= MAXIMUM_THREAD_REFERENCES
    decreases |value| - o
  {
    hide Decide, ValidMap, Merge, Titles, BlockText, ValidBlock, InFence;
    match Decide(header, value, o, refs, ranges)
    case End =>
    case Keep(next) => ScanBounded(header, value, next, refs, ranges);
    case Drop(block, next) =>
      DropIsBlock(header, value, o, refs, ranges);
      MergeKeeps(refs, block);
      MergedSize(refs, block);
      ScanBounded(header, value, next, Merge(refs, block), ranges);
  }

  lemma MergedSize(m: RefMap, block: seq<Reference>)
    requires ValidMap(Merge(m, block)) && Merge(m, block).titles == m.titles + Titles(block)
    ensures |Merge(m, block).order| == |m.titles.Keys + Titles(block).Keys|
  {
    hide Merge, Titles;
    assert (m.titles + Titles(block)).Keys == m.titles.Keys + Titles(block).Keys;
  }

  lemma SplitBounded(header: HeaderText, value: Text)
    ensures ValidMap(SplitText(header, value).references)
    ensures |SplitText(header, value).references.order| <= 16
  {
    hide Scan, Ranges;
    ScanBounded(header, value, 0, EMPTY, Ranges(value, 0, NoFence));
  }

  // ---- a block in place ----

  /** A block that starts a line is matched as a whole. */
  lemma MatchBlock(header: HeaderText, before: Text, refs: seq<Reference>, after: Text)
    requires ValidBlock(refs)
    requires LineStart(before + BlockText(header, refs) + after, |before|)
    ensures var value := before + BlockText(header, refs) + after;
            && MatchAt(header, value, |before|) == Match(PrintBlock(refs), |before + BlockText(header, refs)|)
            && LeadAt(header, value, |before|)
  {
    hide PrintBlock, ValidReference, UniqueIds, IndexOf;
    var value := before + BlockText(header, refs) + after;
    var json, rest := PrintBlock(refs), [LF, LF] + after;
    var body := json + rest;
    assert value[|before|..] == Lead(header) + body;
    assert value[|before| + |Lead(header)|..] == body;
    BlockFits(refs);
    IndexOfUnique(body, LF, |json|);
    assert body[..|json|] == json;
  }

  /** The header line is not a code fence. */
  lemma HeaderIsNoMarker(header: HeaderText, value: Text, o: nat)
    requires o <= |value| && LeadAt(header, value, o)
    ensures o < |value| && MarkerAt(value, o).NoMarker?
  {
    assert value[o] == value[o..][0]  == Lead(header)[0];
    var line := value[o..LineStop(value, o)];
    assert line[0] == header[0];
    assert RunLength(line, SPACE) == 0 && line[0..] == line;
  }

  lemma {:induction false} TitlesSize(refs: seq<Reference>)
    ensures |Titles(refs).Keys| <= |refs|
  {
    if refs != [] {
      TitlesSize(refs[1..]);
      assert Titles(refs).Keys == {refs[0].threadId} + Titles(refs[1..]).Keys;
    }
  }

  /** A block after `before` is kept as text inside a code fence and dropped outside. */
  ghost predicate DecidesBlock(header: HeaderText, before: Text, refs: seq<Reference>, after: Text, m: RefMap) {
    var block := BlockText(header, refs);
    var value, next := before + block + after, |before + block|;
    Decide(header, value, |before|, m, Ranges(value, 0, NoFence)) ==
    if FenceAt(before, 0, |before|, NoFence).Fence? then Keep(next) else Drop(refs, next)
  }

  lemma DecideBlock(header: HeaderText, before: Text, refs: seq<Reference>, after: Text, m: RefMap)
    requires ValidBlock(refs)
    requires before == [] || (|before| >= 2 && before[|before| - 2..] == [10, 10])
    requires |m.titles.Keys + Titles(refs).Keys| <= 16
    ensures DecidesBlock(header, before, refs, after, m)
  {
    hide BlockText, PrintBlock, ValidBlock, Recognize, Ranges, FenceAt, MatchAt, Titles, InFence, MarkerAt, LeadAt;
    var value, o := before + BlockText(header, refs) + after, |before|;
    assert value[..o] == before;
    assert o > 0 ==> value[o - 2..o] == before[o - 2..] && value[o - 1] == before[o - 2..][1];
    MatchBlock(header, before, refs, after);
    HeaderIsNoMarker(header, value, o);
    InFenceIsOpen(value, 0, o, NoFence);
    FenceAtPrefix(value, 0, o, NoFence);
    RecognizeExactly(PrintBlock(refs), refs);
    BlockFits(refs);
  }

  // ---- round trips ----

  /** No line of the text is the header. */
  ghost predicate NoLead(header: HeaderText, text: Text) { NoLeadFrom(header, text, 0) }

  lemma NoLeadSuffix(header: HeaderText, before: Text, text: Text)
    requires NoLead(header, text)
    ensures NoLeadFrom(header, before + text, |before|)
  {
    hide Lead;
    forall i | |before| <= i <= |before + text| && LineStart(before + text, i)
      ensures !LeadAt(header, before + text, i)
    {
      assert (before + text)[i..] == text[i - |before|..];
      assert LineStart(text, i - |before|);
      assert !LeadAt(header, text, i - |before|);
    }
  }

  ghost function FromBlock(refs: seq<Reference>): RefMap { Merge(EMPTY, refs) }

  lemma FromBlockValues(refs: seq<Reference>)
    requires UniqueIds(refs)
    ensures ValidMap(FromBlock(refs)) && Values(FromBlock(refs)) == refs
    ensures FromBlock(refs).titles == Titles(refs)
  {
    hide Merge, UniqueIds, Values, Titles, ValidMap;
    EmptyMap();
    assert [] + refs == refs;
    MergeFresh(EMPTY, [], refs);
    MergeKeeps(EMPTY, refs);
    assert map[] + Titles(refs) == Titles(refs);
  }

  lemma EmptyMap()
    ensures ValidMap(EMPTY) && Values(EMPTY) == []
  {
  }

  lemma ScanStep(header: HeaderText, value: Text, o: nat, refs: RefMap, ranges: seq<Range>)
    requires o <= |value|
    ensures var d, s := Decide(header, value, o, refs, ranges), Scan(header, value, o, refs, ranges);
            && (d.Keep? ==> s == Prepend(value[o..d.next], Scan(header, value, d.next, refs, ranges)))
            && (d.Drop? ==> s == Scan(header, value, d.next, Merge(refs, d.block), ranges))
  {
    hide Decide, Merge;
  }

  /** The first block of a text is taken. */
  lemma FirstBlock(header: HeaderText, refs: seq<Reference>, after: Text)
    requires ValidBlock(refs)
    ensures var value := BlockText(header, refs) + after;
            Decide(header, value, 0, EMPTY, Ranges(value, 0, NoFence)) == Drop(refs, |BlockText(header, refs)|)
  {
    hide BlockText, Decide, Ranges, UniqueIds, ValidReference;
    var block := BlockText(header, refs);
    assert [] + block + after == block + after && [] + block == block;
    TitlesSize(refs);
    assert EMPTY.titles.Keys + Titles(refs).Keys == Titles(refs).Keys;
    DecideBlock(header, [], refs, after, EMPTY);
  }

  /** Splitting a formatted message gives exactly the body and the references that went in. */
  lemma RoundTrip(header: HeaderText, text: Text, refs: seq<Reference>)
    requires ValidBlock(refs) && NoLead(header, text)
    ensures Format(header, text, refs).Some?
    ensures var s := SplitText(header, Format(header, text, refs).value);
            s.text == text && ValidMap(s.references) && Values(s.references) == refs
  {
    hide BlockText, Decide, Scan, Ranges, NoLeadFrom, ValidMap, Values, Merge, UniqueIds, ValidReference;
    var block := BlockText(header, refs);
    var value := block + text;
    var ranges := Ranges(value, 0, NoFence);
    FirstBlock(header, refs, text);
    ScanStep(header, value, 0, EMPTY, ranges);
    NoLeadSuffix(header, block, text);
    ScanPlain(header, value, |block|, FromBlock(refs), ranges);
    assert value[|block|..] == text;
    FromBlockValues(refs);
  }

  /** A text without the header line is returned as it is. */
  lemma PlainText(header: HeaderText, text: Text)
    requires NoLead(header, text)
    ensures SplitText(header, text) == Split(text, EMPTY)
  {
    hide Scan, Ranges;
    ScanPlain(header, text, 0, EMPTY, Ranges(text, 0, NoFence));
    assert text[0..] == text;
  }

  /** The block ends inside a code fence that one of its titles opened. */
  ghost predicate LeavesFenceOpen(header: HeaderText, refs: seq<Reference>) {
    var block := BlockText(header, refs);
    FenceAt(block, 0, |block|, NoFence).Fence?
  }

  lemma BlockEnding(header: HeaderText, refs: seq<Reference>)
    ensures var block := BlockText(header, refs);
            |block| >= 2 && block[|block| - 2..] == [LF, LF]
  {
    hide PrintBlock;
  }

  /**
   A message formatted twice splits into its body and both lists, where the inner titles win;
   exactly when the outer block does not leave a code fence open. Otherwise the inner block stays.
   */
  lemma NestedRoundTrip(header: HeaderText, text: Text, inner: seq<Reference>, outer: seq<Reference>)
    requires ValidBlock(inner) && ValidBlock(outer) && NoLead(header, text)
    requires |Titles(outer).Keys + Titles(inner).Keys| <= 16
    ensures var s := SplitText(header, BlockText(header, outer) + (BlockText(header, inner) + text));
            s == if LeavesFenceOpen(header, outer)
                 then Split(BlockText(header, inner) + text, FromBlock(outer))
                 else Split(text, Merge(FromBlock(outer), inner))
    ensures Merge(FromBlock(outer), inner).titles == Titles(outer) + Titles(inner)
  {
    hide BlockText, Decide, Scan, Ranges, NoLeadFrom, ValidMap, Values, Merge, Titles, FenceAt;
    hide UniqueIds, ValidReference;
    var first, second := BlockText(header, outer), BlockText(header, inner);
    var value := first + (second + text);
    var ranges := Ranges(value, 0, NoFence);
    assert value == first + second + text;
    FirstBlock(header, outer, second + text);
    FromBlockValues(outer);
    MergeKeeps(FromBlock(outer), inner);
    BlockEnding(header, outer);
    DecideBlock(header, first, inner, text, FromBlock(outer));
    NoLeadSuffix(header, first + second, text);
    var next := |first + second|;
    assert value[next..] == text && value[|first|..next] == second;
    ScanStep(header, value, 0, EMPTY, ranges);
    ScanStep(header, value, |first|, FromBlock(outer), ranges);
    ScanPlain(header, value, next, FromBlock(outer), ranges);
    ScanPlain(header, value, next, Merge(FromBlock(outer), inner), ranges);
  }
}
