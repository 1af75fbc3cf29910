/**
 The class of src/client/api/FetchEventSource.ts: the loops that feed the decoder, the points
 where a caller may close the stream, and the decision to reconnect.
 */
module FetchEventSource {
  import opened Utf16
  import opened EventStream

  datatype Response = Unreachable | Response(status: nat, eventStream: bool)

  /** A response whose body is read. */
  predicate Readable(r: Response) {
    r.Response? && 200 <= r.status <= 299 && r.status != 204 && r.eventStream
  }

  /** An answer after which the client does not try again. */
  predicate Terminal(r: Response) { r.Response? && r.status in {204, 401, 403} }

  /** Where the caller closes the stream, beside the points inside the body. */
  datatype Closing = Closing(duringRequest: bool, inOnOpen: bool, inOnError: bool)

  datatype Request = NoRequest | Request(lastEventId: Text)

  class Source {
    var readyState: nat
    var aborted: bool
    var retryMilliseconds: nat
    var lastEventId: Text
    var dispatched: seq<Event>

    // the local variables of #read
    var line: Text
    var skipLf: bool
    var eventType: Text
    var pendingEventId: Text
    var data: seq<Text>
    var eventCharacters: nat

    ghost function Out(): Output
      reads this
    {
      Output(dispatched, lastEventId, retryMilliseconds)
    }

    ghost function State(): (s: Decoder)
      reads this
      ensures s.Live? && s.out == Out() && s.skipLf == skipLf
    {
      Live(line, skipLf, eventType, pendingEventId, data, eventCharacters, Out())
    }

    constructor ()
      ensures readyState == 0 && !aborted && Out() == Output([], [], 1000)
    {
      readyState, aborted, retryMilliseconds, lastEventId, dispatched := 0, false, 1000, [], [];
      line, skipLf, eventType, pendingEventId, data, eventCharacters := [], false, [], [], [], 0;
    }

    method Close()
      modifies this`readyState, this`aborted
      ensures readyState == 2 && aborted && State() == old(State())
    {
      readyState, aborted := 2, true;
    }

    method ConsumeLine()
      modifies this
      ensures State() == EventStream.ConsumeLine(old(State()))
      ensures aborted == old(aborted)
    {
      hide FieldName, FieldValue, TakeField, JoinLines, Message;
      if line == [] {
        lastEventId := pendingEventId;
        if data != [] {
          dispatched := dispatched +
            [Event(if eventType == [] then Message() else eventType, JoinLines(data), lastEventId)];
        }
        eventType, data, eventCharacters := [], [], 0;
      } else if line[0] != COLON {
        var colon := IndexOf(line, COLON);
        var field := line[..colon];
        var value := if colon == |line| then [] else line[colon + 1..];
        if value != [] && value[0] == SPACE { value := value[1..]; }
        FieldByIndex(line, field, value);
        line := [];
        TakeFieldValue(field, value);
      }
      line := [];
    }

    /** The switch over the field name. */
    method TakeFieldValue(field: Text, value: Text)
      modifies this`data, this`eventType, this`pendingEventId, this`retryMilliseconds
      ensures State() == TakeField(old(State()), field, value)
    {
      hide DataField, EventField, IdField, RetryField, Decimal, Clamp;
      if field == DataField() {
        data := data + [value];
      } else if field == EventField() {
        eventType := value;
      } else if field == IdField() {
        if !Contains(value, NUL) { pendingEventId := value; }
      } else if field == RetryField() {
        if AllDigits(value) { retryMilliseconds := Clamp(Decimal(value)); }
      }
    }

    /** Length minus the number of surrogate pairs. */
    method CountCharacters(fragment: Text) returns (characters: nat)
      ensures characters == CodePoints(fragment)
    {
      characters := |fragment|;
      var i := 0;
      while i < |fragment|
        invariant 0 <= i <= |fragment| && |fragment| - i <= characters
        invariant characters + CodePoints(fragment[i..]) == CodePoints(fragment) + (|fragment| - i)
      {
        assert fragment[i..][1..] == fragment[i + 1..];
        if i + 1 < |fragment| && High(fragment[i]) && Low(fragment[i + 1]) {
          assert fragment[i..][2..] == fragment[i + 2..];
          characters, i := characters - 1, i + 2;
        } else {
          i := i + 1;
        }
      }
    }

    /**
     Consumes the text up to where the caller closes the stream: `closes` says after which
     position a listener or another task calls close.
     */
    method ConsumeText(text: Text, closes: nat -> bool) returns (consumed: nat, thrown: bool)
      modifies this
      ensures consumed <= |text| && Boundary(text[..consumed], text[consumed..])
      ensures Feed(old(State()), text[..consumed]) == if thrown then TooLarge(Out()) else State()
      ensures !thrown && !aborted ==> consumed == |text|
      ensures thrown || old(aborted) ==> aborted == old(aborted)
    {
      hide Feed, EndOfLine, Append, EndLine, Boundary, LineStart, State, Out, AfterFragment, FragmentLength;
      consumed, thrown := 0, false;
      ghost var start := State();
      StartAndEnd(start, text);
      while consumed < |text| && !aborted && !thrown
        invariant 0 <= consumed <= |text| && (consumed == |text| || LineStart(text, consumed))
        invariant Feed(start, text[..consumed]) == if thrown then TooLarge(Out()) else State()
        invariant thrown || old(aborted) ==> aborted == old(aborted)
        decreases |text| - consumed
      {
        if skipLf && text[consumed] == LF {
          SkipStep(start, State(), text, consumed);
          SkipLineFeed();
          consumed := consumed + 1;
        } else {
          FragmentStep(start, State(), text, consumed);
          var used;
          used, thrown := ConsumeFragment(text[consumed..]);
          consumed := consumed + used;
          if !thrown && closes(consumed) { Close(); }
        }
      }
      LineStartBoundary(text, consumed);
    }

    method SkipLineFeed()
      modifies this`skipLf
      ensures State() == Skipped(old(State()))
    {
      skipLf := false;
    }

    /** The body of the loop: up to the next line ending, or all of a text without one. */
    method ConsumeFragment(rest: Text) returns (used: nat, thrown: bool)
      requires rest != []
      modifies this
      ensures used == FragmentLength(rest)
      ensures AfterFragment(old(State()), rest) == if thrown then TooLarge(Out()) else State()
      ensures aborted == old(aborted)
    {
      hide CodePoints, EventStream.ConsumeLine, EndOfLine;
      var end := EndOfLine(rest);
      var ended := end < |rest|;
      var characters := CountCharacters(rest[..end]);
      skipLf := false;
      eventCharacters := eventCharacters + characters + (if ended then 1 else 0);
      used, thrown := end + (if ended then 1 else 0), eventCharacters > MAX_EVENT_CHARACTERS;
      if !thrown {
        line := line + rest[..end];
        if ended {
          ConsumeLine();
          skipLf := rest[end] == CR;
        }
      }
    }

    method Begin()
      modifies this
      ensures State() == Fresh(old(Out())) && aborted == old(aborted)
    {
      line, skipLf, eventType, pendingEventId, data, eventCharacters := [], false, [], lastEventId, [], 0;
    }

    /** Reads the pieces of one response body. */
    method Read(pieces: seq<Text>, closes: nat -> nat -> bool) returns (thrown: bool)
      requires WellCut(pieces)
      modifies this
      ensures Out().events <= Batch(old(Out()), Flatten(pieces)).out.events
      ensures !aborted ==> Verdict(Out(), thrown) == Batch(old(Out()), Flatten(pieces))
      ensures old(aborted) ==> aborted
    {
      Begin();
      thrown := false;
      ghost var out := Out();
      ghost var all := FeedAll(Fresh(out), pieces);
      hide Batch, Feed, Boundary, FeedAll, State, Out;
      DecoderRefinesStandard(out, pieces);
      FeedAllGrows(Fresh(out), pieces);
      assert pieces[0..] == pieces;
      var i := 0;
      while i < |pieces| && !aborted && !thrown
        invariant 0 <= i <= |pieces|
        invariant Out().events <= all.out.events
        invariant !aborted ==> all == if thrown then TooLarge(Out()) else FeedAll(State(), pieces[i..])
        invariant old(aborted) ==> aborted
        decreases |pieces| - i
      {
        ghost var s := State();
        var consumed;
        consumed, thrown := ConsumeText(pieces[i], closes(i));
        PieceStep(s, pieces[i..], consumed, if thrown then TooLarge(Out()) else State());
        i := i + 1;
      }
      FeedAllNothing(State());
    }

    /**
     One connection attempt. The caller may close the stream while the request is under way, from `onopen`, between any
     two fragments, and from `onerror`; `accepted` and `failed` say whether the two handlers were called, and
     `retry` that a timer for the next attempt was set.
     */
    method Connect(response: Response, pieces: seq<Text>, points: Closing, closes: nat -> nat -> bool)
        returns (request: Request, accepted: bool, failed: bool, retry: bool)
      requires WellCut(pieces)
      modifies this
      ensures old(readyState) == 2 ==>
                request == NoRequest && !accepted && !failed && !retry && Out() == old(Out())
      ensures old(readyState) != 2 ==> request == Request(old(lastEventId))
      ensures accepted <==>
                && old(readyState) != 2 && !old(aborted) && !points.duringRequest
                && response.Response? && 200 <= response.status <= 299 && response.status != 204 && response.eventStream
      ensures accepted && retry ==> Out() == Batch(old(Out()), Flatten(pieces)).out
      ensures !accepted || points.inOnOpen ==> Out() == old(Out())
      ensures Out().events <= Batch(old(Out()), Flatten(pieces)).out.events
      ensures retry <==> failed && !points.inOnError && !(response.Response? && response.status in {204, 401, 403})
      ensures retry ==> !aborted && readyState == 0
      ensures !failed && old(readyState) != 2 ==> aborted
      ensures accepted && points.inOnOpen ==> !failed
    {
      DecoderRefinesStandard(Out(), pieces);
      FeedAllGrows(Fresh(Out()), pieces);
      accepted, failed, retry := false, false, false;
      if readyState == 2 {
        return NoRequest, false, false, false;
      }
      request := Request(lastEventId);
      if points.duringRequest { Close(); }
      if aborted { return; }
      var terminal := Terminal(response);
      if Readable(response) {
        readyState, accepted := 1, true;
        if points.inOnOpen { Close(); }
        if aborted { return; }
        var thrown := Read(pieces, closes);
      }
      if aborted { return; }
      readyState, failed := if terminal then 2 else 0, true;
      if points.inOnError { Close(); }
      retry := readyState != 2;
    }
  }

  lemma FieldByIndex(line: Text, field: Text, value: Text)
    requires var colon := IndexOf(line, COLON);
             var after := if colon == |line| then [] else line[colon + 1..];
             field == line[..colon] && value == if after != [] && after[0] == SPACE then after[1..] else after
    ensures field == FieldName(line) && value == FieldValue(line)
  {
  }

  lemma StartAndEnd(s: Decoder, text: Text)
    ensures Feed(s, text[..0]) == s
    ensures LineStart(text, 0)
    ensures Boundary(text[..|text|], text[|text|..])
  {
  }

  lemma LineStartBoundary(text: Text, p: nat)
    requires p <= |text| && (p == |text| || LineStart(text, p))
    ensures Boundary(text[..p], text[p..])
  {
    if 0 < p {
      assert text[..p][p - 1] == text[p - 1];
    }
  }

  predicate LineStart(text: Text, p: nat)
    requires p <= |text|
  {
    p == 0 || Ending(text[p - 1])
  }

  lemma FeedSplit(s: Decoder, text: Text, p: nat, q: nat)
    requires p <= q <= |text| && LineStart(text, p)
    ensures Feed(s, text[..q]) == Feed(Feed(s, text[..p]), text[p..q])
  {
    assert text[..q] == text[..p] + text[p..q];
    FeedConcat(s, text[..p], text[p..q]);
  }

  lemma SkipStep(s: Decoder, mid: Decoder, text: Text, p: nat)
    requires p < |text| && LineStart(text, p) && text[p] == LF
    requires mid.Live? && mid.skipLf && mid == Feed(s, text[..p])
    ensures Feed(s, text[..p + 1]) == Skipped(mid)
    ensures LineStart(text, p + 1)
  {
    FeedSplit(s, text, p, p + 1);
    assert text[p..p + 1] == [LF] && [LF][1..] == [];
  }

  lemma FragmentStep(s: Decoder, mid: Decoder, text: Text, p: nat)
    requires p < |text| && LineStart(text, p)
    requires mid.Live? && mid == Feed(s, text[..p]) && !(mid.skipLf && text[p] == LF)
    ensures var q := p + FragmentLength(text[p..]);
            && p < q <= |text|
            && Feed(s, text[..q]) == AfterFragment(mid, text[p..])
            && (q == |text| || LineStart(text, q))
  {
    hide Append, EndLine, EndOfLine, Feed, OneLine;
    var rest := text[p..];
    var e := EndOfLine(rest);
    var q := p + FragmentLength(rest);
    FeedSplit(s, text, p, q);
    var part := text[p..q];
    assert part[..e] == rest[..e] && (e < |rest| ==> part[e] == rest[e] && part[e + 1..] == []);
    FeedRound(mid, part, e);
    var next := Append(mid, rest[..e], true);
    if e < |rest| && next.Live? {
      FeedAllNothing(EndLine(next, rest[e] == CR));
    }
  }

  /** How much of the text one round of the loop takes, and what it makes of it. */
  function FragmentLength(rest: Text): nat {
    var e := EndOfLine(rest);
    if e < |rest| then e + 1 else e
  }

  function AfterFragment(s: Decoder, rest: Text): Decoder
    requires s.Live?
  {
    var e := EndOfLine(rest);
    var next := Append(s, rest[..e], e < |rest|);
    if next.Live? && e < |rest| then EndLine(next, rest[e] == CR) else next
  }

  function Skipped(s: Decoder): Decoder
    requires s.Live?
  {
    s.(skipLf := false)
  }

  /** A piece consumed in part shows a prefix; a piece consumed whole, or too large, is done. */
  lemma PieceStep(s: Decoder, pieces: seq<Text>, consumed: nat, r: Decoder)
    requires pieces != [] && consumed <= |pieces[0]|
    requires Boundary(pieces[0][..consumed], pieces[0][consumed..])
    requires r == Feed(s, pieces[0][..consumed])
    ensures r.out.events <= FeedAll(s, pieces).out.events
    ensures r.TooLarge? ==> FeedAll(s, pieces) == r
    ensures consumed == |pieces[0]| ==> FeedAll(s, pieces) == FeedAll(r, pieces[1..])
  {
    hide Feed;
    var piece := pieces[0];
    assert piece == piece[..consumed] + piece[consumed..];
    FeedConcat(s, piece[..consumed], piece[consumed..]);
    StopIsPrefix(s, piece, consumed);
    FeedAllGrows(Feed(s, piece), pieces[1..]);
    if r.TooLarge? {
      FeedTooLarge(r, piece[consumed..]);
      FeedAllTooLarge(r, pieces[1..]);
    }
    if consumed == |piece| {
      assert piece[..consumed] == piece;
    }
  }

  lemma FeedAllNothing(s: Decoder)
    ensures FeedAll(s, []) == s && Feed(s, []) == s
  {
  }

  lemma {:induction false} FeedAllGrows(s: Decoder, pieces: seq<Text>)
    ensures s.out.events <= FeedAll(s, pieces).out.events
    decreases |pieces|
  {
    if pieces != [] {
      FeedGrows(s, pieces[0]);
      FeedAllGrows(Feed(s, pieces[0]), pieces[1..]);
    }
  }

  lemma {:induction false} FeedAllTooLarge(s: Decoder, pieces: seq<Text>)
    requires s.TooLarge?
    ensures FeedAll(s, pieces) == s
    decreases |pieces|
  {
    if pieces != [] {
      FeedAllTooLarge(s, pieces[1..]);
    }
  }
}
