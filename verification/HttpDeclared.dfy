/**
  http/src/http_parser.c over whole runs, told from its callbacks alone: the header fields are those named,
  and the bytes given to `on_body` are as many as the value of the field "content-length" says.
 */
module HttpDeclared {
  import opened Common
  import opened HttpModel
  import opened HttpRuns
  import opened HttpCuts
  import opened HttpSound

  import opened HttpBodies
  import opened HttpFields
  import opened HttpLength

  // ---------------------------------------------------------------- what the callbacks tell

  /** The name of the last field, whether it may go on, and the value of the last Content-Length. */
  datatype Head = Head(name: seq<byte>, inName: bool, length: seq<byte>)

  const NO_HEAD := Head([], false, [])

  function HeadOne(h: Head, e: Event): Head {
    if e.Data? && e.span == Field then Head(if h.inName then h.name + e.bytes else e.bytes, true, h.length)
    else if e.Data? && e.span == Value then
      Head(h.name, false,
           if Is(h.name, CONTENT_LENGTH) then (if h.inName then [] else h.length) + e.bytes else h.length)
    else h
  }

  function HeadSince(h: Head, events: seq<Event>): Head
    decreases |events|
  {
    if events == [] then h else HeadSince(HeadOne(h, events[0]), events[1..])
  }

  /** The digits in a value; blanks may follow them. */
  function DigitsIn(value: seq<byte>): seq<byte>
    decreases |value|
  {
    if value == [] then [] else
    var n := |value| - 1;
    DigitsIn(value[..n]) + (if IsNum(value[n]) then [value[n]] else [])
  }

  lemma DigitsMore(value: seq<byte>, ch: byte)
    ensures DigitsIn(value + [ch]) == DigitsIn(value) + (if IsNum(ch) then [ch] else [])
  {
    assert (value + [ch])[..|value|] == value;
  }

  lemma {:induction false} HeadAppend(h: Head, x: seq<Event>, y: seq<Event>)
    ensures HeadSince(h, x + y) == HeadSince(HeadSince(h, x), y)
    decreases |x|
  {
    if x == [] {
      assert x + y == y;
    } else {
      assert (x + y)[1..] == x[1..] + y;
      HeadAppend(HeadOne(h, x[0]), x[1..], y);
    }
  }

  lemma HeadLast(h: Head, x: seq<Event>, e: Event)
    ensures HeadSince(h, x + [e]) == HeadOne(HeadSince(h, x), e)
  {
    HeadAppend(h, x, [e]);
    assert [e][1..] == [];
  }

  lemma HeadTwice(h: Head, span: Span, x: seq<byte>, y: seq<byte>)
    ensures HeadOne(h, Data(span, x + y)) == HeadOne(HeadOne(h, Data(span, x)), Data(span, y))
  {
    hide Is;
    assert h.name + (x + y) == h.name + x + y;
    assert h.length + (x + y) == h.length + x + y;
    assert [] + (x + y) == [] + x + y;
  }

  lemma HeadJoinOne(h: Head, x: seq<Event>, e: Event)
    ensures HeadSince(h, JoinOne(x, e)) == HeadOne(HeadSince(h, x), e)
  {
    hide HeadOne;
    HeadLast(h, x, e);
    if x != [] && JoinOne(x, e) != x + [e] {
      var front, last := x[..|x| - 1], x[|x| - 1];
      assert x == front + [last];
      HeadLast(h, front, last);
      HeadLast(h, front, Data(e.span, last.bytes + e.bytes));
      hide HeadSince;
      HeadTwice(HeadSince(h, front), e.span, last.bytes, e.bytes);
    }
  }

  /** Joining adjacent callbacks does not change what they tell. */
  lemma {:induction false} HeadJoin(h: Head, x: seq<Event>, y: seq<Event>)
    ensures HeadSince(h, Join(x, y)) == HeadSince(HeadSince(h, x), y)
    decreases |y|
  {
    hide JoinOne;
    hide HeadOne;
    if y != [] {
      HeadJoinOne(h, x, y[0]);
      HeadJoin(h, JoinOne(x, y[0]), y[1..]);
    }
  }

  // ---------------------------------------------------------------- what a pass tells

  function OpenSpan(s: State): (o: Option<Span>)
    ensures OpenSpans(s) == if o.Some? then {o.value} else {}
  {
    if s.HeaderField? then Some(Field)
    else if s.HeaderValue? then Some(Value)
    else if UrlState(s) then Some(Url)
    else if s.ResStatus? then Some(Status)
    else None
  }

  /** The span that is open after an action. */
  function OpenAfter(open: Option<Span>, a: Action): Option<Span> {
    match a
    case Mark(s) => if open.None? then Some(s) else open
    case Flush(s) => if open == Some(s) then None else open
    case FlushAfter(s) => if open == Some(s) then None else open
    case Notify(_) => open
  }

  function HeadAfter(h: Head, open: Option<Span>, a: Action, ch: byte): Head {
    match a
    case Flush(s) => if open == Some(s) then HeadOne(h, Data(s, [])) else h
    case FlushAfter(s) => if open == Some(s) then HeadOne(h, Data(s, [ch])) else h
    case _ => h
  }

  /** What the actions of a pass tell in a call for one byte, with at most one span open. */
  function Told(h: Head, open: Option<Span>, acts: seq<Action>, ch: byte): Head
    decreases |acts|
  {
    if acts == [] then if open.Some? then HeadOne(h, Data(open.value, [ch])) else h
    else Told(HeadAfter(h, open, acts[0], ch), OpenAfter(open, acts[0]), acts[1..], ch)
  }

  function MarkOf(open: Option<Span>): (m: Marks)
    ensures m.Keys == (if open.Some? then {open.value} else {}) && forall s :: s in m ==> m[s] == 0
  {
    if open.Some? then map[open.value := 0] else map[]
  }

  lemma LeftOverTold(h: Head, open: Option<Span>, ch: byte)
    ensures HeadSince(h, LeftOver(MarkOf(open), [ch])) == Told(h, open, [], ch)
  {
    hide HeadOne;
    assert [ch][0..] == [ch];
    if open.Some? {
      var e := Data(open.value, [ch]);
      assert LeftOver(MarkOf(open), [ch]) == [e] by {
        match open.value
        case Url =>
        case Status =>
        case Field =>
        case Value =>
        case Body =>
      }
      assert [e][1..] == [];
    }
  }

  lemma ActTold(h: Head, open: Option<Span>, a: Action, ch: byte)
    requires InOrder(MarkOf(open).Keys, a)
    ensures var r := Perform(a, MarkOf(open), [ch], 0);
            && r.marks == MarkOf(OpenAfter(open, a)) && HeadSince(h, r.events) == HeadAfter(h, open, a, ch)
  {
    assert [ch][0..0] == [] && [ch][0..1] == [ch];
    match a
    case Mark(s) =>
    case Flush(s) =>
      if open == Some(s) {
        assert MarkOf(open) - {s} == map[];
        assert [Data(s, [])][1..] == [];
      }
    case FlushAfter(s) =>
      assert MarkOf(open) - {s} == map[];
      assert [Data(s, [ch])][1..] == [];
    case Notify(n) => assert [Notice(n)][1..] == [];
  }

  lemma FlowsOn(open: Option<Span>, a: Action)
    requires InOrder(MarkOf(open).Keys, a)
    ensures FlowOne(MarkOf(open).Keys, a) == MarkOf(OpenAfter(open, a)).Keys
  {
  }

  lemma {:induction false} ActsTold(h: Head, open: Option<Span>, acts: seq<Action>, ch: byte)
    requires Orderly(MarkOf(open).Keys, acts)
    ensures var done := PerformAll(acts, MarkOf(open), [ch], 0);
            && done.marks.Keys == Flow(MarkOf(open).Keys, acts)
            && HeadSince(h, done.events + LeftOver(done.marks, [ch])) == Told(h, open, acts, ch)
    decreases |acts|
  {
    hide HeadOne;
    hide LeftOver;
    hide Perform;
    hide HeadAfter;
    hide OpenAfter;
    hide InOrder;
    hide FlowOne;
    hide MarkOf;
    hide HeadSince;
    if acts == [] {
      LeftOverTold(h, open, ch);
      assert [] + LeftOver(MarkOf(open), [ch]) == LeftOver(MarkOf(open), [ch]);
    } else {
      ActTold(h, open, acts[0], ch);
      FlowsOn(open, acts[0]);
      var first, next := Perform(acts[0], MarkOf(open), [ch], 0), OpenAfter(open, acts[0]);
      var rest := PerformAll(acts[1..], first.marks, [ch], 0);
      var more := rest.events + LeftOver(rest.marks, [ch]);
      assert first.events + rest.events + LeftOver(rest.marks, [ch]) == first.events + more;
      HeadAppend(h, first.events, more);
      ActsTold(HeadAfter(h, open, acts[0], ch), next, acts[1..], ch);
    }
  }

  /** A call for one byte tells what the actions of its pass tell. */
  lemma CallTold(p: Parser, h: Head, ch: byte)
    ensures var r := Execute(p, [ch]);
            !r.fate.Fail? ==> HeadSince(h, r.events) == Told(h, OpenSpan(p.state), Step(p, ch).acts, ch)
  {
    var m := InitialMarks(p.state);
    var open := OpenSpan(p.state);
    assert Fits(p.state, m.Keys);
    assert m == MarkOf(open);
    hide Fits;
    hide OpenSpans;
    hide InitialMarks;
    hide OpenSpan;
    hide Step;
    hide Execute;
    hide Told;
    hide PerformAll;
    OneByteCall(p, ch);
    StepIsTidy(p, ch, m.Keys);
    var pass := Step(p, ch);
    if !pass.fate.Fail? {
      ActsTold(h, open, pass.acts, ch);
      if pass.fate.Leave? {
        var done := PerformAll(pass.acts, m, [ch], 0);
        assert done.marks.Keys == {};
        assert done.events + LeftOver(done.marks, [ch]) == done.events;
      }
    }
  }

  // ---------------------------------------------------------------- the parser and what was told

  predicate InName(s: State) {
    s.HeaderField? || s.HeaderValueDiscardWs? || s.HeaderValueDiscardWsAlmostDone? || s.HeaderValueDiscardLws?
  }

  predicate BeforeValue(s: State) {
    s.HeaderValueDiscardWs? || s.HeaderValueDiscardWsAlmostDone? || s.HeaderValueDiscardLws?
  }

  predicate InValue(s: State) {
    s.HeaderValue? || s.HeaderAlmostDone? || s.HeaderValueLws?
  }

  /** The matching state of a Content-Length behind its first digit. */
  predicate LengthBegun(h: HeaderState) {
    h.ContentLengthNum? || h.ContentLengthWs?
  }

  /** The matching state is right about the name: within it, before its value and inside that. */
  predicate HeadOk(p: Parser, h: Head) {
    && !p.state.HeaderValueStart?
    && (h.inName <==> InName(p.state))
    && (InName(p.state) ==> h.name != [] && Matched(p.headerState, p.index, h.name))
    && (InValue(p.state) ==>
          !p.headerState.ContentLength? && (LengthBegun(p.headerState) <==> Is(h.name, CONTENT_LENGTH)))
  }

  /** After a pass it is right again, and the digits told are those that the parser has read. */
  predicate Tells(p: Parser, h: Head, ch: byte, open: Option<Span>, o: Pass) {
    !o.fate.Fail? ==>
      var t := Told(h, open, o.acts, ch);
      HeadOk(o.p, t) && DigitsIn(t.length) == NextDigits(p, DigitsIn(h.length), ch, o.p)
  }

  predicate NoHeadActs(acts: seq<Action>) {
    forall k :: 0 <= k < |acts| ==> acts[k] != Mark(Field) && acts[k] != Mark(Value)
  }

  lemma {:induction false} NothingTold(h: Head, open: Option<Span>, acts: seq<Action>, ch: byte)
    requires NoHeadActs(acts) && open != Some(Field) && open != Some(Value)
    ensures Told(h, open, acts, ch) == h
    decreases |acts|
  {
    if acts != [] {
      assert acts[0] != Mark(Field) && acts[0] != Mark(Value);
      NothingTold(h, OpenAfter(open, acts[0]), acts[1..], ch);
    }
  }

  /** The states that have nothing to do with the fields. */
  predicate Elsewhere(s: State) {
    !InName(s) && !InValue(s) && !s.HeaderValueStart?
  }

  lemma ElsewhereTells(p: Parser, h: Head, ch: byte, open: Option<Span>, o: Pass)
    requires !h.inName && Elsewhere(o.p.state) && NoHeadActs(o.acts) && open != Some(Field) && open != Some(Value)
    ensures Tells(p, h, ch, open, o)
  {
    NothingTold(h, open, o.acts, ch);
  }

  lemma FailTells(p: Parser, h: Head, ch: byte, open: Option<Span>, o: Pass)
    requires o.fate.Fail?
    ensures Tells(p, h, ch, open, o)
  {
  }

  lemma LineTells(p: Parser, h: Head, ch: byte)
    requires HeadOk(p, h) && !BodyState(p.state) && !HeaderLineState(p.state)
    ensures Tells(p, h, ch, OpenSpan(p.state), Switch(p, ch))
  {
    var o := Switch(p, ch);
    LineElsewhere(p, ch);
    hide Switch;
    hide Tells;
    if o.fate.Fail? {
      FailTells(p, h, ch, OpenSpan(p.state), o);
    } else {
      ElsewhereTells(p, h, ch, OpenSpan(p.state), o);
    }
  }

  lemma LineElsewhere(p: Parser, ch: byte)
    requires !BodyState(p.state) && !HeaderLineState(p.state)
    ensures var o := Switch(p, ch);
            !o.fate.Fail? ==> Elsewhere(o.p.state) && NoHeadActs(o.acts)
  {
    hide ResponseLine;
    hide RequestLine;
    hide StartReqByte;
    if Waiting(p.state) {
      WaitingElsewhere(p, ch);
    } else if ResponseState(p.state) {
      ResponseAlike(p, ch);
    } else if RequestState(p.state) {
      RequestAlike(p, ch);
    }
  }

  lemma WaitingElsewhere(p: Parser, ch: byte)
    requires Waiting(p.state)
    ensures var o := Switch(p, ch);
            !o.fate.Fail? ==> Elsewhere(o.p.state) && NoHeadActs(o.acts)
  {
    hide FirstGuess;
    hide IsAlpha;
  }

  lemma BodyTells(p: Parser, h: Head, ch: byte)
    requires HeadOk(p, h) && BodyState(p.state)
    ensures Tells(p, h, ch, OpenSpan(p.state), BodyPart(p, ch))
  {
    var o := BodyPart(p, ch);
    if o.fate.Fail? {
      FailTells(p, h, ch, OpenSpan(p.state), o);
    } else {
      BodyElsewhere(p, ch);
      hide BodyPart;
      hide Tells;
      ElsewhereTells(p, h, ch, OpenSpan(p.state), o);
    }
  }

  lemma BodyElsewhere(p: Parser, ch: byte)
    requires BodyState(p.state) && !BodyPart(p, ch).fate.Fail?
    ensures Elsewhere(BodyPart(p, ch).p.state) && NoHeadActs(BodyPart(p, ch).acts)
  {
    hide ShouldKeepAlive;
    hide Unhex;
  }

  // ---------------------------------------------------------------- the headers

  lemma AlmostDoneElsewhere(p: Parser, ch: byte)
    ensures var o := AlmostDone(p, ch);
            !o.fate.Fail? ==> Elsewhere(o.p.state) && NoHeadActs(o.acts)
  {
    hide ShouldKeepAlive;
    hide MessageNeedsEof;
  }

  /** The beginning of a field, or the end of the headers; `p0` is the parser before the pass. */
  lemma FieldStartTells(p: Parser, p0: Parser, h: Head, ch: byte)
    requires !h.inName
    ensures Tells(p0, h, ch, None, FieldStart(p, ch))
  {
    hide Token;
    hide AlmostDone;
    hide Matched;
    var o := FieldStart(p, ch);
    if o.fate.Fail? {
    } else if ch == CR {
      ElsewhereTells(p0, h, ch, None, o);
    } else if ch == LF {
      AlmostDoneElsewhere(p.(state := HeadersAlmostDone), ch);
      ElsewhereTells(p0, h, ch, None, o);
    } else {
      MatchedFirst(p, ch);
      assert o.acts[1..] == [];
      assert Told(h, None, o.acts, ch) == HeadOne(h, Data(Field, [ch]));
    }
  }

  lemma FieldTells(p: Parser, h: Head, ch: byte)
    requires HeadOk(p, h) && p.state.HeaderField?
    ensures Tells(p, h, ch, Some(Field), FieldByte(p, ch))
  {
    hide Token;
    hide FieldChar;
    hide Is;
    var o := FieldByte(p, ch);
    if Token(ch) != 0 {
      MatchedNext(p, h.name, ch);
      FieldCharAlike(p, ch);
      hide Matched;
      assert Told(h, Some(Field), [], ch) == HeadOne(h, Data(Field, [ch]));
    } else if ch == ':' as int {
      hide Matched;
      assert o.acts[1..] == [];
      assert h.name + [] == h.name;
      assert Told(h, Some(Field), o.acts, ch) == HeadOne(h, Data(Field, []));
    }
  }

  lemma NameKnown(p: Parser, h: Head)
    requires HeadOk(p, h) && BeforeValue(p.state)
    ensures h.inName && !LengthBegun(p.headerState)
    ensures p.headerState.ContentLength? <==> Is(h.name, CONTENT_LENGTH)
  {
    FieldIsExact(p.headerState, p.index, h.name);
  }

  /** The parser after a byte of a value. */
  lemma ValueOk(q: Parser, h: Head)
    requires q.state.HeaderValue? && !h.inName && !q.headerState.ContentLength?
    requires LengthBegun(q.headerState) <==> Is(h.name, CONTENT_LENGTH)
    ensures HeadOk(q, h)
  {
  }

  /** The first byte of a value. */
  lemma ValueStartTells(p: Parser, h: Head, ch: byte)
    requires HeadOk(p, h) && BeforeValue(p.state)
    ensures Tells(p, h, ch, None, ValueStart(p, ch))
  {
    NameKnown(p, h);
    hide HeadOk;
    hide Lower;
    hide Is;
    var o, t := ValueStart(p, ch), HeadOne(h, Data(Value, [ch]));
    assert o.acts == [Mark(Value)] && o.acts[1..] == [];
    assert Told(h, None, o.acts, ch) == t;
    if p.headerState.ContentLength? {
      if !o.fate.Fail? {
        DigitsMore([], ch);
        assert [] + [ch] == [ch];
        ValueOk(o.p, t);
      }
    } else {
      ValueStartAlike(p, ch);
      ValueStartBegun(p, ch);
      hide ValueStart;
      ValueOk(o.p, t);
    }
  }

  lemma ValueStartBegun(p: Parser, ch: byte)
    requires !p.headerState.ContentLength?
    ensures LengthBegun(ValueStart(p, ch).p.headerState) <==> p.headerState.ContentLengthWs?
  {
    hide Lower;
  }

  /** The first byte of a folded line, a blank. */
  lemma FoldTells(p: Parser, h: Head, ch: byte)
    requires HeadOk(p, h) && p.state.HeaderValueLws? && !IsNum(ch)
    ensures var q := if p.headerState.ContentLengthNum? then p.(headerState := ContentLengthWs) else p;
            Tells(p, h, ch, None, ValueStart(q.(state := HeaderValueStart), ch))
  {
    hide Lower;
    hide Is;
    var r := if p.headerState.ContentLengthNum? then p.(headerState := ContentLengthWs) else p;
    var q := r.(state := HeaderValueStart);
    var o := ValueStart(q, ch);
    ValueStartAlike(q, ch);
    ValueStartBegun(q, ch);
    hide ValueStart;
    hide Alike;
    assert o.acts[1..] == [];
    assert Told(h, None, o.acts, ch) == HeadOne(h, Data(Value, [ch]));
    DigitsMore(h.length, ch);
  }

  /** One digit more, or the blank behind the last. */
  lemma LengthTells(p: Parser, h: Head, ch: byte)
    requires HeadOk(p, h) && p.state.HeaderValue? && LengthBegun(p.headerState)
    ensures Tells(p, h, ch, Some(Value), ValueChar(p, ch))
  {
    hide Is;
    hide IsNum;
    hide Matched;
    var o, t := ValueChar(p, ch), HeadOne(h, Data(Value, [ch]));
    assert Told(h, Some(Value), [], ch) == t;
    DigitsMore(h.length, ch);
    BlankIsNone(ch);
    hide HeadOk;
    if o.fate.Fail? {
    } else if p.headerState.ContentLengthNum? {
      AtDigit(p, ch);
      hide ValueChar;
      ValueOk(o.p, t);
    } else {
      AfterLength(p, ch);
      hide ValueChar;
      ValueOk(o.p, t);
    }
  }

  lemma ValueCharTells(p: Parser, h: Head, ch: byte)
    requires HeadOk(p, h) && p.state.HeaderValue?
    ensures Tells(p, h, ch, Some(Value), ValueChar(p, ch))
  {
    hide Is;
    hide IsNum;
    hide Matched;
    hide ValueChar;
    if LengthBegun(p.headerState) {
      LengthTells(p, h, ch);
    } else {
      var o, t := ValueChar(p, ch), HeadOne(h, Data(Value, [ch]));
      ValueCharAlike(p, ch);
      hide Alike;
      assert Told(h, Some(Value), [], ch) == t;
      if !o.fate.Fail? {
        ValueOk(o.p, t);
        hide HeadOk;
      }
    }
  }

  lemma BlankIsNone(ch: byte)
    ensures ch == ' ' as int ==> !IsNum(ch)
  {
  }

  lemma AfterLength(p: Parser, ch: byte)
    requires p.headerState.ContentLengthWs?
    ensures !ValueChar(p, ch).fate.Fail? ==> ch == ' ' as int && ValueChar(p, ch).p == p
  {
  }

  lemma ValueTells(p: Parser, h: Head, ch: byte)
    requires HeadOk(p, h) && p.state.HeaderValue?
    ensures Tells(p, h, ch, Some(Value), ValueByte(p, ch))
  {
    hide ValueChar;
    hide IsHeaderChar;
    hide Is;
    ValueCharTells(p, h, ch);
    if ch == CR || ch == LF {
      var o := ValueByte(p, ch);
      assert o.acts == [Flush(Value)] && o.acts[1..] == [];
      assert h.length + [] == h.length;
      assert Told(h, Some(Value), o.acts, ch) == HeadOne(h, Data(Value, []));
    }
  }

  lemma NoValueTold(h: Head, acts: seq<Action>, ch: byte)
    ensures Told(h, None, [Mark(Value), Flush(Value)] + acts, ch) == Told(HeadOne(h, Data(Value, [])), None, acts, ch)
  {
    hide HeadOne;
    var all := [Mark(Value), Flush(Value)] + acts;
    assert all[1..] == [Flush(Value)] + acts && all[1..][1..] == acts;
    assert Told(h, None, all, ch) == Told(h, Some(Value), all[1..], ch);
    assert Told(h, Some(Value), all[1..], ch) == Told(HeadOne(h, Data(Value, [])), None, acts, ch);
  }

  /** A field without a value. */
  lemma EmptyTells(p: Parser, h: Head, ch: byte)
    requires HeadOk(p, h) && p.state.HeaderValueDiscardLws?
    ensures Tells(p, h, ch, None, DiscardLwsByte(p, ch))
  {
    NameKnown(p, h);
    var o := DiscardLwsByte(p, ch);
    if ch == ' ' as int || ch == 9 {
      MovesOn(p, h, ch, HeaderValueDiscardWs);
    } else if p.headerState.ContentLength? {
      FailTells(p, h, ch, None, o);
    } else {
      var q := Finished(p).(state := HeaderFieldStart);
      var h1 := HeadOne(h, Data(Value, []));
      assert !h1.inName && h1.length == h.length;
      FieldStartTells(q, p, h1, ch);
      NoValueTold(h, FieldStart(q, ch).acts, ch);
      hide FieldStart;
      hide Finished;
      hide HeadOk;
      hide Told;
      hide HeadOne;
    }
  }

  lemma LwsTells(p: Parser, h: Head, ch: byte)
    requires HeadOk(p, h) && p.state.HeaderValueLws?
    ensures Tells(p, h, ch, None, LwsByte(p, ch))
  {
    FieldStartTells(Finished(p).(state := HeaderFieldStart), p, h, ch);
    if ch == ' ' as int || ch == 9 {
      FoldTells(p, h, ch);
    }
    hide FieldStart;
    hide ValueStart;
    hide Finished;
    hide Tells;
  }

  /** The states that only move on, among blanks and line ends. */
  lemma BlankTells(p: Parser, h: Head, ch: byte)
    requires HeadOk(p, h) && (p.state.HeaderValueDiscardWs? || p.state.HeaderValueDiscardWsAlmostDone?
                              || p.state.HeaderAlmostDone?)
    ensures Tells(p, h, ch, None, HeaderLine(p, ch))
  {
    var o := HeaderLine(p, ch);
    if p.state.HeaderValueDiscardWs? {
      ValueStartTells(p, h, ch);
    }
    hide ValueStart;
    if o.fate.Fail? {
      FailTells(p, h, ch, None, o);
    } else if o != ValueStart(p, ch) {
      assert o == To(p, o.p.state);
      MovesOn(p, h, ch, o.p.state);
    }
  }

  lemma MovesOn(p: Parser, h: Head, ch: byte, s: State)
    requires HeadOk(p, h) && (if BeforeValue(p.state) then BeforeValue(s) else InValue(p.state) && InValue(s))
    requires !s.HeaderValue?
    ensures Tells(p, h, ch, None, To(p, s))
  {
    hide Matched;
    hide Is;
  }

  lemma HeaderTells(p: Parser, h: Head, ch: byte)
    requires HeadOk(p, h) && HeaderLineState(p.state) && !p.state.HeadersDone?
    ensures Tells(p, h, ch, OpenSpan(p.state), HeaderLine(p, ch))
  {
    hide FieldStart;
    hide FieldByte;
    hide ValueByte;
    hide LwsByte;
    hide DiscardLwsByte;
    hide AlmostDone;
    hide Tells;
    if p.state.HeaderField? {
      FieldTells(p, h, ch);
    } else if p.state.HeaderValue? {
      ValueTells(p, h, ch);
    } else if p.state.HeaderValueLws? {
      LwsTells(p, h, ch);
    } else if p.state.HeaderValueDiscardLws? {
      EmptyTells(p, h, ch);
    } else if p.state.HeaderFieldStart? {
      FieldStartTells(p, p, h, ch);
    } else if p.state.HeadersAlmostDone? {
      AlmostDoneTells(p, h, ch);
    } else {
      BlankTells(p, h, ch);
    }
  }

  lemma AlmostDoneTells(p: Parser, h: Head, ch: byte)
    requires HeadOk(p, h) && p.state.HeadersAlmostDone?
    ensures Tells(p, h, ch, None, AlmostDone(p, ch))
  {
    hide AlmostDone;
    AlmostDoneElsewhere(p, ch);
    if !AlmostDone(p, ch).fate.Fail? {
      ElsewhereTells(p, h, ch, None, AlmostDone(p, ch));
    }
  }

  // ---------------------------------------------------------------- calls and runs

  lemma SwitchTells(p: Parser, h: Head, ch: byte)
    requires HeadOk(p, h) && !p.state.HeadersDone?
    ensures Tells(p, h, ch, OpenSpan(p.state), Switch(p, ch))
  {
    hide Switch;
    hide Tells;
    hide HeadOk;
    hide OpenSpan;
    SwitchOn(p, ch);
    if HeaderLineState(p.state) {
      HeaderTells(p, h, ch);
    } else if BodyState(p.state) {
      BodyTells(p, h, ch);
    } else {
      LineTells(p, h, ch);
    }
  }

  lemma CountedTells(p: Parser, h: Head, ch: byte)
    requires Sound(p) && HeadOk(p, h)
    ensures var q := p.(nread := p.nread + 1);
            HeadOk(q, h) && OpenSpan(q.state) == OpenSpan(p.state) && !p.state.HeadersDone?
  {
    hide Matched;
    hide Is;
  }

  lemma SameTells(p: Parser, q: Parser, h: Head, ch: byte, open: Option<Span>, o: Pass)
    requires q.state == p.state && Tells(q, h, ch, open, o)
    ensures Tells(p, h, ch, open, o)
  {
  }

  lemma StepTells(p: Parser, h: Head, ch: byte)
    requires Sound(p) && HeadOk(p, h)
    ensures Tells(p, h, ch, OpenSpan(p.state), Step(p, ch))
  {
    CountedTells(p, h, ch);
    StepIs(p, ch);
    hide *;
    var q := p.(nread := p.nread + 1);
    if !ParsingHeader(p.state) {
      SwitchTells(p, h, ch);
    } else if p.nread >= MAX_HEADER_SIZE {
      FailTells(p, h, ch, OpenSpan(p.state), Step(p, ch));
    } else {
      SwitchTells(q, h, ch);
      SameTells(p, q, h, ch, OpenSpan(p.state), Step(p, ch));
    }
  }

  /** A call for one byte, with what its callbacks tell. */
  lemma CallTells(p: Parser, h: Head, ch: byte)
    requires Sound(p) && HeadOk(p, h)
    ensures var r := Execute(p, [ch]);
            var t := HeadSince(h, r.events);
            !r.fate.Fail? ==> HeadOk(r.p, t) && DigitsIn(t.length) == NextDigits(p, DigitsIn(h.length), ch, r.p)
  {
    hide Execute;
    hide Step;
    hide Sound;
    hide HeadOk;
    hide OpenSpan;
    hide Told;
    OneByteCall(p, ch);
    CallTold(p, h, ch);
    StepTells(p, h, ch);
  }

  lemma {:induction false} BytewiseTells(p: Parser, a: seq<Event>, data: seq<byte>)
    requires Sound(p) && HeadOk(p, HeadSince(NO_HEAD, a))
    requires Books(p, DigitsIn(HeadSince(NO_HEAD, a).length), GivenSince([], a))
    ensures var o := Bytewise(p, a, data);
            var t := HeadSince(NO_HEAD, o.events);
            !o.fate.Fail? ==> HeadOk(o.p, t) && Books(o.p, DigitsIn(t.length), GivenSince([], o.events))
    decreases |data|
  {
    hide Execute;
    hide Step;
    hide Sound;
    hide Books;
    hide HeadOk;
    hide Join;
    hide HeadSince;
    hide GivenSince;
    hide DigitsIn;
    if data != [] {
      var ch, h := data[0], HeadSince(NO_HEAD, a);
      assert data[..1] == [ch];
      var r := Execute(p, [ch]);
      StepKeepsSound(p, ch);
      OneByteCall(p, ch);
      CallBooks(p, DigitsIn(h.length), GivenSince([], a), ch);
      CallTells(p, h, ch);
      GivenJoin([], a, r.events);
      HeadJoin(NO_HEAD, a, r.events);
      if r.fate.Go? {
        BytewiseTells(r.p, Join(a, r.events), data[1..]);
      }
    }
  }

  lemma StartTells(t: Type)
    ensures HeadOk(Init(t), NO_HEAD) && Books(Init(t), DigitsIn(NO_HEAD.length), [])
    ensures HeadSince(NO_HEAD, []) == NO_HEAD && GivenSince([], []) == []
  {
    StartBooks(t);
  }

  /** Any run from the start, fed in any buffers. */
  lemma FeedTells(t: Type, buffers: seq<seq<byte>>)
    requires forall k :: 0 <= k < |buffers| ==> buffers[k] != []
    ensures var o := Feed(Init(t), [], buffers);
            var h := HeadSince(NO_HEAD, o.events);
            !o.fate.Fail? ==> HeadOk(o.p, h) && Books(o.p, DigitsIn(h.length), GivenSince([], o.events))
  {
    hide Feed;
    hide Bytewise;
    hide HeadOk;
    hide Books;
    StartTells(t);
    FeedIsBytewise(Init(t), [], buffers);
    BytewiseTells(Init(t), [], Flatten(buffers));
  }

  /**
    The declared length over a whole run: when a parser that has been fed any buffers stands between two
    messages, and the last one had a Content-Length and no chunks, the bytes given to `on_body` since
    `on_headers_complete` are as many as the digits say in the value that was given for the last field named
    "content-length"; a CONNECT request hands its body on instead.
   */
  lemma DeclaredLength(t: Type, buffers: seq<seq<byte>>)
    requires forall k :: 0 <= k < |buffers| ==> buffers[k] != []
    ensures var o := Feed(Init(t), [], buffers);
            !o.fate.Fail? && Waiting(o.p.state) && Declares(o.p.flags) ==>
              var given, value := GivenSince([], o.events), HeadSince(NO_HEAD, o.events).length;
              |given| == Decimal(0, DigitsIn(value)) || (o.p.upgrade && o.p.verb == CONNECT && given == [])
  {
    hide Feed;
    hide HeadOk;
    FeedTells(t, buffers);
  }

  /**
    Field names over a whole run: where a name has ended, the parser takes the field for one of those it
    knows just when the name that was given is that one, in upper or lower case.
   */
  lemma FieldsAreKnown(t: Type, buffers: seq<seq<byte>>)
    requires forall k :: 0 <= k < |buffers| ==> buffers[k] != []
    ensures var o := Feed(Init(t), [], buffers);
            var name := HeadSince(NO_HEAD, o.events).name;
            !o.fate.Fail? && BeforeValue(o.p.state) ==>
              && (o.p.headerState.ContentLength? <==> Is(name, CONTENT_LENGTH))
              && (o.p.headerState.TransferEncoding? <==> Is(name, TRANSFER_ENCODING))
              && (o.p.headerState.Upgrade? <==> Is(name, UPGRADE))
              && (o.p.headerState.Connection? <==> Is(name, CONNECTION) || Is(name, PROXY_CONNECTION))
  {
    hide Feed;
    hide Books;
    FeedTells(t, buffers);
    var o := Feed(Init(t), [], buffers);
    var h := HeadSince(NO_HEAD, o.events);
    if !o.fate.Fail? && BeforeValue(o.p.state) {
      FieldIsExact(o.p.headerState, o.p.index, h.name);
    }
  }
}
