/**
  Calls of `http_parser_execute` (http/src/http_parser.c) on whole buffers, byte by byte: the marks, the
  callbacks they lead to, and why it does not matter how the input is cut into buffers.
 */
module HttpRuns {
  import opened Common
  import opened HttpModel

  datatype Event = Data(span: Span, bytes: seq<byte>) | Notice(notice: Notice)

  type Marks = map<Span, nat>

  datatype Marked = Marked(marks: Marks, events: seq<Event>)

  /** One action, at index `i` of the buffer. */
  function Perform(a: Action, marks: Marks, data: seq<byte>, i: nat): Marked
    requires i < |data| && forall s :: s in marks ==> marks[s] <= i
  {
    match a
    case Mark(s) => Marked(if s in marks then marks else marks[s := i], [])
    case Flush(s) => if s in marks then Marked(marks - {s}, [Data(s, data[marks[s]..i])]) else Marked(marks, [])
    case FlushAfter(s) =>
      if s in marks then Marked(marks - {s}, [Data(s, data[marks[s]..i + 1])]) else Marked(marks, [])
    case Notify(n) => Marked(marks, [Notice(n)])
  }

  function PerformAll(acts: seq<Action>, marks: Marks, data: seq<byte>, i: nat): (r: Marked)
    requires i < |data| && forall s :: s in marks ==> marks[s] <= i
    ensures forall s :: s in r.marks ==> r.marks[s] <= i
    decreases |acts|
  {
    if acts == [] then Marked(marks, []) else
    var first := Perform(acts[0], marks, data, i);
    var rest := PerformAll(acts[1..], first.marks, data, i);
    Marked(rest.marks, first.events + rest.events)
  }

  /** The span a state is in the middle of; bodies are marked byte by byte. */
  function OpenSpans(s: State): set<Span> {
    if s.HeaderField? then {Field}
    else if s.HeaderValue? then {Value}
    else if UrlState(s) then {Url}
    else if s.ResStatus? then {Status}
    else {}
  }

  /** The marks a call starts with: in the middle of a span, at the first byte. */
  function InitialMarks(s: State): (m: Marks)
    ensures m.Keys == OpenSpans(s) && forall x :: x in m ==> m[x] == 0
  {
    if s.HeaderField? then map[Field := 0]
    else if s.HeaderValue? then map[Value := 0]
    else if UrlState(s) then map[Url := 0]
    else if s.ResStatus? then map[Status := 0]
    else map[]
  }

  /** The callbacks for what is still marked at the end of a buffer. */
  function LeftOver(marks: Marks, data: seq<byte>): seq<Event>
    requires forall s :: s in marks ==> marks[s] <= |data|
  {
    (if Field in marks then [Data(Field, data[marks[Field]..])] else [])
    + (if Value in marks then [Data(Value, data[marks[Value]..])] else [])
    + (if Url in marks then [Data(Url, data[marks[Url]..])] else [])
    + (if Body in marks then [Data(Body, data[marks[Body]..])] else [])
    + (if Status in marks then [Data(Status, data[marks[Status]..])] else [])
  }

  datatype Result = Result(p: Parser, events: seq<Event>, fate: Fate, consumed: nat)

  /** The rest of a call, from index `i` on. */
  function From(p: Parser, marks: Marks, data: seq<byte>, i: nat): (r: Result)
    requires i <= |data| && forall s :: s in marks ==> marks[s] <= i
    ensures i <= r.consumed <= |data|
    decreases |data| - i
  {
    if i == |data| then Result(p, LeftOver(marks, data), Go, i) else
    var pass := Step(p, data[i]);
    var done := PerformAll(pass.acts, marks, data, i);
    match pass.fate
    case Fail(e) => Result(pass.p, done.events, pass.fate, i)
    case Leave => Result(pass.p, done.events, Leave, i + 1)
    case Go =>
      var rest := From(pass.p, done.marks, data, i + 1);
      rest.(events := done.events + rest.events)
  }

  /** One call of `http_parser_execute` on a buffer that is not empty. */
  function Execute(p: Parser, data: seq<byte>): Result {
    From(p, InitialMarks(p.state), data, 0)
  }

  // ---------------------------------------------------------------- joining adjacent data callbacks

  function JoinOne(acc: seq<Event>, e: Event): seq<Event> {
    if e.Data? && acc != [] && acc[|acc| - 1].Data? && acc[|acc| - 1].span == e.span
    then acc[..|acc| - 1] + [Data(e.span, acc[|acc| - 1].bytes + e.bytes)]
    else acc + [e]
  }

  function Join(acc: seq<Event>, events: seq<Event>): seq<Event>
    decreases |events|
  {
    if events == [] then acc else Join(JoinOne(acc, events[0]), events[1..])
  }

  lemma {:induction false} JoinAppend(acc: seq<Event>, a: seq<Event>, b: seq<Event>)
    ensures Join(acc, a + b) == Join(Join(acc, a), b)
    decreases |a|
  {
    if a == [] {
      assert a + b == b;
    } else {
      assert (a + b)[1..] == a[1..] + b;
      JoinAppend(JoinOne(acc, a[0]), a[1..], b);
    }
  }

  predicate EndsIn(acc: seq<Event>, s: Span) {
    acc != [] && acc[|acc| - 1].Data? && acc[|acc| - 1].span == s
  }

  lemma JoinData(acc: seq<Event>, s: Span, x: seq<byte>, y: seq<byte>)
    ensures JoinOne(JoinOne(acc, Data(s, x)), Data(s, y)) == JoinOne(acc, Data(s, x + y))
    ensures EndsIn(JoinOne(acc, Data(s, x)), s)
  {
    if EndsIn(acc, s) {
      var last := acc[|acc| - 1].bytes;
      assert (last + x) + y == last + (x + y);
    }
  }

  lemma JoinNothing(acc: seq<Event>, s: Span)
    requires EndsIn(acc, s)
    ensures JoinOne(acc, Data(s, [])) == acc
  {
    assert acc[|acc| - 1].bytes + [] == acc[|acc| - 1].bytes;
  }

  // ---------------------------------------------------------------- marks and states

  predicate BodySpanState(s: State) {
    s.BodyIdentity? || s.BodyIdentityEof? || s.ChunkData? || s.ChunkDataAlmostDone?
  }

  /** Which spans can be marked between two bytes. */
  predicate Fits(s: State, m: set<Span>) {
    if BodySpanState(s) then m <= {Body} else m == OpenSpans(s)
  }

  function FlowOne(m: set<Span>, a: Action): set<Span> {
    match a
    case Mark(s) => m + {s}
    case Flush(s) => m - {s}
    case FlushAfter(s) => m - {s}
    case Notify(_) => m
  }

  function Flow(m: set<Span>, acts: seq<Action>): set<Span>
    decreases |acts|
  {
    if acts == [] then m else Flow(FlowOne(m, acts[0]), acts[1..])
  }

  /** The action does not meet a span other than its own still open. */
  predicate InOrder(m: set<Span>, a: Action) {
    match a
    case Mark(s) => m <= {s}
    case Flush(s) => m <= {s}
    case FlushAfter(s) => m == {s}
    case Notify(_) => m == {}
  }

  predicate Orderly(m: set<Span>, acts: seq<Action>)
    decreases |acts|
  {
    acts == [] || (InOrder(m, acts[0]) && Orderly(FlowOne(m, acts[0]), acts[1..]))
  }

  /** From the open spans `m`, and from those a new call would start with, the pass leads to the same. */
  ghost predicate Tidy(o: Pass, m: set<Span>, m0: set<Span>) {
    !o.fate.Fail? ==>
      && Orderly(m, o.acts) && Orderly(m0, o.acts) && Flow(m, o.acts) == Flow(m0, o.acts)
      && (if o.fate.Leave? then Flow(m, o.acts) == {} else Fits(o.p.state, Flow(m, o.acts)))
  }

  lemma Tidy0(p: Parser, m: set<Span>, f: Fate)
    requires f.Go? ==> Fits(p.state, m)
    requires f.Leave? ==> m == {}
    ensures Tidy(Pass(p, [], f), m, m)
  {
  }

  /** A pass that begins with one action. */
  lemma TidyCons(a: Action, o: Pass, m: set<Span>, m0: set<Span>)
    requires !o.fate.Fail? ==> InOrder(m, a) && InOrder(m0, a)
    requires Tidy(o, FlowOne(m, a), FlowOne(m0, a))
    ensures Tidy(After([a], o), m, m0)
  {
    assert ([a] + o.acts)[1..] == o.acts;
  }

  lemma Tidy1(p: Parser, a: Action, f: Fate, m: set<Span>, m0: set<Span>)
    requires f.Fail? || (InOrder(m, a) && InOrder(m0, a) && FlowOne(m, a) == FlowOne(m0, a))
    requires f.Go? ==> Fits(p.state, FlowOne(m, a))
    requires f.Leave? ==> FlowOne(m, a) == {}
    ensures Tidy(Pass(p, [a], f), m, m0)
  {
    assert [a][1..] == [];
  }

  lemma ResponseTidy(p: Parser, ch: byte)
    requires ResponseState(p.state)
    ensures Tidy(ResponseLine(p, ch), OpenSpans(p.state), OpenSpans(p.state))
  {
    hide Tidy;
    var o := ResponseLine(p, ch);
    var m := OpenSpans(p.state);
    if p.state.ResStatus? {
      StatusTidy(p, ch);
    } else if p.state.ResStatusStart? || (p.state.ResStatusCode? && (ch == CR || ch == LF)) {
      StatusStartTidy(p, ch);
      StatusStartTidy(p.(state := ResStatusStart), ch);
    } else if p.state.StartRes? && ch == 'H' as int {
      Tidy1(o.p, Notify(MessageBegin), Go, {}, {});
    } else {
      assert o.acts == [] && (o.fate.Go? ==> OpenSpans(o.p.state) == {});
      if !o.fate.Fail? { Tidy0(o.p, {}, o.fate); } else { Tidy0(o.p, {}, o.fate); }
    }
  }

  lemma StatusTidy(p: Parser, ch: byte)
    requires p.state.ResStatus?
    ensures Tidy(StatusByte(p, ch), {Status}, {Status})
  {
    var o := StatusByte(p, ch);
    if ch == CR || ch == LF {
      Tidy1(o.p, Flush(Status), Go, {Status}, {Status});
    } else {
      Tidy0(p, {Status}, Go);
    }
  }

  lemma StatusStartTidy(p: Parser, ch: byte)
    ensures Tidy(StatusStartByte(p, ch), {}, {})
  {
    var q := p.(state := ResStatus, index := 0);
    StatusTidy(q, ch);
    Tidy0(q, {Status}, Go);
    var o := if ch == CR || ch == LF then StatusByte(q, ch) else Pass(q, [], Go);
    TidyCons(Mark(Status), o, {}, {});
  }

  predicate RequestState(s: State) {
    && !s.Dead? && !s.StartReqOrRes? && !s.ResOrRespH? && !ResponseState(s) && !HeaderLineState(s) && !BodyState(s)
  }

  lemma UrlByteTidy(p: Parser, ch: byte)
    requires UrlState(p.state) || p.state.ReqSpacesBeforeUrl?
    ensures Tidy(UrlByte(p, ch), {Url}, {Url})
  {
    hide IsUserInfoChar;
    hide IsUrlChar;
    hide IsAlpha;
    var o := UrlByte(p, ch);
    assert o.acts == [] && (o.fate.Go? ==> UrlState(o.p.state));
    Tidy0(o.p, {Url}, o.fate);
  }

  lemma StartReqTidy(p: Parser, ch: byte)
    requires p.state.StartReq?
    ensures Tidy(StartReqByte(p, ch), {}, {})
  {
    hide Tidy;
    hide IsAlpha;
    hide FirstGuess;
    var o := StartReqByte(p, ch);
    if o.acts == [] {
      Tidy0(o.p, {}, o.fate);
    } else {
      Tidy1(o.p, Notify(MessageBegin), Go, {}, {});
    }
  }

  lemma UrlTidy(p: Parser, ch: byte)
    requires UrlState(p.state)
    ensures Tidy(RequestLine(p, ch), {Url}, {Url})
  {
    hide Tidy;
    hide UrlByte;
    hide IsAlpha;
    var o := RequestLine(p, ch);
    UrlByteTidy(p, ch);
    assert FlowOne({Url}, Flush(Url)) == {};
    if ch == ' ' as int || ch == CR || ch == LF {
      if o.fate.Fail? {
        FailTidy(o, {Url}, {Url});
      } else {
        Tidy1(o.p, Flush(Url), Go, {Url}, {Url});
      }
    }
  }

  lemma RequestTidy(p: Parser, ch: byte)
    requires RequestState(p.state)
    ensures Tidy(RequestLine(p, ch), OpenSpans(p.state), OpenSpans(p.state))
  {
    hide Tidy;
    hide UrlByte;
    hide IsAlpha;
    var o := RequestLine(p, ch);
    if p.state.StartReq? {
      StartReqTidy(p, ch);
    } else if UrlState(p.state) {
      UrlTidy(p, ch);
    } else if p.state.ReqSpacesBeforeUrl? && ch != ' ' as int {
      var q := if p.verb == CONNECT then p.(state := ReqServerStart) else p;
      UrlByteTidy(q, ch);
      assert FlowOne({}, Mark(Url)) == {Url};
      TidyCons(Mark(Url), UrlByte(q, ch), {}, {});
    } else {
      assert o.acts == [];
      assert o.fate.Go? ==> OpenSpans(o.p.state) == {} && !BodySpanState(o.p.state);
      Tidy0(o.p, {}, o.fate);
    }
  }

  lemma CompleteTidy(p: Parser, f: Fate)
    ensures Tidy(Complete(p, f), {}, {})
  {
    Tidy1(p.(state := NewMessage(p)), Notify(MessageComplete), f, {}, {});
  }

  lemma HeadersDoneTidy(p: Parser, ch: byte)
    ensures Tidy(HeadersDoneByte(p, ch), {}, {})
  {
    hide Tidy;
    hide MessageNeedsEof;
    var q := p.(nread := 0);
    CompleteTidy(q, Leave);
    CompleteTidy(q, Go);
    var o := HeadersDoneByte(p, ch);
    if o.acts == [] {
      Tidy0(o.p, {}, o.fate);
    }
  }

  lemma AlmostDoneTidy(p: Parser, ch: byte)
    ensures Tidy(AlmostDone(p, ch), {}, {})
  {
    hide Tidy;
    hide HeadersDoneByte;
    hide Complete;
    var o := AlmostDone(p, ch);
    if o.acts == [] && o.fate.Fail? {
      Tidy0(o.p, {}, o.fate);
    }
    if ch == LF && p.flags.trailing {
      var q := p.(state := MessageDone);
      CompleteTidy(q, if q.upgrade then Leave else Go);
      TidyCons(Notify(ChunkComplete), MessageDoneByte(q), {}, {});
    } else if ch == LF && !(p.flags.chunked && p.flags.contentLength) {
      var upgrade := if p.flags.upgrade && p.flags.connectionUpgrade
                     then p.kind.Request? || p.statusCode == 101 else p.verb == CONNECT;
      var q := p.(state := HeadersDone, upgrade := upgrade);
      HeadersDoneTidy(q, ch);
      TidyCons(Notify(HeadersComplete), HeadersDoneByte(q, ch), {}, {});
    } else {
      Tidy0(o.p, {}, o.fate);
    }
  }

  lemma FieldStartTidy(p: Parser, ch: byte)
    ensures Tidy(FieldStart(p, ch), {}, {})
  {
    hide Tidy;
    hide Token;
    hide AlmostDone;
    var o := FieldStart(p, ch);
    if ch == CR {
      Tidy0(o.p, {}, o.fate);
    } else if ch == LF {
      AlmostDoneTidy(p.(state := HeadersAlmostDone), ch);
    } else if o.acts == [] {
      Tidy0(o.p, {}, o.fate);
    } else {
      Tidy1(o.p, Mark(Field), Go, {}, {});
    }
  }

  lemma ValueStartTidy(p: Parser, ch: byte)
    ensures Tidy(ValueStart(p, ch), {}, {})
  {
    hide Tidy;
    var o := ValueStart(p, ch);
    assert o.acts == [Mark(Value)] && o.p.state == HeaderValue;
    Tidy1(o.p, Mark(Value), o.fate, {}, {});
  }

  lemma ValueTidy(p: Parser, ch: byte)
    requires p.state.HeaderValue?
    ensures Tidy(ValueByte(p, ch), {Value}, {Value})
  {
    hide Tidy;
    hide Along;
    hide IsHeaderChar;
    hide LengthDigit;
    hide ConnectionEnd;
    var o := ValueByte(p, ch);
    if ch == CR {
      Tidy1(o.p, Flush(Value), Go, {Value}, {Value});
    } else if ch == LF {
      var next := HeaderAlmostDoneByte(p.(state := HeaderAlmostDone), ch);
      Tidy0(next.p, {}, next.fate);
      assert FlowOne({Value}, Flush(Value)) == {};
      TidyCons(Flush(Value), next, {Value}, {Value});
    } else {
      ValueCharKeeps(p, ch);
      Tidy0(o.p, {Value}, o.fate);
    }
  }

  lemma ValueCharKeeps(p: Parser, ch: byte)
    requires p.state.HeaderValue?
    ensures ValueChar(p, ch).acts == [] && ValueChar(p, ch).p.state == p.state && !ValueChar(p, ch).fate.Leave?
  {
  }

  lemma DiscardLwsTidy(p: Parser, ch: byte)
    ensures Tidy(DiscardLwsByte(p, ch), {}, {})
  {
    hide Tidy;
    hide FieldStart;
    var o := DiscardLwsByte(p, ch);
    if ch == ' ' as int || ch == 9 || p.headerState.ContentLength? {
      Tidy0(o.p, {}, o.fate);
    } else {
      var next := FieldStart(Finished(p).(state := HeaderFieldStart), ch);
      FieldStartTidy(Finished(p).(state := HeaderFieldStart), ch);
      assert FlowOne({Value}, Flush(Value)) == {};
      TidyCons(Flush(Value), next, {Value}, {Value});
      assert FlowOne({}, Mark(Value)) == {Value};
      TidyCons(Mark(Value), After([Flush(Value)], next), {}, {});
      assert [Mark(Value)] + ([Flush(Value)] + next.acts) == [Mark(Value), Flush(Value)] + next.acts;
    }
  }

  lemma FieldTidy(p: Parser, ch: byte)
    requires p.state.HeaderField?
    ensures Tidy(FieldByte(p, ch), {Field}, {Field})
  {
    hide Tidy;
    var o := FieldByte(p, ch);
    if Token(ch) != 0 {
      assert FieldChar(p, ch).state == p.state;
      Tidy0(o.p, {Field}, Go);
    } else if ch == ':' as int {
      Tidy1(o.p, Flush(Field), Go, {Field}, {Field});
    } else {
      Tidy0(o.p, {Field}, o.fate);
    }
  }

  lemma HeaderTidy(p: Parser, ch: byte)
    requires HeaderLineState(p.state)
    ensures Tidy(HeaderLine(p, ch), OpenSpans(p.state), OpenSpans(p.state))
  {
    hide Tidy;
    hide FieldStart;
    hide FieldByte;
    hide ValueStart;
    hide ValueByte;
    hide DiscardLwsByte;
    hide AlmostDone;
    hide HeadersDoneByte;
    hide Finished;
    var o := HeaderLine(p, ch);
    FieldStartTidy(p, ch);
    FieldStartTidy(Finished(p).(state := HeaderFieldStart), ch);
    ValueStartTidy(p, ch);
    DiscardLwsTidy(p, ch);
    AlmostDoneTidy(p, ch);
    HeadersDoneTidy(p, ch);
    if p.state.HeaderField? {
      FieldTidy(p, ch);
    } else if p.state.HeaderValue? {
      ValueTidy(p, ch);
    } else if p.state.HeaderValueLws? {
      var q := if p.headerState.ContentLengthNum? then p.(headerState := ContentLengthWs) else p;
      ValueStartTidy(q.(state := HeaderValueStart), ch);
    } else if p.state.HeaderValueDiscardWs? || p.state.HeaderValueDiscardWsAlmostDone? || p.state.HeaderAlmostDone? {
      if p.state.HeaderValueDiscardWs? && !(ch == ' ' as int || ch == 9 || ch == CR || ch == LF) {
      } else {
        Tidy0(o.p, {}, o.fate);
      }
    }
  }

  lemma BodyTidy(p: Parser, ch: byte, m: set<Span>)
    requires BodyState(p.state) && Fits(p.state, m)
    ensures Tidy(BodyPart(p, ch), m, {})
  {
    hide Tidy;
    hide Complete;
    hide Unhex;
    var o := BodyPart(p, ch);
    if p.state.BodyIdentity? {
      var q := p.(contentLength := if p.contentLength > 0 then p.contentLength - 1 else 0);
      if q.contentLength == 0 {
        var d := q.(state := MessageDone);
        CompleteTidy(d, if d.upgrade then Leave else Go);
        var next := MessageDoneByte(d);
        assert FlowOne({Body}, FlushAfter(Body)) == {};
        TidyCons(FlushAfter(Body), next, {Body}, {Body});
        assert FlowOne(m, Mark(Body)) == {Body} == FlowOne({}, Mark(Body));
        TidyCons(Mark(Body), After([FlushAfter(Body)], next), m, {});
        assert [Mark(Body)] + ([FlushAfter(Body)] + next.acts) == [Mark(Body), FlushAfter(Body)] + next.acts;
      } else {
        Tidy1(o.p, Mark(Body), Go, m, {});
      }
    } else if p.state.BodyIdentityEof? || p.state.ChunkData? {
      Tidy1(o.p, Mark(Body), Go, m, {});
    } else if p.state.ChunkDataAlmostDone? {
      if ch == CR {
        Tidy1(o.p, Flush(Body), Go, m, {});
      } else {
        FailTidy(o, m, {});
      }
    } else if p.state.MessageDone? {
      CompleteTidy(p, if p.upgrade then Leave else Go);
    } else if o.acts == [] {
      Tidy0(o.p, {}, o.fate);
    } else {
      assert o.acts == [o.acts[0]];
      Tidy1(o.p, o.acts[0], o.fate, {}, {});
    }
  }

  lemma FailTidy(o: Pass, m: set<Span>, m0: set<Span>)
    requires o.fate.Fail?
    ensures Tidy(o, m, m0)
  {
  }

  /** In every state, at most one span is open, and every pass closes what it opens beside it. */
  lemma SwitchIsTidy(p: Parser, ch: byte, m: set<Span>)
    requires Fits(p.state, m)
    ensures Tidy(Switch(p, ch), m, OpenSpans(p.state))
  {
    hide Tidy;
    hide ResponseLine;
    hide HeaderLine;
    hide BodyPart;
    hide RequestLine;
    hide StartReqByte;
    if p.state.Dead? {
      var o := Switch(p, ch);
      Tidy0(o.p, {}, o.fate);
    } else if p.state.StartReqOrRes? {
      var q := p.(flags := NO_FLAGS, contentLength := ULLONG_MAX);
      StartReqTidy(q.(kind := Request, state := StartReq), ch);
      Tidy1(q.(state := ResOrRespH), Notify(MessageBegin), Go, {}, {});
      Tidy0(p, {}, Go);
    } else if p.state.ResOrRespH? {
      var o := Switch(p, ch);
      Tidy0(o.p, {}, o.fate);
    } else if ResponseState(p.state) {
      ResponseTidy(p, ch);
    } else if HeaderLineState(p.state) {
      HeaderTidy(p, ch);
    } else if BodyState(p.state) {
      BodyTidy(p, ch, m);
    } else {
      RequestTidy(p, ch);
    }
  }
}
