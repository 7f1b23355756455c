/**
  `http_parser_execute` (http/src/http_parser.c) with the loops that run over many bytes at once: over a
  header field name, over a header value and over body data.  They refine stepping byte by byte.
 */
module HttpExecute {
  import opened Common
  import opened HttpModel
  import opened HttpRuns
  import opened HttpCuts

  import opened HttpSound
  import Bodies = HttpBodies

  /** What is left of a call, after the events made so far. */
  function Prepend(made: seq<Event>, r: Result): Result {
    r.(events := made + r.events)
  }

  predicate Below(marks: Marks, i: nat) {
    forall s :: s in marks ==> marks[s] <= i
  }

  // ---------------------------------------------------------------- what one byte of a run does

  lemma Overflow(p: Parser, marks: Marks, data: seq<byte>, i: nat)
    requires i < |data| && Below(marks, i) && ParsingHeader(p.state) && p.nread >= MAX_HEADER_SIZE
    ensures From(p, marks, data, i).fate.Fail?
  {
    hide Switch;
  }

  /** A byte that asks for no callback. */
  lemma QuietByte(p: Parser, marks: Marks, data: seq<byte>, i: nat, q: Parser)
    requires i < |data| && Below(marks, i) && Step(p, data[i]) == Pass(q, [], Go)
    ensures From(p, marks, data, i) == From(q, marks, data, i + 1)
  {
    hide Step;
    var r := From(q, marks, data, i + 1);
    assert [] + r.events == r.events;
  }

  lemma AlongCount(p: Parser, c: byte, s: string, miss: HeaderState, hit: HeaderState, n: nat)
    ensures var q := Along(p, c, s, miss, hit);
            q.state == p.state && q.nread == p.nread && Along(p.(nread := n), c, s, miss, hit) == q.(nread := n)
  {
    hide At;
  }

  lemma FieldCharCount(p: Parser, ch: byte, n: nat)
    ensures var q := FieldChar(p, ch);
            q.state == p.state && q.nread == p.nread && FieldChar(p.(nread := n), ch) == q.(nread := n)
  {
    hide Token;
    hide Along;
    var c := Token(ch);
    match p.headerState
    case MatchingConnection => AlongCount(p, c, CONNECTION, General, Connection, n);
    case MatchingProxyConnection => AlongCount(p, c, PROXY_CONNECTION, General, Connection, n);
    case MatchingContentLength => AlongCount(p, c, CONTENT_LENGTH, General, ContentLength, n);
    case MatchingTransferEncoding => AlongCount(p, c, TRANSFER_ENCODING, General, TransferEncoding, n);
    case MatchingUpgrade => AlongCount(p, c, UPGRADE, General, Upgrade, n);
    case _ =>
  }

  lemma FieldStep(p: Parser, marks: Marks, data: seq<byte>, i: nat)
    requires i < |data| && Below(marks, i) && p.state.HeaderField? && Token(data[i]) != 0
    ensures p.nread >= MAX_HEADER_SIZE ==> From(p, marks, data, i).fate.Fail?
    ensures p.nread < MAX_HEADER_SIZE ==>
              From(p, marks, data, i) == From(FieldChar(p, data[i]).(nread := p.nread + 1), marks, data, i + 1)
  {
    hide From;
    hide Token;
    hide FieldChar;
    if p.nread >= MAX_HEADER_SIZE {
      Overflow(p, marks, data, i);
    } else {
      FieldCharCount(p, data[i], p.nread + 1);
      QuietByte(p, marks, data, i, FieldChar(p, data[i]).(nread := p.nread + 1));
    }
  }

  lemma LengthDigitCount(p: Parser, ch: byte, n: nat)
    ensures var o, c := LengthDigit(p, ch), LengthDigit(p.(nread := n), ch);
            o.acts == c.acts == [] && o.fate == c.fate && c.p == o.p.(nread := n) && o.p.nread == p.nread
            && o.p.state == p.state && !o.fate.Leave?
  {
  }

  lemma ConnectionEndCount(p: Parser, ch: byte, n: nat)
    ensures var q := ConnectionEnd(p, ch);
            q.state == p.state && q.nread == p.nread && ConnectionEnd(p.(nread := n), ch) == q.(nread := n)
  {
  }

  lemma ValueCharCount(p: Parser, ch: byte, n: nat)
    requires p.state.HeaderValue?
    ensures var o, c := ValueChar(p, ch), ValueChar(p.(nread := n), ch);
            o.acts == c.acts == [] && o.fate == c.fate && c.p == o.p.(nread := n) && o.p.nread == p.nread
            && o.p.state.HeaderValue? && !o.fate.Leave?
  {
    hide Token;
    hide Along;
    hide LengthDigit;
    hide ConnectionEnd;
    ConnectionEndCount(p, ch, n);
    var c := Lower(ch);
    match p.headerState
    case ContentLength => LengthDigitCount(p.(headerState := ContentLengthNum), ch, n);
    case ContentLengthNum => LengthDigitCount(p, ch, n);
    case MatchingTransferEncodingChunked => AlongCount(p, c, CHUNKED, General, TransferEncodingChunked, n);
    case MatchingConnectionKeepAlive => AlongCount(p, c, KEEP_ALIVE, MatchingConnectionToken, ConnectionKeepAlive, n);
    case MatchingConnectionClose => AlongCount(p, c, CLOSE, MatchingConnectionToken, ConnectionClose, n);
    case MatchingConnectionUpgrade => AlongCount(p, c, UPGRADE, MatchingConnectionToken, ConnectionUpgrade, n);
    case _ =>
  }

  /** A character of a value that is not its end. */
  predicate Inside(p: Parser, ch: byte) {
    ch != CR && ch != LF && (p.lenient || IsHeaderChar(ch))
  }

  lemma ValueStep(p: Parser, marks: Marks, data: seq<byte>, i: nat)
    requires i < |data| && Below(marks, i) && p.state.HeaderValue? && data[i] != CR && data[i] != LF
    ensures p.nread >= MAX_HEADER_SIZE ==> From(p, marks, data, i).fate.Fail?
    ensures !Inside(p, data[i]) || ValueChar(p, data[i]).fate.Fail? ==> From(p, marks, data, i).fate.Fail?
    ensures p.nread < MAX_HEADER_SIZE && Inside(p, data[i]) && ValueChar(p, data[i]).fate.Go? ==>
              From(p, marks, data, i) == From(ValueChar(p, data[i]).p.(nread := p.nread + 1), marks, data, i + 1)
  {
    hide ValueChar;
    hide IsHeaderChar;
    if p.nread >= MAX_HEADER_SIZE {
      Overflow(p, marks, data, i);
    } else {
      ValueCharCount(p, data[i], p.nread + 1);
      ValueStepped(p, data[i]);
      if Inside(p, data[i]) && ValueChar(p, data[i]).fate.Go? {
        QuietByte(p, marks, data, i, ValueChar(p, data[i]).p.(nread := p.nread + 1));
      }
    }
  }

  lemma ValueStepped(p: Parser, ch: byte)
    requires p.state.HeaderValue? && p.nread < MAX_HEADER_SIZE && ch != CR && ch != LF
    ensures var q := p.(nread := p.nread + 1);
            Step(p, ch) == if Inside(p, ch) then ValueChar(q, ch) else Refuse(q, InvalidHeaderToken)
  {
    hide ValueChar;
    hide IsHeaderChar;
  }

  function MarkBody(marks: Marks, i: nat): Marks {
    if Body in marks then marks else marks[Body := i]
  }

  /** Body bytes before the last one expected. */
  lemma {:induction false} BodyRun(p: Parser, marks: Marks, data: seq<byte>, i: nat, k: nat)
    requires i + k <= |data| && Below(marks, i) && (p.state.BodyIdentity? || p.state.ChunkData?) && k < p.contentLength
    ensures var q := p.(contentLength := p.contentLength - k);
            From(p, marks, data, i) == From(q, if k > 0 then MarkBody(marks, i) else marks, data, i + k)
    decreases k
  {
    hide From;
    hide Step;
    if k > 0 {
      var q := p.(contentLength := p.contentLength - 1);
      var m := MarkBody(marks, i);
      Bodies.BodyByte(p, data[i]);
      OneMark(p, marks, data, i, q);
      BodyRun(q, m, data, i + 1, k - 1);
    }
  }

  /** A body byte that only sets the mark. */
  lemma OneMark(p: Parser, marks: Marks, data: seq<byte>, i: nat, q: Parser)
    requires i < |data| && Below(marks, i) && Step(p, data[i]) == Pass(q, [Mark(Body)], Go)
    ensures From(p, marks, data, i) == From(q, MarkBody(marks, i), data, i + 1)
  {
    hide Step;
    assert [Mark(Body)][1..] == [];
    assert PerformAll([Mark(Body)], marks, data, i) == Marked(MarkBody(marks, i), [] + []);
    var r := From(q, MarkBody(marks, i), data, i + 1);
    assert [] + r.events == r.events;
  }

  lemma {:induction false} EofBytes(p: Parser, marks: Marks, data: seq<byte>, i: nat)
    requires i < |data| && Below(marks, i) && p.state.BodyIdentityEof?
    ensures From(p, marks, data, i) == From(p, MarkBody(marks, i), data, |data|)
    decreases |data| - i
  {
    OneMark(p, marks, data, i, p);
    if i + 1 < |data| {
      EofBytes(p, MarkBody(marks, i), data, i + 1);
    }
  }

  lemma {:induction false} PerformAllFlow(acts: seq<Action>, marks: Marks, data: seq<byte>, i: nat)
    requires i < |data| && Below(marks, i)
    ensures PerformAll(acts, marks, data, i).marks.Keys == Flow(marks.Keys, acts)
    decreases |acts|
  {
    if acts != [] {
      var next := Perform(acts[0], marks, data, i).marks;
      assert next.Keys == FlowOne(marks.Keys, acts[0]);
      PerformAllFlow(acts[1..], next, data, i);
    }
  }

  // ---------------------------------------------------------------- the runs

  /**
    How far a run from `start`, entered with the parser `p` whose count already has the first byte, has
    come: at `i` with `q`, whose count is still that at `start`.
   */
  predicate Reached(p: Parser, marks: Marks, data: seq<byte>, start: nat, q: Parser, i: nat)
    requires start <= i <= |data| && Below(marks, start) && p.nread > 0
  {
    var n := p.nread - 1 + (i - start);
    var f := From(p.(nread := p.nread - 1), marks, data, start);
    if n <= MAX_HEADER_SIZE then f == From(q.(nread := n), marks, data, i) else f.fate.Fail?
  }

  lemma Starts(p: Parser, marks: Marks, data: seq<byte>, start: nat)
    requires start <= |data| && Below(marks, start) && 0 < p.nread <= MAX_HEADER_SIZE
    ensures Reached(p, marks, data, start, p, start)
  {
  }

  lemma FieldReaches(p: Parser, marks: Marks, data: seq<byte>, start: nat, q: Parser, i: nat)
    requires start <= i < |data| && Below(marks, start) && p.nread > 0 && q.nread == p.nread
    requires Reached(p, marks, data, start, q, i) && q.state.HeaderField? && Token(data[i]) != 0
    ensures Reached(p, marks, data, start, FieldChar(q, data[i]), i + 1)
  {
    hide From;
    hide Token;
    hide FieldChar;
    var n := p.nread - 1 + (i - start);
    FieldCharCount(q, data[i], n);
    FieldStep(q.(nread := n), marks, data, i);
  }

  lemma ValueReaches(p: Parser, marks: Marks, data: seq<byte>, start: nat, q: Parser, i: nat)
    requires start <= i < |data| && Below(marks, start) && p.nread > 0 && q.nread == p.nread
    requires Reached(p, marks, data, start, q, i) && q.state.HeaderValue? && data[i] != CR && data[i] != LF
    ensures !Inside(q, data[i]) || ValueChar(q, data[i]).fate.Fail? ==>
              From(p.(nread := p.nread - 1), marks, data, start).fate.Fail?
    ensures Inside(q, data[i]) && ValueChar(q, data[i]).fate.Go? ==>
              Reached(p, marks, data, start, ValueChar(q, data[i]).p, i + 1)
  {
    hide From;
    hide ValueChar;
    hide IsHeaderChar;
    var n := p.nread - 1 + (i - start);
    ValueCharCount(q, data[i], n);
    ValueStep(q.(nread := n), marks, data, i);
    if n <= MAX_HEADER_SIZE && Inside(q, data[i]) && ValueChar(q, data[i]).fate.Go? {
      var o := ValueChar(q.(nread := n), data[i]).p;
      assert o.(nread := n + 1) == ValueChar(q, data[i]).p.(nread := n + 1);
    }
  }

  /** Where the count is one too large, so it was for single bytes. */
  lemma TooLarge(p: Parser, marks: Marks, data: seq<byte>, start: nat, q: Parser, i: nat)
    requires start <= i < |data| && Below(marks, start) && p.nread > 0 && ParsingHeader(q.state)
    requires Reached(p, marks, data, start, q, i) && p.nread + (i - start) > MAX_HEADER_SIZE
    ensures From(p.(nread := p.nread - 1), marks, data, start).fate.Fail?
  {
    hide From;
    var n := p.nread - 1 + (i - start);
    if n == MAX_HEADER_SIZE {
      Overflow(q.(nread := n), marks, data, i);
    }
  }

  /** Where a method that went on from a point with `f` still to come has come to. */
  predicate Came(f: Result, made: seq<Event>, p: Parser, m: Marks, data: seq<byte>, next: nat, fate: Fate) {
    match fate
    case Fail(_) => f.fate.Fail?
    case Leave => f == Result(p, made, Leave, next) && Sound(p)
    case Go =>
      && next <= |data| && Below(m, next) && Fits(p.state, m.Keys) && Sound(p)
      && f == Prepend(made, From(p, m, data, next))
  }

  lemma PrependNothing(r: Result)
    ensures r == Prepend([], r)
  {
    assert [] + r.events == r.events;
  }

  lemma CameTogether(whole: Result, done: seq<Event>, f: Result, made: seq<Event>, p: Parser, m: Marks,
                     data: seq<byte>, next: nat, fate: Fate)
    requires whole == Prepend(done, f) && Came(f, made, p, m, data, next, fate)
    ensures Came(whole, done + made, p, m, data, next, fate)
  {
    hide From;
    hide Sound;
    if fate.Go? {
      var r := From(p, m, data, next);
      assert done + (made + r.events) == done + made + r.events;
    }
  }

  lemma CameStart(p: Parser, data: seq<byte>)
    requires Sound(p)
    ensures Came(From(p, InitialMarks(p.state), data, 0), [], p, InitialMarks(p.state), data, 0, Go)
  {
    hide From;
    hide Sound;
    PrependNothing(From(p, InitialMarks(p.state), data, 0));
  }

  lemma CameHere(whole: Result, done: seq<Event>, p: Parser, m: Marks, data: seq<byte>, i: nat)
    requires Came(whole, done, p, m, data, i, Go)
    ensures i <= |data| && Below(m, i) && Fits(p.state, m.Keys) && Sound(p)
            && whole == Prepend(done, From(p, m, data, i))
  {
  }

  lemma CameAway(whole: Result, done: seq<Event>, p: Parser, m: Marks, data: seq<byte>, i: nat, fate: Fate)
    requires Came(whole, done, p, m, data, i, fate)
    ensures fate.Fail? ==> whole.fate.Fail?
    ensures fate.Leave? ==> whole == Result(p, done, Leave, i) && Sound(p)
  {
    hide From;
  }

  lemma CameEnd(whole: Result, done: seq<Event>, p: Parser, m: Marks, data: seq<byte>, i: nat)
    requires Came(whole, done, p, m, data, i, Go) && i >= |data|
    ensures i == |data| && Below(m, i) && |m| <= 1 && Sound(p)
    ensures whole == Result(p, done + LeftOver(m, data), Go, |data|)
  {
    hide Sound;
    OneSpan(p.state, m);
    EndOfBuffer(p, m, data);
  }

  /** A call with no bytes says that the input is at its end. */
  function EndOfInput(p: Parser): Result {
    if p.state.BodyIdentityEof? then Result(p, [Notice(MessageComplete)], Go, 0)
    else if p.state.Dead? || p.state.StartReqOrRes? || p.state.StartRes? || p.state.StartReq? then Result(p, [], Go, 0)
    else Result(p, [], Fail(InvalidEofState), 1)
  }

  function Call(p: Parser, data: seq<byte>): Result {
    if data == [] then EndOfInput(p) else HttpRuns.Execute(p, data)
  }

  // ---------------------------------------------------------------- where the runs stop

  lemma GeneralField(p: Parser)
    requires p.headerState.General?
    ensures forall ch: byte :: FieldChar(p, ch) == p
  {
  }

  lemma GeneralValue(p: Parser, ch: byte)
    requires p.headerState.General?
    ensures ValueChar(p, ch) == Pass(p, [], Go)
  {
  }

  lemma FieldKeeps(p: Parser, ch: byte)
    requires Counted(p) && p.state.HeaderField?
    ensures var q := FieldChar(p, ch); Counted(q) && q.state.HeaderField? && q.nread == p.nread
  {
    hide Token;
    hide At;
  }

  lemma ValueKeepsCounted(p: Parser)
    requires Sound(p) && p.state.HeaderValue?
    ensures Counted(p)
  {
  }

  lemma EndsAtBuffer(p: Parser, marks: Marks, data: seq<byte>, start: nat, q: Parser)
    requires start < |data| && Below(marks, start) && p.nread > 0 && q.nread == p.nread
    requires Reached(p, marks, data, start, q, |data|)
    ensures var n := q.nread + (|data| - 1 - start);
            var f := From(p.(nread := p.nread - 1), marks, data, start);
            if n <= MAX_HEADER_SIZE then f == From(q.(nread := n), marks, data, |data|) else f.fate.Fail?
  {
    hide From;
  }

  lemma EndsAt(p: Parser, marks: Marks, data: seq<byte>, start: nat, q: Parser, i: nat)
    requires start <= i < |data| && Below(marks, start) && p.nread > 0 && q.nread == p.nread
    requires Reached(p, marks, data, start, q, i) && ParsingHeader(q.state)
    ensures var n := q.nread + (i - start);
            var f := From(p.(nread := p.nread - 1), marks, data, start);
            if n <= MAX_HEADER_SIZE then f == From(q.(nread := n).(nread := n - 1), marks, data, i) else f.fate.Fail?
  {
    hide From;
    if q.nread + (i - start) > MAX_HEADER_SIZE {
      TooLarge(p, marks, data, start, q, i);
    }
  }

  lemma PastTheBound(p: Parser, marks: Marks, data: seq<byte>, start: nat, q: Parser, i: nat)
    requires start <= i < |data| && Below(marks, start) && p.nread > 0 && p.nread + (i - start) > MAX_HEADER_SIZE
    requires From(p.(nread := p.nread - 1), marks, data, start).fate.Fail?
    ensures Reached(p, marks, data, start, q, i + 1)
  {
    hide From;
  }

  lemma StopSwitches(q: Parser, p: Parser, ch: byte)
    requires p == q.(nread := q.nread + 1) && Counted(p) && (p.state.HeaderField? || p.state.HeaderValue?)
    ensures Sound(p) && Sound(q)
    ensures Step(q, ch) == if p.state.HeaderField? then FieldByte(p, ch) else ValueByte(p, ch)
  {
    hide FieldByte;
    hide ValueByte;
  }

  lemma FieldStops(p: Parser, ch: byte)
    requires Token(ch) == 0
    ensures FieldByte(p, ch) == FieldEnd(p, ch)
  {
    hide Token;
  }

  /** One pass of the `switch`, entered by the parser `q`. */
  lemma StepCame(q: Parser, marks: Marks, data: seq<byte>, i: nat)
    requires i < |data| && Below(marks, i) && Fits(q.state, marks.Keys) && Sound(q)
    ensures var pass := Step(q, data[i]);
            var done := PerformAll(pass.acts, marks, data, i);
            Came(From(q, marks, data, i), done.events, pass.p, done.marks, data, i + 1, pass.fate)
  {
    hide Step;
    hide Sound;
    hide Flow;
    hide Orderly;
    hide InOrder;
    hide Fits;
    hide OpenSpans;
    StepKeepsSound(q, data[i]);
    StepIsTidy(q, data[i], marks.Keys);
    PerformAllFlow(Step(q, data[i]).acts, marks, data, i);
  }

  /** The last byte of a body closes the span behind itself and completes the message. */
  lemma LastBodyByte(q: Parser, marks: Marks, data: seq<byte>, i: nat)
    requires i < |data| && Below(marks, i) && q.state.BodyIdentity? && q.contentLength == 1 && marks.Keys <= {Body}
    ensures var m := MarkBody(marks, i);
            var done := PerformAll(Step(q, data[i]).acts, marks, data, i);
            && Step(q, data[i]).p == Bodies.EndedBody(q)
            && Step(q, data[i]).fate == (if q.upgrade then Leave else Go)
            && done == Marked(m - {Body}, [Data(Body, data[m[Body]..i + 1]), Notice(MessageComplete)])
  {
    hide Step;
    hide PerformAll;
    hide Bodies.EndedBody;
    Bodies.LastByteStep(q, data[i]);
    var m := MarkBody(marks, i);
    ThreeActions(marks, data, i, Data(Body, data[m[Body]..i + 1]));
  }

  lemma ThreeActions(marks: Marks, data: seq<byte>, i: nat, e: Event)
    requires i < |data| && Below(marks, i) && e == Data(Body, data[MarkBody(marks, i)[Body]..i + 1])
    ensures PerformAll([Mark(Body), FlushAfter(Body), Notify(MessageComplete)], marks, data, i)
         == Marked(MarkBody(marks, i) - {Body}, [e, Notice(MessageComplete)])
  {
    var m := MarkBody(marks, i);
    var acts := [Mark(Body), FlushAfter(Body), Notify(MessageComplete)];
    assert acts[1..] == [FlushAfter(Body), Notify(MessageComplete)];
    assert acts[1..][1..] == [Notify(MessageComplete)];
    assert acts[1..][1..][1..] == [];
    assert PerformAll(acts[1..][1..], m - {Body}, data, i) == Marked(m - {Body}, [Notice(MessageComplete)] + []);
    assert PerformAll(acts[1..], m, data, i) == Marked(m - {Body}, [e] + [Notice(MessageComplete)]);
    assert [] + ([e] + [Notice(MessageComplete)]) == [e, Notice(MessageComplete)];
  }

  lemma BodyAllTaken(p: Parser, marks: Marks, data: seq<byte>, i: nat)
    requires i < |data| && Below(marks, i) && Fits(p.state, marks.Keys)
    requires (p.state.BodyIdentity? || p.state.ChunkData?) && Sound(p) && p.contentLength > |data| - i
    ensures Came(From(p, marks, data, i), [], p.(contentLength := p.contentLength - (|data| - i)),
                 MarkBody(marks, i), data, |data|, Go)
  {
    hide From;
    BodyRun(p, marks, data, i, |data| - i);
    PrependNothing(From(p, marks, data, i));
  }

  lemma ChunkEnds(p: Parser, marks: Marks, data: seq<byte>, i: nat)
    requires i < |data| && Below(marks, i) && Fits(p.state, marks.Keys)
    requires p.state.ChunkData? && Sound(p) && p.contentLength <= |data| - i
    ensures Came(From(p, marks, data, i), [], p.(contentLength := 0, state := ChunkDataAlmostDone), MarkBody(marks, i),
                 data, i + p.contentLength, Go)
  {
    hide From;
    hide Step;
    var k := p.contentLength - 1;
    var q, m := p.(contentLength := 1), if k > 0 then MarkBody(marks, i) else marks;
    BodyRun(p, marks, data, i, k);
    Bodies.LastChunkByte(q, data[i + k]);
    OneMark(q, m, data, i + k, p.(contentLength := 0, state := ChunkDataAlmostDone));
    assert MarkBody(m, i + k) == MarkBody(marks, i);
    PrependNothing(From(p, marks, data, i));
  }

  lemma BodyFits(p: Parser, q: Parser, marks: Marks, i: nat)
    requires p.state == q.state && BodySpanState(p.state) && Fits(p.state, marks.Keys)
    ensures Fits(q.state, marks.Keys) && Fits(q.state, MarkBody(marks, i).Keys) && marks.Keys <= {Body}
  {
  }

  lemma LastCame(q: Parser, m: Marks, data: seq<byte>, j: nat)
    requires j < |data| && Below(m, j) && Fits(q.state, m.Keys) && q.state.BodyIdentity? && Sound(q)
             && q.contentLength == 1
    ensures Came(From(q, m, data, j), [Data(Body, data[MarkBody(m, j)[Body]..j + 1]), Notice(MessageComplete)],
                 Bodies.EndedBody(q), MarkBody(m, j) - {Body}, data, j + 1, if q.upgrade then Leave else Go)
  {
    hide From;
    hide Step;
    hide Came;
    hide PerformAll;
    hide Bodies.EndedBody;
    hide Sound;
    BodyFits(q, q, m, j);
    StepCame(q, m, data, j);
    LastBodyByte(q, m, data, j);
  }

  /** Up to the last byte of what is expected. */
  lemma BodyLasts(p: Parser, marks: Marks, data: seq<byte>, i: nat) returns (q: Parser, m: Marks, j: nat)
    requires i < |data| && Below(marks, i) && Fits(p.state, marks.Keys)
    requires p.state.BodyIdentity? && Sound(p) && p.contentLength <= |data| - i
    ensures q == p.(contentLength := 1) && Sound(q) && j + 1 == i + p.contentLength && j < |data|
    ensures Below(m, j) && Fits(q.state, m.Keys) && MarkBody(m, j) == MarkBody(marks, i)
    ensures From(p, marks, data, i) == From(q, m, data, j)
  {
    hide From;
    var k := p.contentLength - 1;
    q, m, j := p.(contentLength := 1), if k > 0 then MarkBody(marks, i) else marks, i + k;
    BodyFits(p, q, marks, i);
    BodyRun(p, marks, data, i, k);
  }

  lemma BodyEnds(p: Parser, marks: Marks, data: seq<byte>, i: nat)
    requires i < |data| && Below(marks, i) && Fits(p.state, marks.Keys)
    requires p.state.BodyIdentity? && Sound(p) && p.contentLength <= |data| - i
    ensures var next, m := i + p.contentLength, MarkBody(marks, i);
            Came(From(p, marks, data, i), [Data(Body, data[m[Body]..next]), Notice(MessageComplete)],
                 Bodies.EndedBody(p), m - {Body}, data, next, if p.upgrade then Leave else Go)
  {
    hide From;
    hide Came;
    var q, m, j := BodyLasts(p, marks, data, i);
    hide Sound;
    hide Fits;
    hide Below;
    hide MarkBody;
    hide NewMessage;
    LastCame(q, m, data, j);
    Bodies.SameEnd(p, q);
  }

  lemma OneSpan(s: State, marks: Marks)
    requires Fits(s, marks.Keys)
    ensures |marks| <= 1
  {
    AtMostOne(s, marks.Keys);
    var x :| marks.Keys <= {x};
    assert marks.Keys == {} || marks.Keys == {x};
    assert |marks| == |marks.Keys|;
  }

  lemma EndOfBuffer(p: Parser, marks: Marks, data: seq<byte>)
    requires Below(marks, |data|)
    ensures From(p, marks, data, |data|) == Result(p, LeftOver(marks, data), Go, |data|)
  {
  }

  lemma FeedNext(p: Parser, a: seq<Event>, buffers: seq<seq<byte>>)
    requires buffers != []
    ensures var r := HttpRuns.Execute(p, buffers[0]);
            Feed(p, a, buffers).(consumed := 0)
            == if !r.fate.Go? then Outcome(r.p, Join(a, r.events), r.fate, 0)
               else Feed(r.p, Join(a, r.events), buffers[1..]).(consumed := 0)
  {
    hide HttpRuns.Execute;
    hide Join;
  }

  lemma FeedNothing(p: Parser, a: seq<Event>)
    ensures Feed(p, a, []) == Outcome(p, a, Go, 0)
  {
  }

  class HttpParser {
    var p: Parser
    var events: seq<Event>
    /** `http_errno` */
    var errno: Fate

    constructor (t: Type)
      ensures p == Init(t) && events == [] && errno == Go
    {
      p := Init(t);
      events := [];
      errno := Go;
    }

    /** `COUNT_HEADER_SIZE`, in 32 bits. */
    method Count(v: nat) returns (ok: bool)
      requires p.nread + v < U32
      modifies this`p
      ensures p == old(p).(nread := old(p).nread + v) && ok == (old(p).nread + v <= MAX_HEADER_SIZE)
    {
      p := p.(nread := (p.nread + v) % U32);
      ok := p.nread <= MAX_HEADER_SIZE;
    }

    /** The token characters of a field name, in one run. */
    method RunField(data: seq<byte>, start: nat, ghost marks: Marks) returns (i: nat, ok: bool)
      requires start < |data| && |data| + MAX_HEADER_SIZE < U32 && Below(marks, start)
      requires p.state.HeaderField? && Counted(p) && p.nread > 0
      modifies this`p
      ensures start <= i <= |data| && p.state.HeaderField?
      ensures var f := From(old(p).(nread := old(p).nread - 1), marks, data, start);
              if !ok then f.fate.Fail?
              else Counted(p)
                   && if i == |data| then f == From(p, marks, data, i)
                      else Token(data[i]) == 0 && p.nread > 0 && f == From(p.(nread := p.nread - 1), marks, data, i)
    {
      hide From;
      hide Token;
      hide FieldChar;
      hide Reached;
      i := start;
      ghost var entry := p;
      Starts(p, marks, data, start);
      while i < |data| && Token(data[i]) != 0
        invariant start <= i <= |data| && p.state.HeaderField? && Counted(p) && p.nread == entry.nread
        invariant Reached(entry, marks, data, start, p, i)
      {
        if p.headerState.General? {
          GeneralField(p);
          ghost var same := p;
          var end := i + if |data| - i < MAX_HEADER_SIZE then |data| - i else MAX_HEADER_SIZE;
          while i + 1 < end && Token(data[i + 1]) != 0
            invariant p == same && start <= i < |data| && Token(data[i]) != 0
                      && Reached(entry, marks, data, start, p, i)
          {
            FieldReaches(entry, marks, data, start, p, i);
            i := i + 1;
          }
          FieldReaches(entry, marks, data, start, p, i);
        } else {
          FieldReaches(entry, marks, data, start, p, i);
          FieldKeeps(p, data[i]);
          p := FieldChar(p, data[i]);
        }
        i := i + 1;
      }
      if i == |data| {
        EndsAtBuffer(entry, marks, data, start, p);
        ok := Count(i - 1 - start);
      } else {
        if p.nread + (i - start) > MAX_HEADER_SIZE {
          TooLarge(entry, marks, data, start, p, i);
        }
        EndsAt(entry, marks, data, start, p, i);
        ok := Count(i - start);
      }
    }

    /** The characters of a value before its end, in one run; `ch` is at the end. */
    method RunValue(data: seq<byte>, start: nat, ghost marks: Marks) returns (i: nat, ok: bool)
      requires start < |data| && |data| + MAX_HEADER_SIZE < U32 && Below(marks, start)
      requires p.state.HeaderValue? && Counted(p) && p.nread > 0
      modifies this`p
      ensures start <= i <= |data| && p.state.HeaderValue?
      ensures var f := From(old(p).(nread := old(p).nread - 1), marks, data, start);
              if !ok then f.fate.Fail?
              else Counted(p) && if i == |data| then f == From(p, marks, data, i)
                                 else (data[i] == CR || data[i] == LF) && p.nread > 0
                                      && f == From(p.(nread := p.nread - 1), marks, data, i)
    {
      hide From;
      hide ValueChar;
      hide IsHeaderChar;
      hide Reached;
      i := start;
      ok := true;
      ghost var entry := p;
      Starts(p, marks, data, start);
      while i < |data| && data[i] != CR && data[i] != LF
        invariant start <= i <= |data| && p.state.HeaderValue? && Counted(p) && p.nread == entry.nread
        invariant Reached(entry, marks, data, start, p, i)
      {
        ValueReaches(entry, marks, data, start, p, i);
        if !p.lenient && !IsHeaderChar(data[i]) {
          return i, false;
        }
        if p.headerState.General? {
          GeneralValue(p, data[i]);
          i, ok := RunGeneral(data, start, i, entry, marks);
          if !ok {
            return;
          }
        } else {
          var pass := ValueChar(p, data[i]);
          ValueCharCount(p, data[i], p.nread);
          ValueCharSafe(p, data[i]);
          if pass.fate.Fail? {
            return i, false;
          }
          ValueKeepsCounted(pass.p);
          p := pass.p;
          i := i + 1;
        }
      }
      if i == |data| {
        EndsAtBuffer(entry, marks, data, start, p);
        ok := Count(i - 1 - start);
      } else {
        if p.nread + (i - start) > MAX_HEADER_SIZE {
          TooLarge(entry, marks, data, start, p, i);
        }
        EndsAt(entry, marks, data, start, p, i);
        ok := Count(i - start);
      }
    }

    /**
      The inner loop over a value that has no meaning.  When it stops at its own bound, the byte there is
      passed over unread; but then the header is too large already.
     */
    method RunGeneral(data: seq<byte>, start: nat, at: nat, ghost entry: Parser, ghost marks: Marks)
      returns (i: nat, ok: bool)
      requires start <= at < |data| && Below(marks, start) && entry.nread > 0 && entry.nread == p.nread
      requires p.state.HeaderValue? && p.headerState.General? && data[at] != CR && data[at] != LF
      requires Reached(entry, marks, data, start, p, at)
      ensures at < i <= |data| || !ok
      ensures !ok ==> i <= |data| && start <= i && From(entry.(nread := entry.nread - 1), marks, data, start).fate.Fail?
      ensures ok ==> Reached(entry, marks, data, start, p, i)
    {
      hide From;
      hide ValueChar;
      hide IsHeaderChar;
      hide Reached;
      var end := at + if |data| - at < MAX_HEADER_SIZE then |data| - at else MAX_HEADER_SIZE;
      i := at;
      ok := true;
      while i != end
        invariant at <= i <= end && Reached(entry, marks, data, start, p, i)
        invariant i == at ==> data[i] != CR && data[i] != LF
        decreases end - i
      {
        if data[i] == CR || data[i] == LF {
          return;
        }
        ValueReaches(entry, marks, data, start, p, i);
        GeneralValue(p, data[i]);
        if !p.lenient && !IsHeaderChar(data[i]) {
          return i, false;
        }
        i := i + 1;
      }
      if i < |data| {
        TooLarge(entry, marks, data, start, p, i);
        PastTheBound(entry, marks, data, start, p, i);
        i := i + 1;
      }
    }

    /** The pass of the `switch` at index `i`, entered by the parser `q`. */
    method Take(pass: Pass, data: seq<byte>, i: nat, marks: Marks, ghost q: Parser) returns (m: Marks, made: seq<Event>)
      requires i < |data| && Below(marks, i) && Fits(q.state, marks.Keys) && Sound(q)
      requires pass == Step(q, data[i])
      modifies this`p
      ensures Came(From(q, marks, data, i), made, p, m, data, i + 1, pass.fate)
    {
      hide Step;
      hide Came;
      StepCame(q, marks, data, i);
      var done := PerformAll(pass.acts, marks, data, i);
      p := pass.p;
      m, made := done.marks, done.events;
    }

    /** `case s_header_field` */
    method FieldBytes(data: seq<byte>, i: nat, marks: Marks)
      returns (next: nat, m: Marks, made: seq<Event>, fate: Fate)
      requires i < |data| && |data| + MAX_HEADER_SIZE < U32 && Below(marks, i) && Fits(p.state, marks.Keys)
      requires p.state.HeaderField? && Counted(p) && p.nread > 0
      modifies this`p
      ensures Came(From(old(p).(nread := old(p).nread - 1), marks, data, i), made, p, m, data, next, fate)
      ensures fate.Go? ==> next > i
    {
      hide From;
      hide Token;
      hide FieldByte;
      hide Flow;
      var ok: bool;
      m, made := marks, [];
      next, ok := RunField(data, i, marks);
      if !ok {
        fate := Fail(HeaderOverflow);
      } else if next == |data| {
        fate := Go;
        PrependNothing(From(p, marks, data, next));
      } else {
        ghost var q := p.(nread := p.nread - 1);
        StopSwitches(q, p, data[next]);
        FieldStops(p, data[next]);
        var pass := FieldEnd(p, data[next]);
        m, made := Take(pass, data, next, marks, q);
        next, fate := next + 1, pass.fate;
      }
    }

    /** `case s_header_value` */
    method ValueBytes(data: seq<byte>, i: nat, marks: Marks)
      returns (next: nat, m: Marks, made: seq<Event>, fate: Fate)
      requires i < |data| && |data| + MAX_HEADER_SIZE < U32 && Below(marks, i) && Fits(p.state, marks.Keys)
      requires p.state.HeaderValue? && Counted(p) && p.nread > 0
      modifies this`p
      ensures Came(From(old(p).(nread := old(p).nread - 1), marks, data, i), made, p, m, data, next, fate)
      ensures fate.Go? ==> next > i
    {
      hide From;
      hide ValueByte;
      hide Flow;
      var ok: bool;
      m, made := marks, [];
      next, ok := RunValue(data, i, marks);
      if !ok {
        fate := Fail(HeaderOverflow);
      } else if next == |data| {
        fate := Go;
        PrependNothing(From(p, marks, data, next));
      } else {
        ghost var q := p.(nread := p.nread - 1);
        StopSwitches(q, p, data[next]);
        var pass := ValueByte(p, data[next]);
        m, made := Take(pass, data, next, marks, q);
        next, fate := next + 1, pass.fate;
      }
    }

    /** `case s_body_identity` and `case s_chunk_data`: all that is there of what is expected. */
    method BodyBytes(data: seq<byte>, i: nat, marks: Marks)
      returns (next: nat, m: Marks, made: seq<Event>, fate: Fate)
      requires i < |data| && Below(marks, i) && Fits(p.state, marks.Keys)
      requires (p.state.BodyIdentity? || p.state.ChunkData?) && Sound(p)
      modifies this`p
      ensures Came(From(old(p), marks, data, i), made, p, m, data, next, fate)
      ensures fate.Go? ==> next > i
    {
      hide Came;
      hide From;
      hide ShouldKeepAlive;
      var toRead := if p.contentLength < |data| - i then p.contentLength else |data| - i;
      made, fate := [], Go;
      ghost var was := p;
      m := MarkBody(marks, i);
      p := p.(contentLength := p.contentLength - toRead);
      next := i + toRead;
      if p.contentLength > 0 {
        BodyAllTaken(was, marks, data, i);
      } else if p.state.ChunkData? {
        p := p.(state := ChunkDataAlmostDone);
        ChunkEnds(was, marks, data, i);
      } else {
        made := [Data(Body, data[m[Body]..next])];
        m := m - {Body};
        p := p.(state := MessageDone);
        fate := if p.upgrade then Leave else Go;
        ghost var body := made[0];
        made := made + [Notice(MessageComplete)];
        assert made == [body, Notice(MessageComplete)];
        p := p.(state := NewMessage(p));
        BodyEnds(was, marks, data, i);
        assert p == Bodies.EndedBody(was);
      }
    }

    /** A byte of a state before the body: it is counted first. */
    method HeaderBytes(data: seq<byte>, i: nat, marks: Marks)
      returns (next: nat, m: Marks, made: seq<Event>, fate: Fate)
      requires i < |data| && |data| + MAX_HEADER_SIZE < U32 && Below(marks, i) && Fits(p.state, marks.Keys)
      requires ParsingHeader(p.state) && Sound(p)
      modifies this`p
      ensures Came(From(old(p), marks, data, i), made, p, m, data, next, fate)
      ensures fate.Go? ==> next > i
    {
      hide From;
      hide Switch;
      hide StateOk;
      next, m, made := i, marks, [];
      ghost var q := p;
      StepKeepsSound(p, data[i]);
      var ok := Count(1);
      if !ok {
        Overflow(q, marks, data, i);
        fate := Fail(HeaderOverflow);
      } else if p.state.HeaderField? {
        assert p.(nread := p.nread - 1) == q;
        next, m, made, fate := FieldBytes(data, i, marks);
      } else if p.state.HeaderValue? {
        assert p.(nread := p.nread - 1) == q;
        next, m, made, fate := ValueBytes(data, i, marks);
      } else {
        var pass := Switch(p, data[i]);
        m, made := Take(pass, data, i, marks, q);
        next, fate := i + 1, pass.fate;
      }
    }

    /** A byte of a body. */
    method AfterHeader(data: seq<byte>, i: nat, marks: Marks)
      returns (next: nat, m: Marks, made: seq<Event>, fate: Fate)
      requires i < |data| && Below(marks, i) && Fits(p.state, marks.Keys)
      requires !ParsingHeader(p.state) && Sound(p)
      modifies this`p
      ensures Came(From(old(p), marks, data, i), made, p, m, data, next, fate)
      ensures fate.Go? ==> next > i
    {
      hide From;
      hide Switch;
      if p.state.BodyIdentity? || p.state.ChunkData? {
        next, m, made, fate := BodyBytes(data, i, marks);
      } else if p.state.BodyIdentityEof? {
        EofBytes(p, marks, data, i);
        next, m, made, fate := |data|, MarkBody(marks, i), [], Go;
        PrependNothing(From(p, m, data, next));
      } else {
        var pass := Switch(p, data[i]);
        m, made := Take(pass, data, i, marks, p);
        next, fate := i + 1, pass.fate;
      }
    }

    /** One call. */
    method Execute(data: seq<byte>) returns (consumed: nat, fate: Fate)
      requires Sound(p) && |data| + MAX_HEADER_SIZE < U32
      modifies this
      ensures old(errno).Fail? ==> consumed == 0 && p == old(p) && events == old(events) && errno == old(errno)
      ensures !old(errno).Fail? ==>
                var r := Call(old(p), data);
                && (fate.Fail? <==> r.fate.Fail?) && errno == (if fate.Fail? then fate else old(errno))
                && (!fate.Fail? ==> p == r.p && events == old(events) + r.events && fate == r.fate
                                    && consumed == r.consumed && Sound(p))
    {
      hide From;
      hide Sound;
      hide Came;
      hide Fits;
      hide ParsingHeader;
      if errno.Fail? {
        return 0, errno;
      }
      if data == [] {
        var r := Call(p, data);
        events, fate, consumed := events + r.events, r.fate, r.consumed;
        if fate.Fail? { errno := fate; }
        return;
      }
      var i, marks := 0, InitialMarks(p.state);
      ghost var whole, done: seq<Event> := From(p, marks, data, 0), [];
      CameStart(p, data);
      fate := Go;
      while i < |data|
        invariant errno == old(errno) && events == old(events) + done && fate == Go
        invariant Came(whole, done, p, marks, data, i, Go)
        decreases |data| - i
      {
        CameHere(whole, done, p, marks, data, i);
        ghost var f := From(p, marks, data, i);
        var next, m, made := i, marks, [];
        if ParsingHeader(p.state) {
          next, m, made, fate := HeaderBytes(data, i, marks);
        } else {
          next, m, made, fate := AfterHeader(data, i, marks);
        }
        CameTogether(whole, done, f, made, p, m, data, next, fate);
        events := events + made;
        done := done + made;
        if !fate.Go? {
          CameAway(whole, done, p, m, data, next, fate);
          if fate.Fail? { errno := fate; }
          return next, fate;
        }
        i, marks := next, m;
      }
      CameEnd(whole, done, p, marks, data, i);
      assert |marks| <= 1;
      consumed := i;
      events := events + LeftOver(marks, data);
    }

    /**
      Calls one after the other, one for every buffer: however the bytes are cut, the bulk loops end where
      single bytes end, with the same events once adjacent data callbacks are joined.
     */
    method ExecuteAll(buffers: seq<seq<byte>>) returns (fate: Fate)
      requires Sound(p) && !errno.Fail?
      requires forall k :: 0 <= k < |buffers| ==> buffers[k] != [] && |buffers[k]| + MAX_HEADER_SIZE < U32
      modifies this
      ensures var r := Bytewise(old(p), Join([], old(events)), Flatten(buffers));
              && (fate.Fail? <==> r.fate.Fail?)
              && (!fate.Fail? ==> p == r.p && fate == r.fate && Join([], events) == r.events && Sound(p))
    {
      hide Bytewise;
      hide Sound;
      hide HttpRuns.Execute;
      hide Join;
      hide Feed;
      fate := Go;
      var k := 0;
      ghost var whole := Feed(p, Join([], events), buffers);
      FeedIsBytewise(p, Join([], events), buffers);
      assert buffers[0..] == buffers;
      while k < |buffers|
        invariant k <= |buffers| && Sound(p) && !errno.Fail? && fate == Go
        invariant Feed(p, Join([], events), buffers[k..]).(consumed := 0) == whole.(consumed := 0)
      {
        ghost var q, made := p, events;
        FeedNext(q, Join([], made), buffers[k..]);
        JoinAppend([], made, HttpRuns.Execute(q, buffers[k]).events);
        assert buffers[k..][1..] == buffers[k + 1..];
        var n: nat;
        n, fate := Execute(buffers[k]);
        if !fate.Go? {
          return;
        }
        k := k + 1;
      }
      FeedNothing(p, Join([], events));
      assert buffers[k..] == [];
    }
  }
}
