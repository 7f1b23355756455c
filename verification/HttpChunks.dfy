/**
  Chunked bodies in http/src/http_parser.c over whole runs, with trailer fields or without: the bytes given
  to `on_body` are as many as the chunk headers announced.
 */
module HttpChunks {
  import opened Common
  import opened HttpModel
  import opened HttpRuns
  import opened HttpCuts
  import opened HttpSound

  import opened HttpBodies
  import opened HttpLength

  // ---------------------------------------------------------------- what is owed

  /** What chunk headers announced and `on_body` was not given, since the headers were last complete. */
  function OwedOne(n: int, e: Event): int {
    if e == Notice(HeadersComplete) then 0
    else if e.Notice? && e.notice.ChunkHeader? then n + e.notice.size
    else if e.Data? && e.span == Body then n - |e.bytes|
    else n
  }

  function OwedSince(n: int, events: seq<Event>): int
    decreases |events|
  {
    if events == [] then n else OwedSince(OwedOne(n, events[0]), events[1..])
  }

  lemma {:induction false} OwedAppend(n: int, x: seq<Event>, y: seq<Event>)
    ensures OwedSince(n, x + y) == OwedSince(OwedSince(n, x), y)
    decreases |x|
  {
    if x == [] {
      assert x + y == y;
    } else {
      assert (x + y)[1..] == x[1..] + y;
      OwedAppend(OwedOne(n, x[0]), x[1..], y);
    }
  }

  lemma OwedLast(n: int, x: seq<Event>, e: Event)
    ensures OwedSince(n, x + [e]) == OwedOne(OwedSince(n, x), e)
  {
    OwedAppend(n, x, [e]);
    assert [e][1..] == [];
  }

  lemma OwedJoinOne(n: int, x: seq<Event>, e: Event)
    ensures OwedSince(n, JoinOne(x, e)) == OwedOne(OwedSince(n, x), e)
  {
    OwedLast(n, x, e);
    if x != [] && JoinOne(x, e) != x + [e] {
      var front, last := x[..|x| - 1], x[|x| - 1];
      assert x == front + [last];
      OwedLast(n, front, last);
      OwedLast(n, front, Data(e.span, last.bytes + e.bytes));
      hide OwedSince;
    }
  }

  /** Joining adjacent callbacks does not change what is owed. */
  lemma {:induction false} OwedJoin(n: int, x: seq<Event>, y: seq<Event>)
    ensures OwedSince(n, Join(x, y)) == OwedSince(OwedSince(n, x), y)
    decreases |y|
  {
    hide JoinOne;
    hide OwedOne;
    if y != [] {
      OwedJoinOne(n, x, y[0]);
      OwedJoin(n, JoinOne(x, y[0]), y[1..]);
    }
  }

  /** The same, of the actions of a pass that marks no body. */
  function OwedActs(n: int, acts: seq<Action>): int
    decreases |acts|
  {
    if acts == [] then n else OwedActs(if acts[0].Notify? then OwedOne(n, Notice(acts[0].notice)) else n, acts[1..])
  }

  lemma {:induction false} BodilessOwed(n: int, acts: seq<Action>, marks: Marks, data: seq<byte>, i: nat)
    requires i < |data| && (forall s :: s in marks ==> marks[s] <= i) && Body !in marks && Bodiless(acts)
    ensures var r := PerformAll(acts, marks, data, i);
            Body !in r.marks && OwedSince(n, r.events) == OwedActs(n, acts)
    decreases |acts|
  {
    if acts != [] {
      var first := Perform(acts[0], marks, data, i);
      var rest := PerformAll(acts[1..], first.marks, data, i);
      var now := if acts[0].Notify? then OwedOne(n, Notice(acts[0].notice)) else n;
      BodilessOwed(now, acts[1..], first.marks, data, i);
      OwedAppend(n, first.events, rest.events);
      if first.events != [] {
        assert first.events[1..] == [];
      }
    }
  }

  lemma {:induction false} NothingOwed(n: int, x: seq<Event>)
    requires forall k :: 0 <= k < |x| ==> x[k].Data? && x[k].span != Body
    ensures OwedSince(n, x) == n
    decreases |x|
  {
    if x != [] {
      NothingOwed(n, x[1..]);
    }
  }

  lemma LeftOverOwed(n: int, marks: Marks, data: seq<byte>)
    requires (forall s :: s in marks ==> marks[s] <= |data|) && Body !in marks
    ensures OwedSince(n, LeftOver(marks, data)) == n
  {
    var x := LeftOver(marks, data);
    assert forall k :: 0 <= k < |x| ==> x[k].Data? && x[k].span != Body;
    NothingOwed(n, x);
  }

  lemma BodilessCallOwed(p: Parser, n: int, ch: byte)
    requires Bodiless(Step(p, ch).acts)
    ensures var r := Execute(p, [ch]);
            !r.fate.Fail? ==> OwedSince(n, r.events) == OwedActs(n, Step(p, ch).acts)
  {
    var m := InitialMarks(p.state);
    assert Body !in m.Keys;
    hide Step;
    hide Execute;
    hide PerformAll;
    hide LeftOver;
    hide InitialMarks;
    hide OwedSince;
    hide OwedActs;
    OneByteCall(p, ch);
    var acts := Step(p, ch).acts;
    var done := PerformAll(acts, m, [ch], 0);
    BodilessOwed(n, acts, m, [ch], 0);
    LeftOverOwed(OwedActs(n, acts), done.marks, [ch]);
    OwedAppend(n, done.events, LeftOver(done.marks, [ch]));
  }

  // ---------------------------------------------------------------- the invariant

  /** Inside a chunked body: among its chunks, or in the trailers behind them. */
  predicate InChunks(p: Parser) {
    || (BodyState(p.state) && !p.state.BodyIdentity? && !p.state.BodyIdentityEof?)
    || (HeaderLineState(p.state) && p.flags.trailing)
  }

  predicate ChunksOk(p: Parser, n: int) {
    && (InChunks(p) || (Waiting(p.state) && p.flags.chunked) ==> n == if p.state.ChunkData? then p.contentLength else 0)
    && (p.flags.trailing && !Waiting(p.state) && !BodyState(p.state) ==> HeaderLineState(p.state))
    && (BodyState(p.state) ==> !p.flags.trailing)
    && (p.flags.trailing ==> p.flags.chunked) && !p.flags.skipBody
  }

  predicate KeepsOwed(n: int, o: Pass) {
    !o.fate.Fail? ==> Bodiless(o.acts) && ChunksOk(o.p, OwedActs(n, o.acts))
  }

  // ---------------------------------------------------------------- the first line and the headers

  lemma WaitingOwed(p: Parser, n: int, ch: byte)
    requires ChunksOk(p, n) && Waiting(p.state)
    ensures KeepsOwed(n, Switch(p, ch))
  {
    hide FirstGuess;
    hide IsAlpha;
  }

  lemma LineOwed(p: Parser, n: int, ch: byte)
    requires ChunksOk(p, n) && !Waiting(p.state) && !BodyState(p.state) && !HeaderLineState(p.state)
    ensures KeepsOwed(n, Switch(p, ch))
  {
    hide ResponseLine;
    hide RequestLine;
    if ResponseState(p.state) {
      ResponseAlike(p, ch);
    } else if !p.state.ResOrRespH? {
      RequestAlike(p, ch);
    }
  }

  /** In the headers: the same flags, or those that the end of the headers leaves. */
  predicate HeadFlags(p: Parser) {
    (p.flags.trailing ==> p.flags.chunked) && !p.flags.skipBody
  }

  /** An action that is not about a body. */
  predicate SpanAct(a: Action) {
    !a.Notify? && a != Mark(Body)
  }

  lemma AfterOwed(n: int, a: Action, o: Pass)
    requires SpanAct(a) && KeepsOwed(n, o)
    ensures KeepsOwed(n, After([a], o))
  {
    assert ([a] + o.acts)[1..] == o.acts;
  }

  lemma OneActOwed(n: int, a: Action)
    requires SpanAct(a)
    ensures Bodiless([a]) && OwedActs(n, [a]) == n
  {
    assert [a][1..] == [];
  }

  lemma NoticeOwed(n: int, notice: Notice, acts: seq<Action>)
    ensures OwedActs(n, [Notify(notice)] + acts) == OwedActs(OwedOne(n, Notice(notice)), acts)
    ensures Bodiless(acts) ==> Bodiless([Notify(notice)] + acts)
  {
    assert ([Notify(notice)] + acts)[1..] == acts;
  }

  lemma CompleteOwed(p: Parser, f: Fate)
    requires HeadFlags(p)
    ensures KeepsOwed(0, Complete(p, f))
  {
    hide ShouldKeepAlive;
    NoticeOwed(0, MessageComplete, []);
    assert [Notify(MessageComplete)] + [] == [Notify(MessageComplete)];
  }

  lemma HeadersDoneOwed(p: Parser, ch: byte)
    requires HeadFlags(p) && !p.flags.trailing
    ensures KeepsOwed(0, HeadersDoneByte(p, ch))
  {
    hide Complete;
    hide MessageNeedsEof;
    var q := p.(nread := 0);
    CompleteOwed(q, Leave);
    CompleteOwed(q, Go);
  }

  lemma AlmostDoneOwed(p: Parser, n: int, ch: byte)
    requires HeadFlags(p) && (p.flags.trailing ==> n == 0)
    ensures KeepsOwed(n, AlmostDone(p, ch))
  {
    hide HeadersDoneByte;
    hide Complete;
    hide ChunksOk;
    if ch == LF && p.flags.trailing {
      var q := p.(state := MessageDone);
      var f := if q.upgrade then Leave else Go;
      CompleteOwed(q, f);
      NoticeOwed(0, ChunkComplete, Complete(q, f).acts);
    } else if ch == LF && !(p.flags.chunked && p.flags.contentLength) {
      var upgrade := if p.flags.upgrade && p.flags.connectionUpgrade
                     then p.kind.Request? || p.statusCode == 101 else p.verb == CONNECT;
      var q := p.(state := HeadersDone, upgrade := upgrade);
      HeadersDoneOwed(q, ch);
      NoticeOwed(n, HeadersComplete, HeadersDoneByte(q, ch).acts);
    }
  }

  lemma FieldStartOwed(p: Parser, n: int, ch: byte)
    requires HeadFlags(p) && (p.flags.trailing ==> n == 0)
    ensures KeepsOwed(n, FieldStart(p, ch))
  {
    hide AlmostDone;
    hide Token;
    OneActOwed(n, Mark(Field));
    if ch == LF {
      AlmostDoneOwed(p.(state := HeadersAlmostDone), n, ch);
    }
  }

  /** A pass within the headers that changes no flag of these and tells nothing of a body. */
  lemma SameOwed(p: Parser, n: int, o: Pass)
    requires ChunksOk(p, n) && HeaderLineState(p.state) && HeaderLineState(o.p.state) && Alike(p, o.p)
    requires o.acts == [] || (|o.acts| == 1 && SpanAct(o.acts[0]))
    ensures KeepsOwed(n, o)
  {
    if o.acts != [] {
      assert o.acts[1..] == [];
    }
  }

  lemma FlagsOfHead(p: Parser, n: int)
    requires ChunksOk(p, n) && HeaderLineState(p.state)
    ensures HeadFlags(p) && (p.flags.trailing ==> n == 0)
  {
  }

  lemma FinishedFlags(p: Parser)
    requires HeadFlags(p)
    ensures HeadFlags(Finished(p)) && Finished(p).flags.trailing == p.flags.trailing
  {
    hide WithConnectionFlag;
    WithFlagAlike(p);
  }

  lemma FieldOwed(p: Parser, n: int, ch: byte)
    requires ChunksOk(p, n) && p.state.HeaderField?
    ensures KeepsOwed(n, FieldByte(p, ch))
  {
    hide Token;
    hide FieldChar;
    hide ChunksOk;
    var o := FieldByte(p, ch);
    if !o.fate.Fail? {
      FieldCharAlike(p, ch);
      SameOwed(p, n, o);
    }
  }

  lemma ValueStartFlags(p: Parser, ch: byte)
    ensures var o := ValueStart(p, ch);
            && o.p.flags.trailing == p.flags.trailing && o.p.flags.chunked == p.flags.chunked
            && o.p.flags.skipBody == p.flags.skipBody && o.p.state.HeaderValue? && o.acts == [Mark(Value)]
  {
    if p.headerState.ContentLength? {
    } else {
      ValueStartAlike(p, ch);
      hide ValueStart;
    }
  }

  lemma ValueStartOwed(p: Parser, n: int, ch: byte)
    requires HeadFlags(p) && (p.flags.trailing ==> n == 0)
    ensures KeepsOwed(n, ValueStart(p, ch))
  {
    ValueStartFlags(p, ch);
    OneActOwed(n, Mark(Value));
    hide ValueStart;
  }

  lemma ValueCharFlags(p: Parser, ch: byte)
    requires p.state.HeaderValue?
    ensures var o := ValueChar(p, ch);
            !o.fate.Fail? ==>
              && o.p.flags.trailing == p.flags.trailing && o.p.flags.chunked == p.flags.chunked
              && o.p.flags.skipBody == p.flags.skipBody && o.p.state.HeaderValue? && o.acts == []
  {
    hide Lower;
    hide At;
    hide Token;
    if p.headerState.ContentLength? || p.headerState.ContentLengthNum? {
    } else {
      ValueCharAlike(p, ch);
      hide ValueChar;
    }
  }

  lemma ValueOwed(p: Parser, n: int, ch: byte)
    requires ChunksOk(p, n) && p.state.HeaderValue?
    ensures KeepsOwed(n, ValueByte(p, ch))
  {
    hide ValueChar;
    hide IsHeaderChar;
    ValueCharFlags(p, ch);
    OneActOwed(n, Flush(Value));
  }

  lemma LwsOwed(p: Parser, n: int, ch: byte)
    requires ChunksOk(p, n) && p.state.HeaderValueLws?
    ensures KeepsOwed(n, LwsByte(p, ch))
  {
    FlagsOfHead(p, n);
    FinishedFlags(p);
    FieldStartOwed(Finished(p).(state := HeaderFieldStart), n, ch);
    ValueStartOwed(p.(headerState := ContentLengthWs, state := HeaderValueStart), n, ch);
    ValueStartOwed(p.(state := HeaderValueStart), n, ch);
    hide FieldStart;
    hide ValueStart;
    hide Finished;
    hide KeepsOwed;
    hide ChunksOk;
    hide HeadFlags;
  }

  lemma DiscardLwsOwed(p: Parser, n: int, ch: byte)
    requires ChunksOk(p, n) && p.state.HeaderValueDiscardLws?
    ensures KeepsOwed(n, DiscardLwsByte(p, ch))
  {
    FlagsOfHead(p, n);
    FinishedFlags(p);
    var q := Finished(p).(state := HeaderFieldStart);
    FieldStartOwed(q, n, ch);
    hide FieldStart;
    hide Finished;
    hide KeepsOwed;
    hide ChunksOk;
    hide HeadFlags;
    if ch == ' ' as int || ch == 9 {
      SameOwed(p, n, DiscardLwsByte(p, ch));
    } else if p.headerState.ContentLength? {
      FailOwed(n, DiscardLwsByte(p, ch));
    } else {
      var o := FieldStart(q, ch);
      AfterOwed(n, Flush(Value), o);
      AfterOwed(n, Mark(Value), After([Flush(Value)], o));
      assert [Mark(Value)] + ([Flush(Value)] + o.acts) == [Mark(Value), Flush(Value)] + o.acts;
    }
  }

  lemma FailOwed(n: int, o: Pass)
    requires o.fate.Fail?
    ensures KeepsOwed(n, o)
  {
  }

  lemma BlankOwed(p: Parser, n: int, ch: byte)
    requires ChunksOk(p, n)
    requires p.state.HeaderValueDiscardWs? || p.state.HeaderValueDiscardWsAlmostDone? || p.state.HeaderValueStart?
          || p.state.HeaderAlmostDone?
    ensures KeepsOwed(n, HeaderLine(p, ch))
  {
    FlagsOfHead(p, n);
    ValueStartOwed(p, n, ch);
    BlankMoves(p, ch);
    hide HeaderLine;
    hide ValueStart;
    hide KeepsOwed;
    hide ChunksOk;
    var o := HeaderLine(p, ch);
    if o.fate.Fail? {
      FailOwed(n, o);
    } else if o != ValueStart(p, ch) {
      SameOwed(p, n, o);
    }
  }

  lemma BlankMoves(p: Parser, ch: byte)
    requires p.state.HeaderValueDiscardWs? || p.state.HeaderValueDiscardWsAlmostDone? || p.state.HeaderValueStart?
          || p.state.HeaderAlmostDone?
    ensures var o := HeaderLine(p, ch);
            o.fate.Fail? || o == ValueStart(p, ch)
            || (o.p == p.(state := o.p.state) && HeaderLineState(o.p.state) && o.acts == [])
  {
    hide ValueStart;
  }

  lemma HeaderOwed(p: Parser, n: int, ch: byte)
    requires ChunksOk(p, n) && HeaderLineState(p.state) && !p.state.HeadersDone?
    ensures KeepsOwed(n, HeaderLine(p, ch))
  {
    hide FieldStart;
    hide FieldByte;
    hide ValueByte;
    hide LwsByte;
    hide DiscardLwsByte;
    hide AlmostDone;
    FlagsOfHead(p, n);
    hide KeepsOwed;
    hide ChunksOk;
    if p.state.HeaderField? {
      FieldOwed(p, n, ch);
    } else if p.state.HeaderValue? {
      ValueOwed(p, n, ch);
    } else if p.state.HeaderValueLws? {
      LwsOwed(p, n, ch);
    } else if p.state.HeaderValueDiscardLws? {
      DiscardLwsOwed(p, n, ch);
    } else if p.state.HeaderFieldStart? {
      FieldStartOwed(p, n, ch);
    } else if p.state.HeadersAlmostDone? {
      AlmostDoneOwed(p, n, ch);
    } else {
      BlankOwed(p, n, ch);
    }
  }

  // ---------------------------------------------------------------- the body

  /** The end of a chunk header: now as much is owed as it announced. */
  lemma AnnouncedOwed(p: Parser, n: int, ch: byte)
    requires ChunksOk(p, n) && Counted(p) && p.state.ChunkSizeAlmostDone?
    ensures KeepsOwed(n, ChunkHeaderEnd(p, ch))
  {
    var o := ChunkHeaderEnd(p, ch);
    if !o.fate.Fail? {
      assert o.acts == [Notify(ChunkHeader(p.contentLength))];
      NoticeOwed(n, ChunkHeader(p.contentLength), []);
      assert o.acts == o.acts + [];
    }
  }

  /** The other chunk states that give no bytes. */
  lemma ChunkOwed(p: Parser, n: int, ch: byte)
    requires ChunksOk(p, n) && Counted(p) && BodyState(p.state) && !Giving(p.state)
    ensures KeepsOwed(n, BodyPart(p, ch))
  {
    hide Unhex;
    if p.state.ChunkSizeAlmostDone? {
      AnnouncedOwed(p, n, ch);
    } else {
      OneActOwed(n, Flush(Body));
      NoticeOwed(n, ChunkComplete, []);
      assert [Notify(ChunkComplete)] + [] == [Notify(ChunkComplete)];
    }
  }

  /** A byte of a chunk: one less is owed. */
  lemma DataOwed(p: Parser, n: int, ch: byte)
    requires ChunksOk(p, n) && Sound(p) && Giving(p.state)
    ensures var r := Execute(p, [ch]);
            !r.fate.Fail? ==> ChunksOk(r.p, OwedSince(n, r.events))
  {
    hide Execute;
    hide OwedSince;
    if p.state.BodyIdentity? && p.contentLength == 1 {
      LastByteCall(p, ch);
    } else {
      DataSteps(p, n, ch);
      hide Step;
      MarkCall(p, ch);
      OneOwed(n, ch);
    }
  }

  lemma OneOwed(n: int, ch: byte)
    ensures OwedSince(n, [Data(Body, [ch])]) == n - 1
  {
    assert [Data(Body, [ch])][1..] == [];
  }

  lemma DataSteps(p: Parser, n: int, ch: byte)
    requires ChunksOk(p, n) && Sound(p) && Giving(p.state) && (p.state.BodyIdentity? ==> p.contentLength != 1)
    ensures Step(p, ch) == Pass(Step(p, ch).p, [Mark(Body)], Go) && ChunksOk(Step(p, ch).p, n - 1)
  {
    if p.state.BodyIdentity? {
      BodyByte(p, ch);
    } else if p.state.ChunkData? {
      assert Step(p, ch) == ChunkDataByte(p);
    } else {
      assert Step(p, ch) == Pass(p, [Mark(Body)], Go);
    }
    hide Step;
  }

  // ---------------------------------------------------------------- calls and runs

  lemma SwitchOwed(p: Parser, n: int, ch: byte)
    requires ChunksOk(p, n) && Counted(p) && !Giving(p.state)
    ensures KeepsOwed(n, Switch(p, ch))
  {
    SwitchOn(p, ch);
    assert !p.state.HeadersDone?;
    hide Switch;
    hide Counted;
    hide ChunksOk;
    hide KeepsOwed;
    if Waiting(p.state) {
      WaitingOwed(p, n, ch);
    } else if HeaderLineState(p.state) {
      HeaderOwed(p, n, ch);
    } else if BodyState(p.state) {
      ChunkOwed(p, n, ch);
    } else {
      LineOwed(p, n, ch);
    }
  }

  lemma CountedOwed(p: Parser, n: int)
    requires ChunksOk(p, n)
    ensures ChunksOk(p.(nread := p.nread + 1), n)
  {
  }

  lemma StepOwed(p: Parser, n: int, ch: byte)
    requires Sound(p) && ChunksOk(p, n) && !Giving(p.state)
    ensures KeepsOwed(n, Step(p, ch))
  {
    CountedNext(p);
    CountedOwed(p, n);
    StepIs(p, ch);
    hide *;
    var q := p.(nread := p.nread + 1);
    if !ParsingHeader(p.state) {
      SwitchOwed(p, n, ch);
    } else if p.nread >= MAX_HEADER_SIZE {
      FailOwed(n, Step(p, ch));
    } else {
      SameGiving(p, q);
      SwitchOwed(q, n, ch);
    }
  }

  lemma SameGiving(p: Parser, q: Parser)
    requires q.state == p.state
    ensures Giving(q.state) == Giving(p.state)
  {
  }

  lemma CallOwed(p: Parser, n: int, ch: byte)
    requires Sound(p) && ChunksOk(p, n)
    ensures var r := Execute(p, [ch]);
            !r.fate.Fail? ==> ChunksOk(r.p, OwedSince(n, r.events))
  {
    hide Execute;
    hide Step;
    hide Sound;
    hide ChunksOk;
    if Giving(p.state) {
      DataOwed(p, n, ch);
    } else {
      OneByteCall(p, ch);
      StepOwed(p, n, ch);
      if !Step(p, ch).fate.Fail? {
        BodilessCallOwed(p, n, ch);
      }
    }
  }

  lemma {:induction false} BytewiseOwed(p: Parser, a: seq<Event>, data: seq<byte>)
    requires Sound(p) && ChunksOk(p, OwedSince(0, a))
    ensures var o := Bytewise(p, a, data);
            !o.fate.Fail? ==> ChunksOk(o.p, OwedSince(0, o.events))
    decreases |data|
  {
    hide Execute;
    hide Step;
    hide Sound;
    hide ChunksOk;
    hide Join;
    hide OwedSince;
    if data != [] {
      var ch := data[0];
      assert data[..1] == [ch];
      var r := Execute(p, [ch]);
      StepKeepsSound(p, ch);
      OneByteCall(p, ch);
      CallOwed(p, OwedSince(0, a), ch);
      OwedJoin(0, a, r.events);
      if r.fate.Go? {
        BytewiseOwed(r.p, Join(a, r.events), data[1..]);
      }
    }
  }

  lemma StartOwed(t: Type)
    ensures ChunksOk(Init(t), 0) && OwedSince(0, []) == 0
  {
  }

  /**
    Chunks over a whole run: when a parser that has been fed any buffers stands between two messages, and
    the last one came in chunks, with or without trailer fields, the bytes given to `on_body` are exactly as
    many as the `on_chunk_header` notices announced.
   */
  lemma ChunksAreGiven(t: Type, buffers: seq<seq<byte>>)
    requires forall k :: 0 <= k < |buffers| ==> buffers[k] != []
    ensures var o := Feed(Init(t), [], buffers);
            !o.fate.Fail? && Waiting(o.p.state) && o.p.flags.chunked ==> OwedSince(0, o.events) == 0
  {
    hide Feed;
    hide Bytewise;
    StartOwed(t);
    FeedIsBytewise(Init(t), [], buffers);
    BytewiseOwed(Init(t), [], Flatten(buffers));
  }
}
