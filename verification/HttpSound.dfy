/**
  What every run of `http_parser_execute` (http/src/http_parser.c) keeps of the parser record, so that
  none of the assertions in its `switch` can fire.
 */
module HttpSound {
  import opened Common
  import opened HttpModel
  import opened HttpRuns

  import opened HttpCuts

  /** The matching states in which a field name may be. */
  predicate FieldStateOk(h: HeaderState) {
    h.General? || h.HC? || h.HCO? || h.HCON? || h.MatchingConnection? || h.MatchingProxyConnection?
    || h.MatchingContentLength? || h.MatchingTransferEncoding? || h.MatchingUpgrade?
    || h.Connection? || h.ContentLength? || h.TransferEncoding? || h.Upgrade?
  }

  /** A length that was given: neither 0 nor the mark for an absent length. */
  predicate Pending(n: nat) {
    0 < n < ULLONG_MAX
  }

  /** The conditions asserted in the body and header states, for the parser between two bytes. */
  predicate StateOk(p: Parser) {
    && (p.state.BodyIdentity? ==> Pending(p.contentLength) && !p.flags.chunked)
    && (p.state.ChunkSizeStart? ==> p.flags.chunked && p.nread == 0)
    && (p.state.ChunkSize? || p.state.ChunkParameters? || p.state.ChunkSizeAlmostDone? ==>
          p.flags.chunked && p.contentLength < ULLONG_MAX)
    && (p.state.ChunkData? ==> p.flags.chunked && Pending(p.contentLength))
    && (p.state.ChunkDataAlmostDone? ==> p.flags.chunked && p.contentLength == 0)
    && (p.state.ChunkDataDone? ==> p.flags.chunked)
    && (p.state.HeaderField? ==> FieldStateOk(p.headerState))
    && (p.state.HeaderValue? ==> !p.headerState.Connection? && !p.headerState.TransferEncoding?)
    && !p.state.MessageDone? && !p.state.HeadersDone?
  }

  predicate Sound(p: Parser) {
    && p.contentLength <= ULLONG_MAX
    && p.nread <= MAX_HEADER_SIZE
    && (p.flags.contentLength ==> p.contentLength < ULLONG_MAX)
    && StateOk(p)
  }

  /** The parser as the `switch` meets it: a header byte is already counted. */
  predicate Counted(p: Parser) {
    && p.contentLength <= ULLONG_MAX
    && p.nread <= MAX_HEADER_SIZE
    && (p.flags.contentLength ==> p.contentLength < ULLONG_MAX)
    && (if p.state.ChunkSizeStart? then p.flags.chunked && p.nread == 1 else StateOk(p))
  }

  /** The pass goes on soundly, or stops with an error that the code can really return. */
  predicate Safe(o: Pass) {
    if o.fate.Fail? then o.fate.errno != InvalidInternalState else Sound(o.p)
  }

  /** The states that ask for nothing. */
  predicate Plain(s: State) {
    !BodyState(s) && !s.HeaderField? && !s.HeaderValue? && !s.HeadersDone?
  }

  /** The length and its flag are as they were, or both as for a new message. */
  predicate SameLength(p: Parser, q: Parser) {
    && q.nread == p.nread
    && ((q.flags == p.flags && q.contentLength == p.contentLength)
        || (q.flags == NO_FLAGS && q.contentLength == ULLONG_MAX))
  }

  lemma PlainSafe(p: Parser, q: Parser)
    requires Counted(p) && SameLength(p, q) && Plain(q.state)
    ensures Sound(q)
  {
  }

  lemma StatusStartSafe(p: Parser, ch: byte)
    requires Counted(p) && p.state.ResStatusStart?
    ensures Safe(StatusStartByte(p, ch))
  {
  }

  lemma StatusCodeSafe(p: Parser, ch: byte)
    requires Counted(p) && p.state.ResStatusCode?
    ensures Safe(StatusCodeByte(p, ch))
  {
    hide StatusStartByte;
    if ch == CR || ch == LF {
      StatusStartSafe(p.(state := ResStatusStart), ch);
    }
  }

  lemma StatusSafe(p: Parser, ch: byte)
    requires Counted(p) && p.state.ResStatus?
    ensures Safe(StatusByte(p, ch))
  {
  }

  lemma StartResSafe(p: Parser, ch: byte)
    requires Counted(p) && p.state.StartRes?
    ensures Safe(ResponseLine(p, ch))
  {
  }

  lemma ResponseSafe(p: Parser, ch: byte)
    requires Counted(p) && ResponseState(p.state)
    ensures Safe(ResponseLine(p, ch))
  {
    hide Counted;
    hide Sound;
    hide StatusCodeByte;
    hide StatusStartByte;
    hide StatusByte;
    if p.state.ResStatusCode? {
      StatusCodeSafe(p, ch);
    } else if p.state.ResStatusStart? {
      StatusStartSafe(p, ch);
    } else if p.state.ResStatus? {
      StatusSafe(p, ch);
    } else if p.state.StartRes? {
      StartResSafe(p, ch);
    } else {
      var o := ResponseLine(p, ch);
      if !o.fate.Fail? {
        PlainSafe(p, o.p);
      }
    }
  }

  lemma StartReqSafe(p: Parser, ch: byte)
    requires Counted(p) && p.state.StartReq?
    ensures Safe(StartReqByte(p, ch))
  {
    hide FirstGuess;
    hide IsAlpha;
  }

  lemma UrlSafe(p: Parser, ch: byte)
    requires Counted(p) && (UrlState(p.state) || p.state.ReqSpacesBeforeUrl?)
    ensures Safe(UrlByte(p, ch))
  {
    hide IsUserInfoChar;
    hide IsUrlChar;
    hide IsAlpha;
    hide Counted;
    hide Sound;
    var o := UrlByte(p, ch);
    if !o.fate.Fail? {
      PlainSafe(p, o.p);
    }
  }

  lemma UrlLineSafe(p: Parser, ch: byte)
    requires Counted(p) && UrlState(p.state)
    ensures Safe(RequestLine(p, ch))
  {
    hide UrlByte;
    hide Counted;
    hide Sound;
    UrlSafe(p, ch);
    var o := RequestLine(p, ch);
    if !o.fate.Fail? && (ch == ' ' as int || ch == CR || ch == LF) {
      PlainSafe(p, o.p);
    }
  }

  lemma MethodSafe(p: Parser, ch: byte)
    requires Counted(p) && p.state.ReqMethod?
    ensures Safe(MethodByte(p, ch))
  {
    hide NextGuess;
    hide MethodString;
  }

  lemma RequestSafe(p: Parser, ch: byte)
    requires Counted(p) && RequestState(p.state)
    ensures Safe(RequestLine(p, ch))
  {
    hide UrlByte;
    hide NextGuess;
    hide MethodString;
    hide StartReqByte;
    hide MethodByte;
    hide Counted;
    hide Sound;
    var o := RequestLine(p, ch);
    if p.state.StartReq? {
      StartReqSafe(p, ch);
    } else if p.state.ReqMethod? {
      MethodSafe(p, ch);
    } else if UrlState(p.state) {
      UrlLineSafe(p, ch);
    } else if p.state.ReqSpacesBeforeUrl? {
      var q := if p.verb == CONNECT then p.(state := ReqServerStart) else p;
      SameCounted(p, q);
      UrlSafe(q, ch);
      PlainSafe(p, p);
    } else if !o.fate.Fail? {
      PlainSafe(p, o.p);
    }
  }

  lemma SameCounted(p: Parser, q: Parser)
    requires Counted(p) && SameLength(p, q) && Plain(q.state)
    ensures Counted(q)
  {
  }

  lemma CompleteSafe(p: Parser, f: Fate)
    requires Counted(p.(state := Dead)) && !f.Fail?
    ensures Safe(Complete(p, f))
  {
  }

  lemma HeadersDoneSafe(p: Parser, ch: byte)
    requires Counted(p.(state := Dead))
    ensures Safe(HeadersDoneByte(p, ch))
  {
    hide ShouldKeepAlive;
    var q := p.(nread := 0);
    CompleteSafe(q, Leave);
    CompleteSafe(q, Go);
  }

  lemma AlmostDoneSafe(p: Parser, ch: byte)
    requires Counted(p.(state := Dead))
    ensures Safe(AlmostDone(p, ch))
  {
    hide HeadersDoneByte;
    hide ShouldKeepAlive;
    if ch == LF && p.flags.trailing {
      var q := p.(state := MessageDone);
      CompleteSafe(q, if q.upgrade then Leave else Go);
    } else if ch == LF && !(p.flags.chunked && p.flags.contentLength) {
      var upgrade := if p.flags.upgrade && p.flags.connectionUpgrade
                     then p.kind.Request? || p.statusCode == 101 else p.verb == CONNECT;
      HeadersDoneSafe(p.(state := HeadersDone, upgrade := upgrade), ch);
    }
  }

  lemma FieldStartSafe(p: Parser, ch: byte)
    requires Counted(p.(state := Dead))
    ensures Safe(FieldStart(p, ch))
  {
    hide AlmostDone;
    hide Token;
    if ch == LF {
      AlmostDoneSafe(p.(state := HeadersAlmostDone), ch);
    }
  }

  lemma FieldSafe(p: Parser, ch: byte)
    requires Counted(p) && p.state.HeaderField?
    ensures Safe(FieldByte(p, ch))
  {
    hide Token;
    hide At;
  }

  lemma ValueStartSafe(p: Parser, ch: byte)
    requires Counted(p.(state := Dead))
    ensures Safe(ValueStart(p, ch))
  {
  }

  /** A decimal digit neither wraps the length nor makes it the mark for an absent one. */
  lemma LengthDigitSafe(p: Parser, ch: byte)
    requires Counted(p) && p.state.HeaderValue? && !p.headerState.Connection? && !p.headerState.TransferEncoding?
    ensures Safe(LengthDigit(p, ch))
  {
    if p.contentLength <= (ULLONG_MAX - 10) / 10 {
      assert p.contentLength * 10 <= ULLONG_MAX - 10;
    }
  }

  /** A value keeps its parser sound when its length, its count and the flag of the length do not change. */
  lemma MatchingSafe(p: Parser, q: Parser)
    requires Counted(p) && p.state.HeaderValue? && q.state.HeaderValue?
    requires !q.headerState.Connection? && !q.headerState.TransferEncoding?
    requires q.flags.contentLength == p.flags.contentLength && q.contentLength == p.contentLength && q.nread == p.nread
    ensures Safe(Pass(q, [], Go))
  {
  }

  lemma AlongSafe(p: Parser, c: byte, s: string, miss: HeaderState, hit: HeaderState)
    requires Counted(p) && p.state.HeaderValue?
    requires !miss.Connection? && !miss.TransferEncoding? && !hit.Connection? && !hit.TransferEncoding?
    ensures Safe(Pass(Along(p, c, s, miss, hit), [], Go))
  {
    hide At;
    hide Safe;
    MatchingSafe(p, Along(p, c, s, miss, hit));
  }

  lemma FlagSafe(p: Parser)
    ensures var q := WithConnectionFlag(p);
            && q.state == p.state && q.flags.contentLength == p.flags.contentLength
            && q.flags.chunked == p.flags.chunked
            && q.contentLength == p.contentLength && q.nread == p.nread && q.headerState == p.headerState
  {
    hide ConnectionFlags;
    FlagsKeep(p.flags, p.headerState);
  }

  lemma FlagsKeep(f: Flags, h: HeaderState)
    ensures ConnectionFlags(f, h).contentLength == f.contentLength && ConnectionFlags(f, h).chunked == f.chunked
  {
  }

  lemma ConnectionSafe(p: Parser, ch: byte)
    requires Counted(p) && p.state.HeaderValue?
    ensures Safe(Pass(ConnectionEnd(p, ch), [], Go))
  {
    hide WithConnectionFlag;
    hide Safe;
    hide Sound;
    FlagSafe(p);
    MatchingSafe(p, ConnectionEnd(p, ch));
  }

  lemma ValueCharSafe(p: Parser, ch: byte)
    requires Counted(p) && p.state.HeaderValue?
    ensures Safe(ValueChar(p, ch))
  {
    hide Token;
    hide At;
    hide LengthDigit;
    hide Along;
    hide ConnectionEnd;
    var c := Lower(ch);
    var h := p.headerState;
    if h.ContentLength? {
      LengthDigitSafe(p.(headerState := ContentLengthNum), ch);
    } else if h.ContentLengthNum? {
      LengthDigitSafe(p, ch);
    } else if h.MatchingTransferEncodingChunked? {
      AlongSafe(p, c, CHUNKED, General, TransferEncodingChunked);
    } else if h.MatchingConnectionKeepAlive? {
      AlongSafe(p, c, KEEP_ALIVE, MatchingConnectionToken, ConnectionKeepAlive);
    } else if h.MatchingConnectionClose? {
      AlongSafe(p, c, CLOSE, MatchingConnectionToken, ConnectionClose);
    } else if h.MatchingConnectionUpgrade? {
      AlongSafe(p, c, UPGRADE, MatchingConnectionToken, ConnectionUpgrade);
    } else {
      ConnectionSafe(p, ch);
    }
  }

  lemma FinishedSafe(p: Parser)
    requires Counted(p.(state := Dead))
    ensures Counted(Finished(p).(state := Dead))
  {
  }

  lemma ValueSafe(p: Parser, ch: byte)
    requires Counted(p) && p.state.HeaderValue?
    ensures Safe(ValueByte(p, ch))
  {
    hide ValueChar;
    hide IsHeaderChar;
    ValueCharSafe(p, ch);
  }

  lemma FoldSafe(p: Parser, ch: byte)
    requires Counted(p) && (p.state.HeaderValueLws? || p.state.HeaderValueDiscardLws?)
    ensures Safe(LwsByte(p, ch)) && Safe(DiscardLwsByte(p, ch))
  {
    hide FieldStart;
    hide ValueStart;
    hide Finished;
    FinishedSafe(p);
    FieldStartSafe(Finished(p).(state := HeaderFieldStart), ch);
    var q := if p.headerState.ContentLengthNum? then p.(headerState := ContentLengthWs) else p;
    ValueStartSafe(q.(state := HeaderValueStart), ch);
  }

  /** The states that change nothing but the state. */
  lemma ToSafe(p: Parser, s: State)
    requires Counted(p) && HeaderLineState(p.state)
    requires s == p.state || s.HeaderValueDiscardWs? || s.HeaderValueDiscardWsAlmostDone? || s.HeaderValueDiscardLws?
          || s.HeaderValueLws?
    ensures Safe(To(p, s))
  {
  }

  lemma HeaderSafe(p: Parser, ch: byte)
    requires Counted(p) && HeaderLineState(p.state)
    ensures Safe(HeaderLine(p, ch))
  {
    hide FieldStart;
    hide FieldByte;
    hide ValueStart;
    hide ValueByte;
    hide LwsByte;
    hide DiscardLwsByte;
    hide AlmostDone;
    hide HeadersDoneByte;
    hide Counted;
    hide Sound;
    hide StateOk;
    if p.state.HeaderField? {
      FieldSafe(p, ch);
    } else if p.state.HeaderValue? {
      ValueSafe(p, ch);
    } else if p.state.HeaderValueLws? || p.state.HeaderValueDiscardLws? {
      FoldSafe(p, ch);
    } else {
      CountedDead(p);
      FieldStartSafe(p, ch);
      ValueStartSafe(p, ch);
      AlmostDoneSafe(p, ch);
      HeadersDoneSafe(p, ch);
      ToSafe(p, p.state);
      ToSafe(p, HeaderValueDiscardWsAlmostDone);
      ToSafe(p, HeaderValueDiscardLws);
      ToSafe(p, HeaderValueLws);
    }
  }

  lemma CountedDead(p: Parser)
    requires Counted(p)
    ensures Counted(p.(state := Dead))
  {
  }

  /** A hexadecimal digit neither wraps the chunk size nor makes it the mark for an absent length. */
  lemma ChunkSizeSafe(p: Parser, ch: byte)
    requires Counted(p) && p.state.ChunkSize?
    ensures Safe(ChunkSizeByte(p, ch))
  {
    if p.contentLength <= (ULLONG_MAX - 16) / 16 {
      assert p.contentLength * 16 <= ULLONG_MAX - 16;
    }
  }

  lemma IdentitySafe(p: Parser, ch: byte)
    requires Counted(p) && (p.state.BodyIdentity? || p.state.MessageDone?)
    ensures Safe(BodyPart(p, ch))
  {
    hide ShouldKeepAlive;
  }

  lemma ChunkDataSafe(p: Parser, ch: byte)
    requires Counted(p) && (p.state.ChunkData? || p.state.ChunkDataAlmostDone? || p.state.ChunkDataDone?)
    ensures Safe(BodyPart(p, ch))
  {
  }

  lemma BodySafe(p: Parser, ch: byte)
    requires Counted(p) && BodyState(p.state)
    ensures Safe(BodyPart(p, ch))
  {
    hide IdentityByte;
    hide ChunkDataByte;
    hide ChunkSizeByte;
    hide MessageDoneByte;
    hide Complete;
    if p.state.ChunkSize? {
      ChunkSizeSafe(p, ch);
    } else if p.state.BodyIdentity? || p.state.MessageDone? {
      IdentitySafe(p, ch);
    } else if p.state.ChunkData? || p.state.ChunkDataAlmostDone? || p.state.ChunkDataDone? {
      ChunkDataSafe(p, ch);
    }
  }

  lemma SwitchSafe(q: Parser, ch: byte)
    requires Counted(q)
    ensures Safe(Switch(q, ch))
  {
    hide ResponseLine;
    hide HeaderLine;
    hide BodyPart;
    hide RequestLine;
    hide StartReqByte;
    hide Counted;
    hide Sound;
    if ResponseState(q.state) {
      ResponseSafe(q, ch);
    } else if HeaderLineState(q.state) {
      HeaderSafe(q, ch);
    } else if BodyState(q.state) {
      BodySafe(q, ch);
    } else if RequestState(q.state) {
      RequestSafe(q, ch);
    } else {
      StartSafe(q, ch);
    }
  }

  lemma StartSafe(q: Parser, ch: byte)
    requires Counted(q) && (q.state.Dead? || q.state.StartReqOrRes? || q.state.ResOrRespH?)
    ensures Safe(Switch(q, ch))
  {
    hide StartReqByte;
    if q.state.StartReqOrRes? {
      StartReqSafe(q.(flags := NO_FLAGS, contentLength := ULLONG_MAX, kind := Request, state := StartReq), ch);
    }
  }

  /** No assertion of the `switch` fires, no length wraps, and the next byte finds the same. */
  lemma StepKeepsSound(p: Parser, ch: byte)
    requires Sound(p)
    ensures Safe(Step(p, ch))
    ensures ParsingHeader(p.state) && p.nread < MAX_HEADER_SIZE ==> Counted(p.(nread := p.nread + 1))
  {
    hide Switch;
    hide Sound;
    hide Safe;
    if !ParsingHeader(p.state) {
      CountedNext(p);
      SwitchSafe(p, ch);
    } else if p.nread < MAX_HEADER_SIZE {
      CountedNext(p);
      SwitchSafe(p.(nread := p.nread + 1), ch);
    } else {
      SoundCount(p);
      TooLargeSafe(p);
    }
  }

  lemma SoundCount(p: Parser)
    requires Sound(p)
    ensures p.nread <= MAX_HEADER_SIZE
  {
  }

  lemma TooLargeSafe(p: Parser)
    ensures Safe(Refuse(p.(nread := p.nread + 1), HeaderOverflow))
  {
  }

  lemma CountedNext(p: Parser)
    requires Sound(p)
    ensures !ParsingHeader(p.state) ==> Counted(p)
    ensures ParsingHeader(p.state) && p.nread < MAX_HEADER_SIZE ==> Counted(p.(nread := p.nread + 1))
  {
  }

  /** `http_parser_init` */
  function Init(t: Type): (p: Parser)
    ensures Sound(p)
  {
    Parser(t, NO_FLAGS, if t.Request? then StartReq else if t.Response? then StartRes else StartReqOrRes,
           General, 0, false, 0, 0, 0, 0, 0, DELETE, false)
  }

  lemma {:induction false} FromKeepsSound(p: Parser, marks: Marks, data: seq<byte>, i: nat)
    requires i <= |data| && (forall s :: s in marks ==> marks[s] <= i) && Sound(p)
    ensures var r := From(p, marks, data, i);
            if r.fate.Fail? then r.fate.errno != InvalidInternalState else Sound(r.p)
    decreases |data| - i
  {
    hide Step;
    hide Sound;
    if i < |data| {
      StepKeepsSound(p, data[i]);
      var pass := Step(p, data[i]);
      if pass.fate.Go? {
        FromKeepsSound(pass.p, PerformAll(pass.acts, marks, data, i).marks, data, i + 1);
      }
    }
  }

  /** Over all runs: whatever the bytes and however they are cut, the parser stays sound. */
  lemma {:induction false} RunsKeepSound(p: Parser, a: seq<Event>, buffers: seq<seq<byte>>)
    requires Sound(p)
    ensures var r := Feed(p, a, buffers);
            if r.fate.Fail? then r.fate.errno != InvalidInternalState else Sound(r.p)
    decreases |buffers|
  {
    hide Sound;
    hide From;
    if buffers != [] {
      FromKeepsSound(p, InitialMarks(p.state), buffers[0], 0);
      var r := Execute(p, buffers[0]);
      if r.fate.Go? {
        RunsKeepSound(r.p, Join(a, r.events), buffers[1..]);
      }
    }
  }
}
