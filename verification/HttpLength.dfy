/**
  The declared length in http/src/http_parser.c: what every call keeps of the length, of the digits that it
  was read from, and of the bytes given to `on_body` since.
 */
module HttpLength {
  import opened Common
  import opened HttpModel
  import opened HttpRuns
  import opened HttpCuts
  import opened HttpSound

  import opened HttpBodies

  // ---------------------------------------------------------------- what a run is held against

  /** The bytes given to `on_body` since the headers were last complete. */
  function GivenOne(given: seq<byte>, e: Event): seq<byte> {
    if e == Notice(HeadersComplete) then []
    else if e.Data? && e.span == Body then given + e.bytes
    else given
  }

  function GivenSince(given: seq<byte>, events: seq<Event>): seq<byte>
    decreases |events|
  {
    if events == [] then given else GivenSince(GivenOne(given, events[0]), events[1..])
  }

  /** The parser is inside the value of a Content-Length, at its digits. */
  predicate AtLength(p: Parser) {
    p.state.HeaderValue? && p.headerState.ContentLengthNum?
  }

  /** The digits of the last Content-Length: a byte that leaves the parser at them is one more. */
  function NextDigits(p: Parser, digits: seq<byte>, ch: byte, q: Parser): seq<byte> {
    if AtLength(q) then (if p.state.HeaderValue? then digits else []) + [ch] else digits
  }

  // ---------------------------------------------------------------- the invariant

  /** Between two messages. */
  predicate Waiting(s: State) {
    s.Dead? || s.StartReqOrRes? || s.StartRes? || s.StartReq?
  }

  /** In the first line of a message or in its headers, or in the trailers behind its chunks. */
  predicate InHead(s: State) {
    !Waiting(s) && !BodyState(s)
  }

  predicate Declares(f: Flags) {
    f.contentLength && !f.chunked
  }

  /** The body is whole, or it is left to the tunnel that a CONNECT request has asked for. */
  predicate Whole(p: Parser, digits: seq<byte>, given: seq<byte>) {
    Declares(p.flags) ==> |given| == Decimal(0, digits) || (p.upgrade && p.verb == CONNECT && given == [])
  }

  predicate LengthKnown(p: Parser, digits: seq<byte>) {
    if p.flags.contentLength then p.contentLength == Decimal(0, digits) else p.contentLength == ULLONG_MAX
  }

  predicate Books(p: Parser, digits: seq<byte>, given: seq<byte>) {
    && !p.flags.skipBody && (p.flags.trailing ==> p.flags.chunked)
    && (InHead(p.state) && !p.flags.trailing ==> LengthKnown(p, digits))
    && (p.state.HeaderValue? ==>
          !p.headerState.ContentLength? && (p.headerState.ContentLengthNum? ==> p.flags.contentLength))
    && (p.state.BodyIdentity? ==>
          p.flags.contentLength && p.contentLength + |given| == Decimal(0, digits))
    && (Waiting(p.state) ==> Whole(p, digits, given))
  }

  /** What the actions of a pass that marks no body do to the bytes given. */
  function Noted(given: seq<byte>, acts: seq<Action>): seq<byte>
    decreases |acts|
  {
    if acts == [] then given else Noted(if acts[0] == Notify(HeadersComplete) then [] else given, acts[1..])
  }

  predicate Bodiless(acts: seq<Action>) {
    forall k :: 0 <= k < |acts| ==> acts[k] != Mark(Body)
  }

  /** A pass that marks no body keeps the books. */
  predicate Keeps(p: Parser, digits: seq<byte>, given: seq<byte>, ch: byte, o: Pass) {
    !o.fate.Fail? ==> Bodiless(o.acts) && Books(o.p, NextDigits(p, digits, ch, o.p), Noted(given, o.acts))
  }

  // ---------------------------------------------------------------- the first line

  /** Nothing the books speak of changes. */
  predicate Alike(p: Parser, q: Parser) {
    && q.flags.contentLength == p.flags.contentLength && q.flags.chunked == p.flags.chunked
    && q.flags.trailing == p.flags.trailing && q.flags.skipBody == p.flags.skipBody
    && q.contentLength == p.contentLength
  }

  predicate Quiet(acts: seq<Action>) {
    forall k :: 0 <= k < |acts| ==> acts[k] != Mark(Body) && acts[k] != Notify(HeadersComplete)
  }

  lemma {:induction false} QuietNotes(given: seq<byte>, acts: seq<Action>)
    requires Quiet(acts)
    ensures Bodiless(acts) && Noted(given, acts) == given
    decreases |acts|
  {
    if acts != [] {
      QuietNotes(given, acts[1..]);
    }
  }

  lemma AlikeKeeps(p: Parser, digits: seq<byte>, given: seq<byte>, ch: byte, o: Pass)
    requires Books(p, digits, given) && InHead(p.state) && InHead(o.p.state) && Alike(p, o.p) && Quiet(o.acts)
    requires o.p.state.HeaderValue? ==> !o.p.headerState.ContentLength? && !o.p.headerState.ContentLengthNum?
    ensures Keeps(p, digits, given, ch, o)
  {
    QuietNotes(given, o.acts);
  }

  lemma FreshKeeps(p: Parser, digits: seq<byte>, given: seq<byte>, ch: byte, o: Pass)
    requires Waiting(p.state) && InHead(o.p.state) && !o.p.state.HeaderValue? && Quiet(o.acts)
    requires o.p.flags == NO_FLAGS && o.p.contentLength == ULLONG_MAX
    ensures Keeps(p, digits, given, ch, o)
  {
    QuietNotes(given, o.acts);
  }

  lemma WaitingKeeps(p: Parser, digits: seq<byte>, given: seq<byte>, ch: byte)
    requires Books(p, digits, given) && Waiting(p.state)
    ensures Keeps(p, digits, given, ch, Switch(p, ch))
  {
    hide FirstGuess;
    hide IsAlpha;
    hide Books;
    hide Keeps;
    var o := Switch(p, ch);
    if o == Pass(p, [], Go) {
      SameKeeps(p, digits, given, ch);
    } else if o.fate.Fail? {
      FailKeeps(p, digits, given, ch, o);
    } else {
      FreshKeeps(p, digits, given, ch, o);
    }
  }

  lemma SameKeeps(p: Parser, digits: seq<byte>, given: seq<byte>, ch: byte)
    requires Books(p, digits, given) && !p.state.HeaderValue?
    ensures Keeps(p, digits, given, ch, Pass(p, [], Go))
  {
  }

  lemma FailKeeps(p: Parser, digits: seq<byte>, given: seq<byte>, ch: byte, o: Pass)
    requires o.fate.Fail?
    ensures Keeps(p, digits, given, ch, o)
  {
  }

  predicate SameHead(p: Parser, q: Parser) {
    q.flags == p.flags && q.contentLength == p.contentLength && InHead(q.state) && !q.state.HeaderValue?
  }

  /** Still in the first line, or just behind it. */
  predicate SameLine(p: Parser, q: Parser) {
    && q.flags == p.flags && q.contentLength == p.contentLength && InHead(q.state)
    && (q.state.HeaderFieldStart? || !HeaderLineState(q.state))
  }

  /** No span of the headers or the body is begun, and the headers are not over. */
  predicate LineActs(acts: seq<Action>) {
    forall k :: 0 <= k < |acts| ==>
      && acts[k] != Mark(Field) && acts[k] != Mark(Value) && acts[k] != Mark(Body)
      && acts[k] != Notify(HeadersComplete)
  }

  lemma StatusStartAlike(p: Parser, ch: byte)
    ensures var o := StatusStartByte(p, ch);
            SameLine(p, o.p) && LineActs(o.acts) && !o.fate.Fail?
  {
  }

  lemma StatusAlike(p: Parser, ch: byte)
    requires p.state.ResStatusCode? || p.state.ResStatusStart? || p.state.ResStatus?
    ensures var o := ResponseLine(p, ch);
            !o.fate.Fail? ==> SameLine(p, o.p) && LineActs(o.acts)
  {
    hide StatusStartByte;
    hide IsNum;
    StatusStartAlike(p, ch);
    StatusStartAlike(p.(state := ResStatusStart), ch);
  }

  predicate ResVersionState(s: State) {
    s.ResHttpMajor? || s.ResHttpDot? || s.ResHttpMinor? || s.ResHttpEnd? || s.ResFirstStatusCode?
  }

  lemma ResVersionAlike(p: Parser, ch: byte)
    requires ResVersionState(p.state)
    ensures var o := ResponseLine(p, ch);
            !o.fate.Fail? ==> SameLine(p, o.p) && LineActs(o.acts)
  {
    hide StatusCodeByte;
    hide StatusStartByte;
    hide StatusByte;
    hide IsNum;
  }

  lemma ResStartAlike(p: Parser, ch: byte)
    requires p.state.ResH? || p.state.ResHT? || p.state.ResHTT? || p.state.ResHTTP? || p.state.ResLineAlmostDone?
    ensures var o := ResponseLine(p, ch);
            !o.fate.Fail? ==> SameLine(p, o.p) && LineActs(o.acts)
  {
    hide StatusCodeByte;
    hide StatusStartByte;
    hide StatusByte;
    hide IsNum;
  }

  lemma ResponseAlike(p: Parser, ch: byte)
    requires ResponseState(p.state) && !Waiting(p.state)
    ensures var o := ResponseLine(p, ch);
            !o.fate.Fail? ==> SameLine(p, o.p) && LineActs(o.acts)
  {
    hide ResponseLine;
    hide SameLine;
    hide LineActs;
    if p.state.ResStatusCode? || p.state.ResStatusStart? || p.state.ResStatus? {
      StatusAlike(p, ch);
    } else if ResVersionState(p.state) {
      ResVersionAlike(p, ch);
    } else {
      ResStartAlike(p, ch);
    }
  }

  lemma UrlAlike(p: Parser, ch: byte)
    requires UrlState(p.state) || p.state.ReqSpacesBeforeUrl?
    ensures var o := UrlByte(p, ch);
            !o.fate.Fail? ==> SameLine(p, o.p) && o.acts == []
  {
    hide IsUserInfoChar;
    hide IsUrlChar;
    hide IsAlpha;
  }

  lemma StillLine(p: Parser, q: Parser)
    requires q.flags == p.flags && q.contentLength == p.contentLength
    requires q.state.ReqMethod? || q.state.ReqSpacesBeforeUrl?
    ensures SameLine(p, q)
  {
  }

  lemma MethodAlike(p: Parser, ch: byte)
    requires p.state.ReqMethod?
    ensures var o := MethodByte(p, ch);
            !o.fate.Fail? ==> SameLine(p, o.p) && o.acts == []
  {
    hide NextGuess;
    hide MethodString;
    hide At;
    hide SameLine;
    var o := MethodByte(p, ch);
    if !o.fate.Fail? {
      StillLine(p, o.p);
    }
  }

  lemma EndedUrlAlike(p: Parser, ch: byte)
    requires UrlState(p.state)
    ensures var o := RequestLine(p, ch);
            !o.fate.Fail? ==> SameLine(p, o.p) && LineActs(o.acts)
  {
    hide UrlByte;
    UrlAlike(p, ch);
  }

  predicate VersionState(s: State) {
    s.ReqHttpHTTP? || s.ReqHttpMajor? || s.ReqHttpDot? || s.ReqHttpMinor? || s.ReqHttpEnd? || s.ReqLineAlmostDone?
  }

  lemma VersionAlike(p: Parser, ch: byte)
    requires VersionState(p.state)
    ensures var o := RequestLine(p, ch);
            !o.fate.Fail? ==> SameLine(p, o.p) && LineActs(o.acts)
  {
    hide UrlByte;
    hide MethodByte;
    hide StartReqByte;
    hide IsNum;
  }

  lemma RequestStartAlike(p: Parser, ch: byte)
    requires RequestState(p.state) && !Waiting(p.state) && !VersionState(p.state)
    requires !p.state.ReqMethod? && !UrlState(p.state)
    ensures var o := RequestLine(p, ch);
            !o.fate.Fail? ==> SameLine(p, o.p) && LineActs(o.acts)
  {
    hide UrlByte;
    hide MethodByte;
    hide StartReqByte;
    if p.state.ReqSpacesBeforeUrl? {
      UrlAlike(if p.verb == CONNECT then p.(state := ReqServerStart) else p, ch);
    }
  }

  lemma RequestAlike(p: Parser, ch: byte)
    requires RequestState(p.state) && !Waiting(p.state)
    ensures var o := RequestLine(p, ch);
            !o.fate.Fail? ==> SameLine(p, o.p) && LineActs(o.acts)
  {
    if p.state.ReqMethod? {
      MethodAlike(p, ch);
    } else if UrlState(p.state) {
      EndedUrlAlike(p, ch);
    } else if VersionState(p.state) {
      VersionAlike(p, ch);
    } else {
      RequestStartAlike(p, ch);
    }
  }

  lemma LineKeeps(p: Parser, digits: seq<byte>, given: seq<byte>, ch: byte)
    requires Books(p, digits, given) && InHead(p.state) && !HeaderLineState(p.state)
    ensures Keeps(p, digits, given, ch, Switch(p, ch))
  {
    hide ResponseLine;
    hide RequestLine;
    hide Books;
    hide Keeps;
    var o := Switch(p, ch);
    if ResponseState(p.state) {
      ResponseAlike(p, ch);
    } else if !p.state.ResOrRespH? {
      RequestAlike(p, ch);
    }
    if o.fate.Fail? {
      FailKeeps(p, digits, given, ch, o);
    } else {
      AlikeKeeps(p, digits, given, ch, o);
    }
  }

  // ---------------------------------------------------------------- the end of the headers

  lemma NotedAfter(given: seq<byte>, a: Action, acts: seq<Action>)
    requires a != Mark(Body)
    ensures Noted(given, [a] + acts) == Noted(if a == Notify(HeadersComplete) then [] else given, acts)
    ensures Bodiless(acts) ==> Bodiless([a] + acts)
  {
    assert ([a] + acts)[1..] == acts;
  }

  /** An action before a pass, other than the end of the headers, changes nothing. */
  lemma AfterKeeps(p: Parser, digits: seq<byte>, given: seq<byte>, ch: byte, a: Action, o: Pass)
    requires Keeps(p, digits, given, ch, o) && a != Mark(Body) && a != Notify(HeadersComplete)
    ensures Keeps(p, digits, given, ch, After([a], o))
  {
    NotedAfter(given, a, o.acts);
  }

  lemma CompleteBooks(p: Parser, digits: seq<byte>, given: seq<byte>, f: Fate)
    requires !p.flags.skipBody && (p.flags.trailing ==> p.flags.chunked) && Whole(p, digits, given)
    ensures var o := Complete(p, f);
            Bodiless(o.acts) && Noted(given, o.acts) == given && Books(o.p, digits, given) && !AtLength(o.p)
  {
    hide ShouldKeepAlive;
    assert Complete(p, f).acts[1..] == [];
  }

  /** With the headers a length is known; it is 0, or a body is to come, or there is a tunnel. */
  lemma DoneBooks(p: Parser, digits: seq<byte>, ch: byte)
    requires !p.flags.skipBody && !p.flags.trailing && LengthKnown(p, digits)
    requires !(p.flags.chunked && p.flags.contentLength)
    requires p.flags.contentLength ==> p.contentLength < ULLONG_MAX
    ensures var o := HeadersDoneByte(p, ch);
            !o.fate.Fail? ==> Bodiless(o.acts) && Noted([], o.acts) == [] && Books(o.p, digits, []) && !AtLength(o.p)
  {
    hide Complete;
    hide MessageNeedsEof;
    var q := p.(nread := 0);
    if ch != LF {
    } else if q.upgrade && (q.verb == CONNECT || !HasBody(q)) {
      CompleteBooks(q, digits, [], Leave);
    } else if !q.flags.chunked && (q.contentLength == 0 || q.contentLength == ULLONG_MAX) {
      CompleteBooks(q, digits, [], Go);
    }
  }

  /** The parser at a line end, in the headers of a message or in its trailers. */
  predicate HeadKnown(p: Parser, digits: seq<byte>) {
    && !p.flags.skipBody && (p.flags.trailing ==> p.flags.chunked)
    && (!p.flags.trailing ==> LengthKnown(p, digits))
    && (p.flags.contentLength ==> p.contentLength < ULLONG_MAX)
  }

  lemma AlmostDoneKeeps(p: Parser, p0: Parser, digits: seq<byte>, given: seq<byte>, ch: byte)
    requires HeadKnown(p, digits)
    ensures Keeps(p0, digits, given, ch, AlmostDone(p, ch))
  {
    hide HeadersDoneByte;
    hide Complete;
    hide Books;
    if ch == LF && p.flags.trailing {
      var q := p.(state := MessageDone);
      CompleteBooks(q, digits, given, if q.upgrade then Leave else Go);
      NotedAfter(given, Notify(ChunkComplete), MessageDoneByte(q).acts);
    } else if ch == LF && !(p.flags.chunked && p.flags.contentLength) {
      var upgrade := if p.flags.upgrade && p.flags.connectionUpgrade
                     then p.kind.Request? || p.statusCode == 101 else p.verb == CONNECT;
      var q := p.(state := HeadersDone, upgrade := upgrade);
      DoneBooks(q, digits, ch);
      NotedAfter(given, Notify(HeadersComplete), HeadersDoneByte(q, ch).acts);
    }
  }

  // ---------------------------------------------------------------- the headers

  lemma FieldStartKeeps(p: Parser, p0: Parser, digits: seq<byte>, given: seq<byte>, ch: byte)
    requires HeadKnown(p, digits)
    ensures Keeps(p0, digits, given, ch, FieldStart(p, ch))
  {
    hide AlmostDone;
    hide Token;
    if ch == LF {
      AlmostDoneKeeps(p.(state := HeadersAlmostDone), p0, digits, given, ch);
    } else {
      QuietNotes(given, FieldStart(p, ch).acts);
    }
  }

  lemma FieldKeeps(p: Parser, digits: seq<byte>, given: seq<byte>, ch: byte)
    requires Books(p, digits, given) && p.state.HeaderField?
    ensures Keeps(p, digits, given, ch, FieldByte(p, ch))
  {
    hide Token;
    hide Books;
    hide Keeps;
    var o := FieldByte(p, ch);
    if o.fate.Fail? {
      FailKeeps(p, digits, given, ch, o);
    } else {
      FieldAlike(p, ch);
      AlikeKeeps(p, digits, given, ch, o);
    }
  }

  lemma FieldCharAlike(p: Parser, ch: byte)
    ensures var q := FieldChar(p, ch);
            q.flags == p.flags && q.contentLength == p.contentLength && q.state == p.state
  {
    hide Token;
    hide At;
  }

  lemma FieldAlike(p: Parser, ch: byte)
    requires p.state.HeaderField?
    ensures var o := FieldByte(p, ch);
            !o.fate.Fail? ==> Alike(p, o.p) && InHead(o.p.state) && !o.p.state.HeaderValue? && Quiet(o.acts)
  {
    hide Token;
    hide FieldChar;
    FieldCharAlike(p, ch);
  }

  lemma ValueStartAlike(p: Parser, ch: byte)
    requires !p.headerState.ContentLength?
    ensures var o := ValueStart(p, ch);
            && Alike(p, o.p) && o.p.state.HeaderValue? && o.acts == [Mark(Value)]
            && !o.p.headerState.ContentLength? && !o.p.headerState.ContentLengthNum?
  {
    hide Lower;
    if p.headerState.Upgrade? {
    } else {
      var o := ValueStart(p, ch);
      assert o.p == p.(state := HeaderValue, index := 0, headerState := o.p.headerState);
    }
  }

  /** The first digit of a length starts the digits anew; there is no second length. */
  lemma ValueStartKeeps(p: Parser, p0: Parser, digits: seq<byte>, given: seq<byte>, ch: byte)
    requires HeadKnown(p, digits) && !p0.state.HeaderValue?
    ensures Keeps(p0, digits, given, ch, ValueStart(p, ch))
  {
    hide Lower;
    QuietNotes(given, [Mark(Value)]);
    if p.headerState.ContentLength? {
      assert [] + [ch] == [ch];
      assert Decimal(0, [ch]) == Decimal(0 * 10 + Digit(ch), []) by {
        assert [ch][1..] == [];
      }
    } else {
      ValueStartAlike(p, ch);
      hide ValueStart;
    }
  }

  /** One digit more of the length. */
  lemma DigitKeeps(p: Parser, digits: seq<byte>, given: seq<byte>, ch: byte)
    requires Books(p, digits, given) && p.state.HeaderValue? && p.headerState.ContentLengthNum?
    ensures Keeps(p, digits, given, ch, LengthDigit(p, ch))
  {
    DecimalLast(0, digits + [ch]);
    assert (digits + [ch])[..|digits|] == digits;
  }

  predicate SameValue(p: Parser, o: Pass) {
    && Alike(p, o.p) && o.p.state.HeaderValue? && o.acts == []
    && !o.p.headerState.ContentLength? && !o.p.headerState.ContentLengthNum?
    && (o.p.headerState.ContentLengthWs? ==> p.headerState.ContentLengthWs?)
  }

  lemma AlongAlike(p: Parser, c: byte, s: string, miss: HeaderState, hit: HeaderState)
    requires p.state.HeaderValue? && !p.headerState.ContentLength? && !p.headerState.ContentLengthNum?
    requires !miss.ContentLength? && !miss.ContentLengthNum? && !miss.ContentLengthWs?
    requires !hit.ContentLength? && !hit.ContentLengthNum? && !hit.ContentLengthWs?
    ensures SameValue(p, Pass(Along(p, c, s, miss, hit), [], Go))
  {
    hide At;
  }

  lemma FlagsAlike(f: Flags, h: HeaderState)
    ensures var g := ConnectionFlags(f, h);
            && g.contentLength == f.contentLength && g.chunked == f.chunked
            && g.trailing == f.trailing && g.skipBody == f.skipBody
  {
    if h.ConnectionKeepAlive? {
    } else if h.ConnectionClose? {
    } else if h.ConnectionUpgrade? {
    } else {
      assert ConnectionFlags(f, h) == f;
    }
  }

  lemma WithFlagAlike(p: Parser)
    ensures var q := WithConnectionFlag(p);
            Alike(p, q) && q.state == p.state && q.headerState == p.headerState
  {
    hide ConnectionFlags;
    FlagsAlike(p.flags, p.headerState);
  }

  lemma ConnectionAlike(p: Parser, ch: byte)
    requires p.state.HeaderValue? && !p.headerState.ContentLength? && !p.headerState.ContentLengthNum?
    ensures SameValue(p, Pass(ConnectionEnd(p, ch), [], Go))
  {
    hide WithConnectionFlag;
    WithFlagAlike(p);
  }

  lemma ValueCharAlike(p: Parser, ch: byte)
    requires p.state.HeaderValue? && !p.headerState.ContentLength? && !p.headerState.ContentLengthNum?
    ensures !ValueChar(p, ch).fate.Fail? ==> SameValue(p, ValueChar(p, ch))
  {
    hide Token;
    hide Lower;
    hide Along;
    hide ConnectionEnd;
    hide LengthDigit;
    var c := Lower(ch);
    var h := p.headerState;
    if h.MatchingTransferEncodingChunked? {
      AlongAlike(p, c, CHUNKED, General, TransferEncodingChunked);
    } else if h.MatchingConnectionKeepAlive? {
      AlongAlike(p, c, KEEP_ALIVE, MatchingConnectionToken, ConnectionKeepAlive);
    } else if h.MatchingConnectionClose? {
      AlongAlike(p, c, CLOSE, MatchingConnectionToken, ConnectionClose);
    } else if h.MatchingConnectionUpgrade? {
      AlongAlike(p, c, UPGRADE, MatchingConnectionToken, ConnectionUpgrade);
    } else {
      ConnectionAlike(p, ch);
    }
  }

  lemma ValueKeeps(p: Parser, digits: seq<byte>, given: seq<byte>, ch: byte)
    requires Books(p, digits, given) && p.state.HeaderValue?
    ensures Keeps(p, digits, given, ch, ValueByte(p, ch))
  {
    hide ValueChar;
    hide IsHeaderChar;
    hide Books;
    hide Keeps;
    var o := ValueByte(p, ch);
    NoLength(p, digits, given);
    if o.fate.Fail? {
      FailKeeps(p, digits, given, ch, o);
    } else if ch == CR || ch == LF {
      AlikeKeeps(p, digits, given, ch, o);
    } else if p.headerState.ContentLengthNum? {
      AtDigit(p, ch);
      DigitKeeps(p, digits, given, ch);
    } else {
      ValueCharAlike(p, ch);
      AlikeKeeps(p, digits, given, ch, o);
    }
  }

  lemma NoLength(p: Parser, digits: seq<byte>, given: seq<byte>)
    requires Books(p, digits, given) && p.state.HeaderValue?
    ensures !p.headerState.ContentLength?
  {
  }

  lemma AtDigit(p: Parser, ch: byte)
    requires p.headerState.ContentLengthNum?
    ensures ValueChar(p, ch) == LengthDigit(p, ch)
  {
  }

  lemma HeadOf(p: Parser, digits: seq<byte>, given: seq<byte>)
    requires Books(p, digits, given) && Counted(p) && InHead(p.state)
    ensures HeadKnown(p, digits)
  {
  }

  lemma AlikeKnown(p: Parser, q: Parser, digits: seq<byte>)
    requires HeadKnown(p, digits) && Alike(p, q.(flags := q.flags.(chunked := p.flags.chunked)))
    requires p.flags.chunked ==> q.flags.chunked
    ensures HeadKnown(q, digits)
  {
  }

  lemma SameKnown(p: Parser, h: HeaderState, s: State, digits: seq<byte>)
    requires HeadKnown(p, digits)
    ensures HeadKnown(p.(headerState := h, state := s), digits)
  {
  }

  lemma FinishedKnown(p: Parser, digits: seq<byte>)
    requires HeadKnown(p, digits)
    ensures HeadKnown(Finished(p), digits)
  {
    hide HeadKnown;
    hide WithConnectionFlag;
    WithFlagAlike(p);
    AlikeKnown(p, Finished(p), digits);
  }

  lemma FoldKeeps(p: Parser, digits: seq<byte>, given: seq<byte>, ch: byte)
    requires Books(p, digits, given) && HeadKnown(p, digits)
    requires p.state.HeaderValueLws? || p.state.HeaderValueDiscardLws?
    ensures Keeps(p, digits, given, ch, if p.state.HeaderValueLws? then LwsByte(p, ch) else DiscardLwsByte(p, ch))
  {
    hide FieldStart;
    hide ValueStart;
    hide Finished;
    hide HeadKnown;
    hide Keeps;
    FinishedKnown(p, digits);
    SameKnown(Finished(p), Finished(p).headerState, HeaderFieldStart, digits);
    SameKnown(p, ContentLengthWs, HeaderValueStart, digits);
    SameKnown(p, p.headerState, HeaderValueStart, digits);
    var q := Finished(p).(state := HeaderFieldStart);
    FieldStartKeeps(q, p, digits, given, ch);
    if p.state.HeaderValueLws? {
      ValueStartKeeps(p.(headerState := ContentLengthWs, state := HeaderValueStart), p, digits, given, ch);
      ValueStartKeeps(p.(state := HeaderValueStart), p, digits, given, ch);
    } else if ch == ' ' as int || ch == 9 {
      AlikeKeeps(p, digits, given, ch, DiscardLwsByte(p, ch));
    } else if p.headerState.ContentLength? {
      FailKeeps(p, digits, given, ch, DiscardLwsByte(p, ch));
    } else {
      var o := FieldStart(q, ch);
      AfterKeeps(p, digits, given, ch, Flush(Value), o);
      AfterKeeps(p, digits, given, ch, Mark(Value), After([Flush(Value)], o));
      assert [Mark(Value)] + ([Flush(Value)] + o.acts) == [Mark(Value), Flush(Value)] + o.acts;
    }
  }

  lemma BlankAlike(p: Parser, ch: byte)
    requires p.state.HeaderValueDiscardWs? || p.state.HeaderValueDiscardWsAlmostDone? || p.state.HeaderValueStart?
          || p.state.HeaderAlmostDone?
    ensures var o := HeaderLine(p, ch);
            o.fate.Fail? || o == ValueStart(p, ch) || (SameHead(p, o.p) && o.acts == [])
  {
    hide ValueStart;
  }

  lemma BlankKeeps(p: Parser, digits: seq<byte>, given: seq<byte>, ch: byte)
    requires Books(p, digits, given) && Keeps(p, digits, given, ch, ValueStart(p, ch))
    requires p.state.HeaderValueDiscardWs? || p.state.HeaderValueDiscardWsAlmostDone? || p.state.HeaderValueStart?
          || p.state.HeaderAlmostDone?
    ensures Keeps(p, digits, given, ch, HeaderLine(p, ch))
  {
    hide HeaderLine;
    hide ValueStart;
    hide Books;
    hide Keeps;
    BlankAlike(p, ch);
    var o := HeaderLine(p, ch);
    if o.fate.Fail? {
      FailKeeps(p, digits, given, ch, o);
    } else if o != ValueStart(p, ch) {
      AlikeKeeps(p, digits, given, ch, o);
    }
  }

  lemma HeaderKeeps(p: Parser, digits: seq<byte>, given: seq<byte>, ch: byte)
    requires Books(p, digits, given) && Counted(p) && HeaderLineState(p.state)
    ensures Keeps(p, digits, given, ch, HeaderLine(p, ch))
  {
    hide FieldStart;
    hide FieldByte;
    hide ValueStart;
    hide ValueByte;
    hide LwsByte;
    hide DiscardLwsByte;
    hide AlmostDone;
    hide HeadersDoneByte;
    HeadOf(p, digits, given);
    assert !p.state.HeadersDone?;
    hide Counted;
    hide Books;
    hide HeadKnown;
    hide Keeps;
    if p.state.HeaderField? {
      FieldKeeps(p, digits, given, ch);
    } else if p.state.HeaderValue? {
      ValueKeeps(p, digits, given, ch);
    } else if p.state.HeaderValueLws? || p.state.HeaderValueDiscardLws? {
      FoldKeeps(p, digits, given, ch);
    } else if p.state.HeaderFieldStart? {
      FieldStartKeeps(p, p, digits, given, ch);
    } else if p.state.HeadersAlmostDone? {
      AlmostDoneKeeps(p, p, digits, given, ch);
    } else {
      ValueStartKeeps(p, p, digits, given, ch);
      BlankKeeps(p, digits, given, ch);
    }
  }

  // ---------------------------------------------------------------- the body

  /** The states that give bytes to `on_body`. */
  predicate Giving(s: State) {
    s.BodyIdentity? || s.BodyIdentityEof? || s.ChunkData?
  }

  lemma ChunkKeeps(p: Parser, digits: seq<byte>, given: seq<byte>, ch: byte)
    requires Books(p, digits, given) && Counted(p) && BodyState(p.state) && !Giving(p.state)
    ensures Keeps(p, digits, given, ch, BodyPart(p, ch))
  {
    hide Unhex;
  }

  lemma SwitchKeeps(p: Parser, digits: seq<byte>, given: seq<byte>, ch: byte)
    requires Books(p, digits, given) && Counted(p) && !Giving(p.state)
    ensures Keeps(p, digits, given, ch, Switch(p, ch))
  {
    hide Switch;
    hide Books;
    hide Counted;
    hide Keeps;
    if Waiting(p.state) {
      WaitingKeeps(p, digits, given, ch);
    } else if HeaderLineState(p.state) {
      HeaderKeeps(p, digits, given, ch);
      SwitchOn(p, ch);
    } else if BodyState(p.state) {
      ChunkKeeps(p, digits, given, ch);
      SwitchOn(p, ch);
    } else {
      LineKeeps(p, digits, given, ch);
    }
  }

  lemma SwitchOn(p: Parser, ch: byte)
    ensures HeaderLineState(p.state) ==> Switch(p, ch) == HeaderLine(p, ch)
    ensures BodyState(p.state) ==> Switch(p, ch) == BodyPart(p, ch)
  {
    hide HeaderLine;
    hide BodyPart;
  }

  // ---------------------------------------------------------------- one call for one byte

  lemma {:induction false} GivenAppend(given: seq<byte>, x: seq<Event>, y: seq<Event>)
    ensures GivenSince(given, x + y) == GivenSince(GivenSince(given, x), y)
    decreases |x|
  {
    if x == [] {
      assert x + y == y;
    } else {
      assert (x + y)[1..] == x[1..] + y;
      GivenAppend(GivenOne(given, x[0]), x[1..], y);
    }
  }

  lemma GivenLast(given: seq<byte>, x: seq<Event>, e: Event)
    ensures GivenSince(given, x + [e]) == GivenOne(GivenSince(given, x), e)
  {
    GivenAppend(given, x, [e]);
    assert [e][1..] == [];
  }

  lemma GivenTwice(given: seq<byte>, span: Span, x: seq<byte>, y: seq<byte>)
    ensures GivenOne(given, Data(span, x + y)) == GivenOne(GivenOne(given, Data(span, x)), Data(span, y))
  {
    assert given + (x + y) == given + x + y;
  }

  lemma GivenJoinOne(given: seq<byte>, x: seq<Event>, e: Event)
    ensures GivenSince(given, JoinOne(x, e)) == GivenOne(GivenSince(given, x), e)
  {
    hide GivenOne;
    GivenLast(given, x, e);
    if x != [] && JoinOne(x, e) != x + [e] {
      var front, last := x[..|x| - 1], x[|x| - 1];
      assert x == front + [last];
      GivenLast(given, front, last);
      GivenLast(given, front, Data(e.span, last.bytes + e.bytes));
      hide GivenSince;
      GivenTwice(GivenSince(given, front), e.span, last.bytes, e.bytes);
    }
  }

  /** Joining adjacent callbacks does not change what is given. */
  lemma {:induction false} GivenJoin(given: seq<byte>, x: seq<Event>, y: seq<Event>)
    ensures GivenSince(given, Join(x, y)) == GivenSince(GivenSince(given, x), y)
    decreases |y|
  {
    hide JoinOne;
    if y != [] {
      GivenJoinOne(given, x, y[0]);
      GivenJoin(given, JoinOne(x, y[0]), y[1..]);
    }
  }

  lemma {:induction false} BodilessGiven(given: seq<byte>, acts: seq<Action>, marks: Marks, data: seq<byte>, i: nat)
    requires i < |data| && (forall s :: s in marks ==> marks[s] <= i) && Body !in marks && Bodiless(acts)
    ensures var r := PerformAll(acts, marks, data, i);
            Body !in r.marks && GivenSince(given, r.events) == Noted(given, acts)
    decreases |acts|
  {
    if acts != [] {
      var first := Perform(acts[0], marks, data, i);
      var rest := PerformAll(acts[1..], first.marks, data, i);
      var now := if acts[0] == Notify(HeadersComplete) then [] else given;
      BodilessGiven(now, acts[1..], first.marks, data, i);
      GivenAppend(given, first.events, rest.events);
      if first.events != [] {
        assert first.events[1..] == [];
      }
    }
  }

  lemma LeftOverGiven(given: seq<byte>, marks: Marks, data: seq<byte>)
    requires (forall s :: s in marks ==> marks[s] <= |data|) && Body !in marks
    ensures GivenSince(given, LeftOver(marks, data)) == given
  {
    var x := LeftOver(marks, data);
    assert forall k :: 0 <= k < |x| ==> x[k].Data? && x[k].span != Body;
    NothingGiven(given, x);
  }

  lemma {:induction false} NothingGiven(given: seq<byte>, x: seq<Event>)
    requires forall k :: 0 <= k < |x| ==> x[k].Data? && x[k].span != Body
    ensures GivenSince(given, x) == given
    decreases |x|
  {
    if x != [] {
      NothingGiven(given, x[1..]);
    }
  }

  lemma BodilessCall(p: Parser, given: seq<byte>, ch: byte)
    requires Bodiless(Step(p, ch).acts)
    ensures var r := Execute(p, [ch]);
            !r.fate.Fail? ==> GivenSince(given, r.events) == Noted(given, Step(p, ch).acts)
  {
    hide Step;
    hide Execute;
    hide LeftOver;
    hide PerformAll;
    OneByteCall(p, ch);
    var m := InitialMarks(p.state);
    assert Body !in m.Keys;
    var acts := Step(p, ch).acts;
    var done := PerformAll(acts, m, [ch], 0);
    BodilessGiven(given, acts, m, [ch], 0);
    LeftOverGiven(Noted(given, acts), done.marks, [ch]);
    GivenAppend(given, done.events, LeftOver(done.marks, [ch]));
  }

  lemma GivingCall(p: Parser, given: seq<byte>, ch: byte)
    requires Giving(p.state) && Step(p, ch) == Pass(Step(p, ch).p, [Mark(Body)], Go)
    ensures GivenSince(given, Execute(p, [ch]).events) == given + [ch]
  {
    hide Step;
    MarkCall(p, ch);
    assert [Data(Body, [ch])][1..] == [];
  }

  lemma LastGiven(given: seq<byte>, ch: byte)
    ensures GivenSince(given, [Data(Body, [ch]), Notice(MessageComplete)]) == given + [ch]
  {
    var x := [Data(Body, [ch]), Notice(MessageComplete)];
    assert x[1..] == [Notice(MessageComplete)];
    assert x[1..][1..] == [];
    assert GivenSince(given + [ch], x[1..]) == GivenSince(given + [ch], x[1..][1..]);
  }

  lemma IdentityBooks(p: Parser, digits: seq<byte>, given: seq<byte>, ch: byte)
    requires p.state.BodyIdentity? && Sound(p) && Books(p, digits, given)
    ensures var r := Execute(p, [ch]);
            Books(r.p, digits, GivenSince(given, r.events)) && r.p == Step(p, ch).p && !AtLength(r.p) && !r.fate.Fail?
  {
    hide Execute;
    hide Step;
    OneByteCall(p, ch);
    if p.contentLength == 1 {
      LastByteCall(p, ch);
      LastGiven(given, ch);
      EndedBooks(p, digits, given + [ch]);
    } else {
      BodyByte(p, ch);
      GivingCall(p, given, ch);
    }
  }

  lemma EndedBooks(p: Parser, digits: seq<byte>, given: seq<byte>)
    requires !p.flags.skipBody && (p.flags.trailing ==> p.flags.chunked) && |given| == Decimal(0, digits)
    ensures Books(EndedBody(p), digits, given) && !AtLength(EndedBody(p))
  {
    hide ShouldKeepAlive;
  }

  lemma StreamBooks(p: Parser, digits: seq<byte>, given: seq<byte>, ch: byte)
    requires (p.state.BodyIdentityEof? || p.state.ChunkData?) && Books(p, digits, given)
    ensures Books(Step(p, ch).p, digits, given + [ch]) && !AtLength(Step(p, ch).p)
    ensures Step(p, ch) == Pass(Step(p, ch).p, [Mark(Body)], Go)
  {
    assert Step(p, ch) == if p.state.ChunkData? then ChunkDataByte(p) else Pass(p, [Mark(Body)], Go);
    hide Step;
  }

  lemma StepIs(p: Parser, ch: byte)
    ensures !ParsingHeader(p.state) ==> Step(p, ch) == Switch(p, ch)
    ensures ParsingHeader(p.state) ==>
              if p.nread >= MAX_HEADER_SIZE then Step(p, ch).fate.Fail?
              else Step(p, ch) == Switch(p.(nread := p.nread + 1), ch)
  {
    hide Switch;
    hide ParsingHeader;
  }

  lemma CountedBooks(p: Parser, digits: seq<byte>, given: seq<byte>)
    requires Books(p, digits, given)
    ensures Books(p.(nread := p.nread + 1), digits, given)
  {
  }

  /** A call that does not fail keeps the books. */
  lemma CallBooks(p: Parser, digits: seq<byte>, given: seq<byte>, ch: byte)
    requires Sound(p) && Books(p, digits, given)
    ensures var r := Execute(p, [ch]);
            r.p == Step(p, ch).p
            && (!r.fate.Fail? ==> Books(r.p, NextDigits(p, digits, ch, r.p), GivenSince(given, r.events)))
  {
    hide Execute;
    hide Switch;
    hide Sound;
    hide Counted;
    hide Books;
    hide ParsingHeader;
    OneByteCall(p, ch);
    if p.state.BodyIdentity? {
      IdentityBooks(p, digits, given, ch);
    } else if Giving(p.state) {
      StreamBooks(p, digits, given, ch);
      GivingCall(p, given, ch);
    } else {
      var q := if ParsingHeader(p.state) then p.(nread := p.nread + 1) else p;
      CountedNext(p);
      CountedBooks(p, digits, given);
      if !Step(p, ch).fate.Fail? {
        SwitchKeeps(q, digits, given, ch);
        BodilessCall(p, given, ch);
      }
    }
  }

  lemma StartBooks(t: Type)
    ensures Books(Init(t), [], [])
  {
  }
}
