/**
  http/src/http_parser.c in strict mode, with callbacks that return 0: what one pass through the
  `switch` of `http_parser_execute` does with one byte.  The pass changes the parser record, and it
  asks for callbacks: `Mark` and `Flush` delimit the data spans, `Notify` is a notification.
 */
module HttpModel {
  import opened Common

  const ULLONG_MAX := 0xFFFF_FFFF_FFFF_FFFF
  const MAX_HEADER_SIZE := 80 * 1024
  const CR := 13
  const LF := 10

  datatype Type = Request | Response | Both

  datatype State =
    | Dead
    | StartReqOrRes | ResOrRespH
    | StartRes | ResH | ResHT | ResHTT | ResHTTP
    | ResHttpMajor | ResHttpDot | ResHttpMinor | ResHttpEnd
    | ResFirstStatusCode | ResStatusCode | ResStatusStart | ResStatus | ResLineAlmostDone
    | StartReq | ReqMethod | ReqSpacesBeforeUrl
    | ReqSchema | ReqSchemaSlash | ReqSchemaSlashSlash | ReqServerStart | ReqServer | ReqServerWithAt
    | ReqPath | ReqQueryStringStart | ReqQueryString | ReqFragmentStart | ReqFragment
    | ReqHttpStart | ReqHttpH | ReqHttpHT | ReqHttpHTT | ReqHttpHTTP | ReqHttpI | ReqHttpIC
    | ReqHttpMajor | ReqHttpDot | ReqHttpMinor | ReqHttpEnd | ReqLineAlmostDone
    | HeaderFieldStart | HeaderField
    | HeaderValueDiscardWs | HeaderValueDiscardWsAlmostDone | HeaderValueDiscardLws
    | HeaderValueStart | HeaderValue | HeaderValueLws | HeaderAlmostDone
    | ChunkSizeStart | ChunkSize | ChunkParameters | ChunkSizeAlmostDone
    | HeadersAlmostDone | HeadersDone
    | ChunkData | ChunkDataAlmostDone | ChunkDataDone
    | BodyIdentity | BodyIdentityEof | MessageDone

  datatype HeaderState =
    | General | HC | HCO | HCON
    | MatchingConnection | MatchingProxyConnection | MatchingContentLength
    | MatchingTransferEncoding | MatchingUpgrade
    | Connection | ContentLength | ContentLengthNum | ContentLengthWs | TransferEncoding | Upgrade
    | MatchingTransferEncodingChunked | MatchingConnectionTokenStart | MatchingConnectionKeepAlive
    | MatchingConnectionClose | MatchingConnectionUpgrade | MatchingConnectionToken
    | TransferEncodingChunked | ConnectionKeepAlive | ConnectionClose | ConnectionUpgrade

  datatype Flags = Flags(chunked: bool, keepAlive: bool, close: bool, connectionUpgrade: bool,
                         trailing: bool, upgrade: bool, skipBody: bool, contentLength: bool)

  const NO_FLAGS := Flags(false, false, false, false, false, false, false, false)

  datatype Method =
    | DELETE | GET | HEAD | POST | PUT | CONNECT | OPTIONS | TRACE | COPY | LOCK | MKCOL | MOVE
    | PROPFIND | PROPPATCH | SEARCH | UNLOCK | BIND | REBIND | UNBIND | ACL | REPORT | MKACTIVITY
    | CHECKOUT | MERGE | MSEARCH | NOTIFY | SUBSCRIBE | UNSUBSCRIBE | PATCH | PURGE | MKCALENDAR
    | LINK | UNLINK | SOURCE

  datatype Parser = Parser(kind: Type, flags: Flags, state: State, headerState: HeaderState, index: nat,
                           lenient: bool, nread: nat, contentLength: nat, httpMajor: nat, httpMinor: nat,
                           statusCode: nat, verb: Method, upgrade: bool)

  datatype Errno =
    | HeaderOverflow | ClosedConnection | InvalidVersion | InvalidStatus | InvalidMethod | InvalidUrl
    | LfExpected | InvalidHeaderToken | InvalidContentLength | UnexpectedContentLength
    | InvalidChunkSize | InvalidConstant | InvalidInternalState | InvalidEofState | Strict

  datatype Span = Url | Status | Field | Value | Body

  datatype Notice = MessageBegin | HeadersComplete | MessageComplete | ChunkHeader(size: nat) | ChunkComplete

  /** `Flush` ends the span before the current byte, `FlushAfter` behind it. */
  datatype Action = Mark(span: Span) | Flush(span: Span) | FlushAfter(span: Span) | Notify(notice: Notice)

  /** Go on with the next byte, stop with an error, or hand the rest of the input to another protocol. */
  datatype Fate = Go | Fail(errno: Errno) | Leave

  datatype Pass = Pass(p: Parser, acts: seq<Action>, fate: Fate)

  function To(p: Parser, s: State): Pass {
    Pass(p.(state := s), [], Go)
  }

  function Refuse(p: Parser, e: Errno): Pass {
    Pass(p, [], Fail(e))
  }

  function After(acts: seq<Action>, next: Pass): Pass {
    next.(acts := acts + next.acts)
  }

  function Expect(p: Parser, ok: bool, s: State): Pass {
    if ok then To(p, s) else Refuse(p, Strict)
  }

  // ---------------------------------------------------------------- character classes

  predicate IsLower(ch: byte) {
    'a' as int <= ch <= 'z' as int
  }

  function Lower(ch: byte): byte {
    if ch / 32 % 2 == 1 then ch else ch + 32
  }

  predicate IsAlpha(ch: byte) {
    IsLower(Lower(ch))
  }

  predicate IsNum(ch: byte) {
    '0' as int <= ch <= '9' as int
  }

  predicate IsOneOf(ch: byte, s: string) {
    exists i :: 0 <= i < |s| && s[i] as int == ch
  }

  predicate IsUserInfoChar(ch: byte) {
    IsAlpha(ch) || IsNum(ch) || IsOneOf(ch, "-_.!~*'()%;:&=+$,")
  }

  /** The table `normal_url_char`: visible characters without '#' and '?'. */
  predicate IsUrlChar(ch: byte) {
    33 <= ch <= 126 && ch != '#' as int && ch != '?' as int
  }

  /** `TOKEN`: the character in lower case, or 0. */
  function Token(ch: byte): byte {
    if 'A' as int <= ch <= 'Z' as int then ch + 32
    else if IsLower(ch) || IsNum(ch) || IsOneOf(ch, "!#$%&'*+-.^_`|~") then ch
    else 0
  }

  predicate IsHeaderChar(ch: byte) {
    ch == CR || ch == LF || ch == 9 || (ch > 31 && ch != 127)
  }

  predicate IsHexDigit(ch: byte) {
    IsNum(ch) || 'A' as int <= ch <= 'F' as int || 'a' as int <= ch <= 'f' as int
  }

  /**
    The table `unhex`, with 16 for its -1.  Only the first 128 of its 256 entries are given values; the
    others are 0.
   */
  function Unhex(ch: byte): nat {
    if IsNum(ch) then ch - '0' as int
    else if 'A' as int <= ch <= 'F' as int then ch - 'A' as int + 10
    else if 'a' as int <= ch <= 'f' as int then ch - 'a' as int + 10
    else if ch >= 128 then 0
    else 16
  }

  /** The character at an index of a C string, 0 from its end on. */
  function At(s: string, i: nat): int {
    if i < |s| then s[i] as int else 0
  }

  // ---------------------------------------------------------------- the URL

  /** `parse_url_char` */
  function ParseUrlChar(s: State, ch: byte): State {
    if ch == ' ' as int || ch == CR || ch == LF || ch == 9 || ch == 12 then Dead else
    match s
    case ReqSpacesBeforeUrl =>
      if ch == '/' as int || ch == '*' as int then ReqPath else if IsAlpha(ch) then ReqSchema else Dead
    case ReqSchema => if IsAlpha(ch) then s else if ch == ':' as int then ReqSchemaSlash else Dead
    case ReqSchemaSlash => if ch == '/' as int then ReqSchemaSlashSlash else Dead
    case ReqSchemaSlashSlash => if ch == '/' as int then ReqServerStart else Dead
    case ReqServerWithAt => if ch == '@' as int then Dead else ParseServerChar(ch)
    case ReqServerStart => ParseServerChar(ch)
    case ReqServer => ParseServerChar(ch)
    case ReqPath =>
      if IsUrlChar(ch) then s else if ch == '?' as int then ReqQueryStringStart
      else if ch == '#' as int then ReqFragmentStart else Dead
    case ReqQueryStringStart => ParseQueryChar(ch)
    case ReqQueryString => ParseQueryChar(ch)
    case ReqFragmentStart =>
      if IsUrlChar(ch) || ch == '?' as int then ReqFragment else if ch == '#' as int then s else Dead
    case ReqFragment => if IsUrlChar(ch) || ch == '?' as int || ch == '#' as int then s else Dead
    case _ => Dead
  }

  function ParseServerChar(ch: byte): State {
    if ch == '/' as int then ReqPath
    else if ch == '?' as int then ReqQueryStringStart
    else if ch == '@' as int then ReqServerWithAt
    else if IsUserInfoChar(ch) || ch == '[' as int || ch == ']' as int then ReqServer
    else Dead
  }

  function ParseQueryChar(ch: byte): State {
    if IsUrlChar(ch) || ch == '?' as int then ReqQueryString
    else if ch == '#' as int then ReqFragmentStart
    else Dead
  }

  predicate UrlState(s: State) {
    s.ReqSchema? || s.ReqSchemaSlash? || s.ReqSchemaSlashSlash? || s.ReqServerStart? || s.ReqServer?
    || s.ReqServerWithAt? || s.ReqPath? || s.ReqQueryStringStart? || s.ReqQueryString?
    || s.ReqFragmentStart? || s.ReqFragment?
  }

  function UrlByte(p: Parser, ch: byte): Pass {
    var s := ParseUrlChar(p.state, ch);
    if s.Dead? then Refuse(p.(state := s), InvalidUrl) else To(p, s)
  }

  // ---------------------------------------------------------------- request methods

  function MethodString(m: Method): string {
    match m
    case DELETE => "DELETE" case GET => "GET" case HEAD => "HEAD" case POST => "POST" case PUT => "PUT"
    case CONNECT => "CONNECT" case OPTIONS => "OPTIONS" case TRACE => "TRACE" case COPY => "COPY"
    case LOCK => "LOCK" case MKCOL => "MKCOL" case MOVE => "MOVE" case PROPFIND => "PROPFIND"
    case PROPPATCH => "PROPPATCH" case SEARCH => "SEARCH" case UNLOCK => "UNLOCK" case BIND => "BIND"
    case REBIND => "REBIND" case UNBIND => "UNBIND" case ACL => "ACL" case REPORT => "REPORT"
    case MKACTIVITY => "MKACTIVITY" case CHECKOUT => "CHECKOUT" case MERGE => "MERGE"
    case MSEARCH => "M-SEARCH" case NOTIFY => "NOTIFY" case SUBSCRIBE => "SUBSCRIBE"
    case UNSUBSCRIBE => "UNSUBSCRIBE" case PATCH => "PATCH" case PURGE => "PURGE"
    case MKCALENDAR => "MKCALENDAR" case LINK => "LINK" case UNLINK => "UNLINK" case SOURCE => "SOURCE"
  }

  datatype Choice = Chosen(m: Method) | NoMethod

  /** The method assumed after its first letter. */
  function FirstGuess(ch: byte): Choice {
    if ch == 'A' as int then Chosen(ACL) else if ch == 'B' as int then Chosen(BIND)
    else if ch == 'C' as int then Chosen(CONNECT) else if ch == 'D' as int then Chosen(DELETE)
    else if ch == 'G' as int then Chosen(GET) else if ch == 'H' as int then Chosen(HEAD)
    else if ch == 'L' as int then Chosen(LOCK) else if ch == 'M' as int then Chosen(MKCOL)
    else if ch == 'N' as int then Chosen(NOTIFY) else if ch == 'O' as int then Chosen(OPTIONS)
    else if ch == 'P' as int then Chosen(POST) else if ch == 'R' as int then Chosen(REPORT)
    else if ch == 'S' as int then Chosen(SUBSCRIBE) else if ch == 'T' as int then Chosen(TRACE)
    else if ch == 'U' as int then Chosen(UNLOCK) else NoMethod
  }

  /** The table of second guesses, taken when the assumed method does not go on with `ch`. */
  function NextGuess(m: Method, index: nat, ch: byte): Choice {
    if m == POST && index == 1 && ch == 'U' as int then Chosen(PUT)
    else if m == POST && index == 1 && ch == 'A' as int then Chosen(PATCH)
    else if m == POST && index == 1 && ch == 'R' as int then Chosen(PROPFIND)
    else if m == PUT && index == 2 && ch == 'R' as int then Chosen(PURGE)
    else if m == CONNECT && index == 1 && ch == 'H' as int then Chosen(CHECKOUT)
    else if m == CONNECT && index == 2 && ch == 'P' as int then Chosen(COPY)
    else if m == MKCOL && index == 1 && ch == 'O' as int then Chosen(MOVE)
    else if m == MKCOL && index == 1 && ch == 'E' as int then Chosen(MERGE)
    else if m == MKCOL && index == 1 && ch == '-' as int then Chosen(MSEARCH)
    else if m == MKCOL && index == 2 && ch == 'A' as int then Chosen(MKACTIVITY)
    else if m == MKCOL && index == 3 && ch == 'A' as int then Chosen(MKCALENDAR)
    else if m == SUBSCRIBE && index == 1 && ch == 'E' as int then Chosen(SEARCH)
    else if m == SUBSCRIBE && index == 1 && ch == 'O' as int then Chosen(SOURCE)
    else if m == REPORT && index == 2 && ch == 'B' as int then Chosen(REBIND)
    else if m == PROPFIND && index == 4 && ch == 'P' as int then Chosen(PROPPATCH)
    else if m == LOCK && index == 1 && ch == 'I' as int then Chosen(LINK)
    else if m == UNLOCK && index == 2 && ch == 'S' as int then Chosen(UNSUBSCRIBE)
    else if m == UNLOCK && index == 2 && ch == 'B' as int then Chosen(UNBIND)
    else if m == UNLOCK && index == 3 && ch == 'I' as int then Chosen(UNLINK)
    else NoMethod
  }

  function MethodByte(p: Parser, ch: byte): Pass {
    if ch == 0 then Refuse(p, InvalidMethod) else
    var want := At(MethodString(p.verb), p.index);
    if ch == ' ' as int && want == 0 then To(p.(index := p.index + 1), ReqSpacesBeforeUrl)
    else if ch == want then Pass(p.(index := p.index + 1), [], Go)
    else if 'A' as int <= ch <= 'Z' as int || ch == '-' as int then
      match NextGuess(p.verb, p.index, ch)
      case Chosen(m) => Pass(p.(verb := m, index := p.index + 1), [], Go)
      case NoMethod => Refuse(p, InvalidMethod)
    else Refuse(p, InvalidMethod)
  }

  function StartReqByte(p: Parser, ch: byte): Pass {
    if ch == CR || ch == LF then Pass(p, [], Go) else
    var q := p.(flags := NO_FLAGS, contentLength := ULLONG_MAX);
    if !IsAlpha(ch) then Refuse(q, InvalidMethod) else
    match FirstGuess(ch)
    case Chosen(m) => Pass(q.(verb := m, index := 1, state := ReqMethod), [Notify(MessageBegin)], Go)
    case NoMethod => Refuse(q.(verb := DELETE, index := 1), InvalidMethod)
  }

  // ---------------------------------------------------------------- request and status line

  function VersionByte(p: Parser, ch: byte, s: State): Pass {
    if IsNum(ch) then To(p, s) else Refuse(p, InvalidVersion)
  }

  function StatusByte(p: Parser, ch: byte): Pass {
    if ch == CR then Pass(p.(state := ResLineAlmostDone), [Flush(Status)], Go)
    else if ch == LF then Pass(p.(state := HeaderFieldStart), [Flush(Status)], Go)
    else Pass(p, [], Go)
  }

  function StatusStartByte(p: Parser, ch: byte): Pass {
    var q := p.(state := ResStatus, index := 0);
    After([Mark(Status)], if ch == CR || ch == LF then StatusByte(q, ch) else Pass(q, [], Go))
  }

  function StatusCodeByte(p: Parser, ch: byte): Pass {
    if !IsNum(ch) then
      if ch == ' ' as int then To(p, ResStatusStart)
      else if ch == CR || ch == LF then StatusStartByte(p.(state := ResStatusStart), ch)
      else Refuse(p, InvalidStatus)
    else
      var code := p.statusCode * 10 + (ch - '0' as int);
      if code > 999 then Refuse(p.(statusCode := code), InvalidStatus) else Pass(p.(statusCode := code), [], Go)
  }

  function ResponseLine(p: Parser, ch: byte): Pass {
    match p.state
    case StartRes =>
      if ch == CR || ch == LF then Pass(p, [], Go) else
      var q := p.(flags := NO_FLAGS, contentLength := ULLONG_MAX);
      if ch == 'H' as int then Pass(q.(state := ResH), [Notify(MessageBegin)], Go) else Refuse(q, InvalidConstant)
    case ResH => Expect(p, ch == 'T' as int, ResHT)
    case ResHT => Expect(p, ch == 'T' as int, ResHTT)
    case ResHTT => Expect(p, ch == 'P' as int, ResHTTP)
    case ResHTTP => Expect(p, ch == '/' as int, ResHttpMajor)
    case ResHttpMajor =>
      VersionByte(p.(httpMajor := if IsNum(ch) then ch - '0' as int else p.httpMajor), ch, ResHttpDot)
    case ResHttpDot => if ch == '.' as int then To(p, ResHttpMinor) else Refuse(p, InvalidVersion)
    case ResHttpMinor =>
      VersionByte(p.(httpMinor := if IsNum(ch) then ch - '0' as int else p.httpMinor), ch, ResHttpEnd)
    case ResHttpEnd => if ch == ' ' as int then To(p, ResFirstStatusCode) else Refuse(p, InvalidVersion)
    case ResFirstStatusCode =>
      if IsNum(ch) then To(p.(statusCode := ch - '0' as int), ResStatusCode)
      else if ch == ' ' as int then Pass(p, [], Go) else Refuse(p, InvalidStatus)
    case ResStatusCode => StatusCodeByte(p, ch)
    case ResStatusStart => StatusStartByte(p, ch)
    case ResStatus => StatusByte(p, ch)
    case ResLineAlmostDone => Expect(p, ch == LF, HeaderFieldStart)
    case _ => Refuse(p, InvalidInternalState)
  }

  function StartReqOrResByte(p: Parser, ch: byte): Pass {
    if ch == CR || ch == LF then Pass(p, [], Go) else
    var q := p.(flags := NO_FLAGS, contentLength := ULLONG_MAX);
    if ch == 'H' as int then Pass(q.(state := ResOrRespH), [Notify(MessageBegin)], Go)
    else StartReqByte(q.(kind := Request, state := StartReq), ch)
  }

  function ResOrRespHByte(p: Parser, ch: byte): Pass {
    if ch == 'T' as int then To(p.(kind := Response), ResHT)
    else if ch != 'E' as int then Refuse(p, InvalidConstant)
    else To(p.(kind := Request, verb := HEAD, index := 2), ReqMethod)
  }

  function RequestLine(p: Parser, ch: byte): Pass {
    match p.state
    case StartReq => StartReqByte(p, ch)
    case ReqMethod => MethodByte(p, ch)
    case ReqSpacesBeforeUrl =>
      if ch == ' ' as int then Pass(p, [], Go)
      else After([Mark(Url)], UrlByte(if p.verb == CONNECT then p.(state := ReqServerStart) else p, ch))
    case ReqHttpStart =>
      if ch == ' ' as int then Pass(p, [], Go)
      else if ch == 'H' as int then To(p, ReqHttpH)
      else if ch == 'I' as int && p.verb == SOURCE then To(p, ReqHttpI)
      else Refuse(p, InvalidConstant)
    case ReqHttpH => Expect(p, ch == 'T' as int, ReqHttpHT)
    case ReqHttpHT => Expect(p, ch == 'T' as int, ReqHttpHTT)
    case ReqHttpHTT => Expect(p, ch == 'P' as int, ReqHttpHTTP)
    case ReqHttpI => Expect(p, ch == 'C' as int, ReqHttpIC)
    case ReqHttpIC => Expect(p, ch == 'E' as int, ReqHttpHTTP)
    case ReqHttpHTTP => Expect(p, ch == '/' as int, ReqHttpMajor)
    case ReqHttpMajor =>
      VersionByte(p.(httpMajor := if IsNum(ch) then ch - '0' as int else p.httpMajor), ch, ReqHttpDot)
    case ReqHttpDot => if ch == '.' as int then To(p, ReqHttpMinor) else Refuse(p, InvalidVersion)
    case ReqHttpMinor =>
      VersionByte(p.(httpMinor := if IsNum(ch) then ch - '0' as int else p.httpMinor), ch, ReqHttpEnd)
    case ReqHttpEnd =>
      if ch == CR then To(p, ReqLineAlmostDone)
      else if ch == LF then To(p, HeaderFieldStart)
      else Refuse(p, InvalidVersion)
    case ReqLineAlmostDone => if ch == LF then To(p, HeaderFieldStart) else Refuse(p, LfExpected)
    case _ =>
      if p.state.ReqSchema? || p.state.ReqSchemaSlash? || p.state.ReqSchemaSlashSlash? || p.state.ReqServerStart? then
        if ch == ' ' as int || ch == CR || ch == LF then Refuse(p, InvalidUrl) else UrlByte(p, ch)
      else if ch == ' ' as int then Pass(p.(state := ReqHttpStart), [Flush(Url)], Go)
      else if ch == CR || ch == LF then
        Pass(p.(httpMajor := 0, httpMinor := 9, state := if ch == CR then ReqLineAlmostDone else HeaderFieldStart),
             [Flush(Url)], Go)
      else UrlByte(p, ch)
  }

  // ---------------------------------------------------------------- header fields

  const CONNECTION := "connection"
  const PROXY_CONNECTION := "proxy-connection"
  const CONTENT_LENGTH := "content-length"
  const TRANSFER_ENCODING := "transfer-encoding"
  const UPGRADE := "upgrade"
  const CHUNKED := "chunked"
  const KEEP_ALIVE := "keep-alive"
  const CLOSE := "close"

  /** One step along the word `s`: on a mismatch `miss`, at its last character `hit`. */
  function Along(p: Parser, c: byte, s: string, miss: HeaderState, hit: HeaderState): Parser {
    var i := p.index + 1;
    p.(index := i,
       headerState := if i > |s| || c != At(s, i) then miss else if i == |s| - 1 then hit else p.headerState)
  }

  /** One token character of a field name. */
  function FieldChar(p: Parser, ch: byte): Parser {
    var c := Token(ch);
    match p.headerState
    case General => p
    case HC => p.(index := p.index + 1, headerState := if c == 'o' as int then HCO else General)
    case HCO => p.(index := p.index + 1, headerState := if c == 'n' as int then HCON else General)
    case HCON =>
      p.(index := p.index + 1,
         headerState := if c == 'n' as int then MatchingConnection
                        else if c == 't' as int then MatchingContentLength else General)
    case MatchingConnection => Along(p, c, CONNECTION, General, Connection)
    case MatchingProxyConnection => Along(p, c, PROXY_CONNECTION, General, Connection)
    case MatchingContentLength => Along(p, c, CONTENT_LENGTH, General, ContentLength)
    case MatchingTransferEncoding => Along(p, c, TRANSFER_ENCODING, General, TransferEncoding)
    case MatchingUpgrade => Along(p, c, UPGRADE, General, Upgrade)
    case _ => if ch != ' ' as int then p.(headerState := General) else p
  }

  /** The byte that ends a run of token characters. */
  function FieldEnd(p: Parser, ch: byte): Pass {
    if ch == ':' as int then Pass(p.(state := HeaderValueDiscardWs), [Flush(Field)], Go)
    else Refuse(p, InvalidHeaderToken)
  }

  function FieldByte(p: Parser, ch: byte): Pass {
    if Token(ch) != 0 then Pass(FieldChar(p, ch), [], Go) else FieldEnd(p, ch)
  }

  function FieldStart(p: Parser, ch: byte): Pass {
    if ch == CR then To(p, HeadersAlmostDone)
    else if ch == LF then AlmostDone(p.(state := HeadersAlmostDone), ch)
    else
      var c := Token(ch);
      if c == 0 then Refuse(p, InvalidHeaderToken)
      else
        Pass(p.(index := 0, state := HeaderField,
                headerState := if c == 'c' as int then HC
                               else if c == 'p' as int then MatchingProxyConnection
                               else if c == 't' as int then MatchingTransferEncoding
                               else if c == 'u' as int then MatchingUpgrade else General),
             [Mark(Field)], Go)
  }

  // ---------------------------------------------------------------- header values

  /** `s_header_value_start`: the first byte of a value, or of a folded continuation line. */
  function ValueStart(p: Parser, ch: byte): Pass {
    var q := p.(state := HeaderValue, index := 0);
    var c := Lower(ch);
    After([Mark(Value)],
      match p.headerState
      case Upgrade => Pass(q.(flags := q.flags.(upgrade := true), headerState := General), [], Go)
      case TransferEncoding =>
        Pass(q.(headerState := if c == 'c' as int then MatchingTransferEncodingChunked else General), [], Go)
      case ContentLength =>
        if !IsNum(ch) then Refuse(q, InvalidContentLength)
        else if q.flags.contentLength then Refuse(q, UnexpectedContentLength)
        else Pass(q.(flags := q.flags.(contentLength := true), contentLength := ch - '0' as int,
                     headerState := ContentLengthNum), [], Go)
      case ContentLengthWs => Pass(q, [], Go)
      case Connection =>
        Pass(q.(headerState := if c == 'k' as int then MatchingConnectionKeepAlive
                               else if c == 'c' as int then MatchingConnectionClose
                               else if c == 'u' as int then MatchingConnectionUpgrade
                               else MatchingConnectionToken), [], Go)
      case MatchingConnectionTokenStart => Pass(q, [], Go)
      case _ => Pass(q.(headerState := General), [], Go))
  }

  /** A decimal digit more; the test is against a conservative limit. */
  function LengthDigit(p: Parser, ch: byte): Pass {
    if ch == ' ' as int then Pass(p.(headerState := ContentLengthWs), [], Go)
    else if !IsNum(ch) then Refuse(p, InvalidContentLength)
    else if (ULLONG_MAX - 10) / 10 < p.contentLength then Refuse(p, InvalidContentLength)
    else Pass(p.(contentLength := p.contentLength * 10 + (ch - '0' as int)), [], Go)
  }

  function ConnectionEnd(p: Parser, ch: byte): Parser {
    if ch == ',' as int then
      WithConnectionFlag(p).(headerState := MatchingConnectionTokenStart, index := 0)
    else if ch != ' ' as int then p.(headerState := MatchingConnectionToken)
    else p
  }

  function WithConnectionFlag(p: Parser): Parser {
    p.(flags := ConnectionFlags(p.flags, p.headerState))
  }

  function ConnectionFlags(f: Flags, h: HeaderState): Flags {
    if h.ConnectionKeepAlive? then f.(keepAlive := true)
    else if h.ConnectionClose? then f.(close := true)
    else if h.ConnectionUpgrade? then f.(connectionUpgrade := true)
    else f
  }

  /** One character of a value that is neither CR nor LF and is allowed there. */
  function ValueChar(p: Parser, ch: byte): Pass {
    var c := Lower(ch);
    match p.headerState
    case General => Pass(p, [], Go)
    case Connection => Refuse(p, InvalidInternalState)
    case TransferEncoding => Refuse(p, InvalidInternalState)
    case ContentLength => if ch == ' ' as int then Pass(p, [], Go)
                          else LengthDigit(p.(headerState := ContentLengthNum), ch)
    case ContentLengthNum => LengthDigit(p, ch)
    case ContentLengthWs => if ch == ' ' as int then Pass(p, [], Go) else Refuse(p, InvalidContentLength)
    case MatchingTransferEncodingChunked => Pass(Along(p, c, CHUNKED, General, TransferEncodingChunked), [], Go)
    case MatchingConnectionTokenStart =>
      Pass(p.(headerState := if c == 'k' as int then MatchingConnectionKeepAlive
                             else if c == 'c' as int then MatchingConnectionClose
                             else if c == 'u' as int then MatchingConnectionUpgrade
                             else if c != ' ' as int && Token(c) != 0 then MatchingConnectionToken
                             else if c == ' ' as int || c == 9 then MatchingConnectionTokenStart
                             else General), [], Go)
    case MatchingConnectionKeepAlive =>
      Pass(Along(p, c, KEEP_ALIVE, MatchingConnectionToken, ConnectionKeepAlive), [], Go)
    case MatchingConnectionClose => Pass(Along(p, c, CLOSE, MatchingConnectionToken, ConnectionClose), [], Go)
    case MatchingConnectionUpgrade => Pass(Along(p, c, UPGRADE, MatchingConnectionToken, ConnectionUpgrade), [], Go)
    case MatchingConnectionToken =>
      Pass(if ch == ',' as int then p.(headerState := MatchingConnectionTokenStart, index := 0) else p, [], Go)
    case TransferEncodingChunked => Pass(if ch != ' ' as int then p.(headerState := General) else p, [], Go)
    case ConnectionKeepAlive => Pass(ConnectionEnd(p, ch), [], Go)
    case ConnectionClose => Pass(ConnectionEnd(p, ch), [], Go)
    case ConnectionUpgrade => Pass(ConnectionEnd(p, ch), [], Go)
    case _ => Pass(p.(headerState := General), [], Go)
  }

  function ValueByte(p: Parser, ch: byte): Pass {
    if ch == CR then Pass(p.(state := HeaderAlmostDone), [Flush(Value)], Go)
    else if ch == LF then After([Flush(Value)], HeaderAlmostDoneByte(p.(state := HeaderAlmostDone), ch))
    else if !p.lenient && !IsHeaderChar(ch) then Refuse(p, InvalidHeaderToken)
    else ValueChar(p, ch)
  }

  function HeaderAlmostDoneByte(p: Parser, ch: byte): Pass {
    if ch == LF then To(p, HeaderValueLws) else Refuse(p, LfExpected)
  }

  /** What a finished value means. */
  function Finished(p: Parser): Parser {
    if p.headerState.TransferEncodingChunked? then p.(flags := p.flags.(chunked := true)) else WithConnectionFlag(p)
  }

  function LwsByte(p: Parser, ch: byte): Pass {
    if ch == ' ' as int || ch == 9 then
      var q := if p.headerState.ContentLengthNum? then p.(headerState := ContentLengthWs) else p;
      ValueStart(q.(state := HeaderValueStart), ch)
    else FieldStart(Finished(p).(state := HeaderFieldStart), ch)
  }

  function DiscardLwsByte(p: Parser, ch: byte): Pass {
    if ch == ' ' as int || ch == 9 then To(p, HeaderValueDiscardWs)
    else if p.headerState.ContentLength? then Refuse(p, InvalidContentLength)
    else After([Mark(Value), Flush(Value)], FieldStart(Finished(p).(state := HeaderFieldStart), ch))
  }

  function HeaderLine(p: Parser, ch: byte): Pass {
    match p.state
    case HeaderFieldStart => FieldStart(p, ch)
    case HeaderField => FieldByte(p, ch)
    case HeaderValueDiscardWs =>
      if ch == ' ' as int || ch == 9 then Pass(p, [], Go)
      else if ch == CR then To(p, HeaderValueDiscardWsAlmostDone)
      else if ch == LF then To(p, HeaderValueDiscardLws)
      else ValueStart(p, ch)
    case HeaderValueDiscardWsAlmostDone => Expect(p, ch == LF, HeaderValueDiscardLws)
    case HeaderValueDiscardLws => DiscardLwsByte(p, ch)
    case HeaderValueStart => ValueStart(p, ch)
    case HeaderValue => ValueByte(p, ch)
    case HeaderAlmostDone => HeaderAlmostDoneByte(p, ch)
    case HeaderValueLws => LwsByte(p, ch)
    case HeadersAlmostDone => AlmostDone(p, ch)
    case HeadersDone => HeadersDoneByte(p, ch)
    case _ => Refuse(p, InvalidInternalState)
  }

  // ---------------------------------------------------------------- the end of the headers

  /** `http_message_needs_eof` */
  predicate MessageNeedsEof(p: Parser) {
    && !p.kind.Request?
    && !(p.statusCode / 100 == 1 || p.statusCode == 204 || p.statusCode == 304 || p.flags.skipBody)
    && !(p.flags.chunked || p.contentLength != ULLONG_MAX)
  }

  /** `http_should_keep_alive` */
  predicate ShouldKeepAlive(p: Parser) {
    && (if p.httpMajor > 0 && p.httpMinor > 0 then !p.flags.close else p.flags.keepAlive)
    && !MessageNeedsEof(p)
  }

  /** `NEW_MESSAGE` in strict mode. */
  function NewMessage(p: Parser): State {
    if !ShouldKeepAlive(p) then Dead else if p.kind.Request? then StartReq else StartRes
  }

  function Complete(p: Parser, fate: Fate): Pass {
    Pass(p.(state := NewMessage(p)), [Notify(MessageComplete)], fate)
  }

  function AlmostDone(p: Parser, ch: byte): Pass {
    if ch != LF then Refuse(p, Strict)
    else if p.flags.trailing then After([Notify(ChunkComplete)], MessageDoneByte(p.(state := MessageDone)))
    else if p.flags.chunked && p.flags.contentLength then Refuse(p, UnexpectedContentLength)
    else
      var upgrade := if p.flags.upgrade && p.flags.connectionUpgrade
                     then p.kind.Request? || p.statusCode == 101 else p.verb == CONNECT;
      After([Notify(HeadersComplete)], HeadersDoneByte(p.(state := HeadersDone, upgrade := upgrade), ch))
  }

  predicate HasBody(p: Parser) {
    p.flags.chunked || (p.contentLength > 0 && p.contentLength != ULLONG_MAX)
  }

  function HeadersDoneByte(p: Parser, ch: byte): Pass {
    if ch != LF then Refuse(p, Strict) else
    var q := p.(nread := 0);
    if q.upgrade && (q.verb == CONNECT || q.flags.skipBody || !HasBody(q)) then Complete(q, Leave)
    else if q.flags.skipBody then Complete(q, Go)
    else if q.flags.chunked then To(q, ChunkSizeStart)
    else if q.contentLength == 0 then Complete(q, Go)
    else if q.contentLength != ULLONG_MAX then To(q, BodyIdentity)
    else if !MessageNeedsEof(q) then Complete(q, Go)
    else To(q, BodyIdentityEof)
  }

  function MessageDoneByte(p: Parser): Pass {
    Complete(p, if p.upgrade then Leave else Go)
  }

  // ---------------------------------------------------------------- the body

  /** One byte of a body with a declared length. */
  function IdentityByte(p: Parser): Pass {
    var q := p.(contentLength := if p.contentLength > 0 then p.contentLength - 1 else 0);
    if q.contentLength == 0 then After([Mark(Body), FlushAfter(Body)], MessageDoneByte(q.(state := MessageDone)))
    else Pass(q, [Mark(Body)], Go)
  }

  function ChunkDataByte(p: Parser): Pass {
    var q := p.(contentLength := if p.contentLength > 0 then p.contentLength - 1 else 0);
    Pass(if q.contentLength == 0 then q.(state := ChunkDataAlmostDone) else q, [Mark(Body)], Go)
  }

  function ChunkSizeByte(p: Parser, ch: byte): Pass {
    if ch == CR then To(p, ChunkSizeAlmostDone)
    else if Unhex(ch) == 16 then
      if ch == ';' as int || ch == ' ' as int then To(p, ChunkParameters) else Refuse(p, InvalidChunkSize)
    else if (ULLONG_MAX - 16) / 16 < p.contentLength then Refuse(p, InvalidContentLength)
    else Pass(p.(contentLength := p.contentLength * 16 + Unhex(ch)), [], Go)
  }

  function ChunkHeaderEnd(p: Parser, ch: byte): Pass {
    if ch != LF then Refuse(p, Strict)
    else if p.contentLength == 0 then
      Pass(p.(nread := 0, flags := p.flags.(trailing := true), state := HeaderFieldStart), [Notify(ChunkHeader(0))], Go)
    else Pass(p.(nread := 0, state := ChunkData), [Notify(ChunkHeader(p.contentLength))], Go)
  }

  function BodyPart(p: Parser, ch: byte): Pass {
    match p.state
    case BodyIdentity => IdentityByte(p)
    case BodyIdentityEof => Pass(p, [Mark(Body)], Go)
    case MessageDone => MessageDoneByte(p)
    case ChunkSizeStart =>
      if Unhex(ch) == 16 then Refuse(p, InvalidChunkSize) else To(p.(contentLength := Unhex(ch)), ChunkSize)
    case ChunkSize => ChunkSizeByte(p, ch)
    case ChunkParameters => if ch == CR then To(p, ChunkSizeAlmostDone) else Pass(p, [], Go)
    case ChunkSizeAlmostDone => ChunkHeaderEnd(p, ch)
    case ChunkData => ChunkDataByte(p)
    case ChunkDataAlmostDone => if ch == CR then Pass(p.(state := ChunkDataDone), [Flush(Body)], Go)
                                else Refuse(p, Strict)
    case ChunkDataDone =>
      if ch == LF then Pass(p.(nread := 0, state := ChunkSizeStart), [Notify(ChunkComplete)], Go) else Refuse(p, Strict)
    case _ => Refuse(p, InvalidInternalState)
  }

  // ---------------------------------------------------------------- one byte

  predicate BodyState(s: State) {
    s.BodyIdentity? || s.BodyIdentityEof? || s.MessageDone? || s.ChunkSizeStart? || s.ChunkSize?
    || s.ChunkParameters? || s.ChunkSizeAlmostDone? || s.ChunkData? || s.ChunkDataAlmostDone? || s.ChunkDataDone?
  }

  predicate HeaderLineState(s: State) {
    s.HeaderFieldStart? || s.HeaderField? || s.HeaderValueDiscardWs? || s.HeaderValueDiscardWsAlmostDone?
    || s.HeaderValueDiscardLws? || s.HeaderValueStart? || s.HeaderValue? || s.HeaderAlmostDone?
    || s.HeaderValueLws? || s.HeadersAlmostDone? || s.HeadersDone?
  }

  predicate ResponseState(s: State) {
    s.StartRes? || s.ResH? || s.ResHT? || s.ResHTT? || s.ResHTTP? || s.ResHttpMajor? || s.ResHttpDot?
    || s.ResHttpMinor? || s.ResHttpEnd? || s.ResFirstStatusCode? || s.ResStatusCode? || s.ResStatusStart?
    || s.ResStatus? || s.ResLineAlmostDone?
  }

  /** The `switch`: every state, one byte. */
  function Switch(p: Parser, ch: byte): Pass {
    if p.state.Dead? then if ch == CR || ch == LF then Pass(p, [], Go) else Refuse(p, ClosedConnection)
    else if p.state.StartReqOrRes? then StartReqOrResByte(p, ch)
    else if p.state.ResOrRespH? then ResOrRespHByte(p, ch)
    else if ResponseState(p.state) then ResponseLine(p, ch)
    else if HeaderLineState(p.state) then HeaderLine(p, ch)
    else if BodyState(p.state) then BodyPart(p, ch)
    else RequestLine(p, ch)
  }

  /** `PARSING_HEADER`: the states before the body, whose bytes are counted. */
  predicate ParsingHeader(s: State) {
    !(s.ChunkData? || s.ChunkDataAlmostDone? || s.ChunkDataDone? || s.BodyIdentity? || s.BodyIdentityEof?
      || s.MessageDone?)
  }

  /** One byte: counted against the header limit, then the `switch`. */
  function Step(p: Parser, ch: byte): Pass {
    if !ParsingHeader(p.state) then Switch(p, ch)
    else if p.nread + 1 > MAX_HEADER_SIZE then Refuse(p.(nread := p.nread + 1), HeaderOverflow)
    else Switch(p.(nread := p.nread + 1), ch)
  }
}
