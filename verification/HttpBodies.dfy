/**
  Message bodies in http/src/http_parser.c: what is given to `on_body` is exactly what was declared, for
  a Content-Length and for chunks (section 4.1 of RFC 7230).
 */
module HttpBodies {
  import opened Common
  import opened HttpModel
  import opened HttpRuns
  import opened HttpCuts

  import opened HttpSound

  // ---------------------------------------------------------------- one byte of a run

  /** An outcome reached `n` bytes later. */
  function Later(n: nat, o: Outcome): Outcome {
    o.(consumed := n + o.consumed)
  }

  lemma OneCall(p: Parser, a: seq<Event>, ch: byte, rest: seq<byte>, q: Parser, made: seq<Event>)
    requires Execute(p, [ch]) == Result(q, made, Go, 1)
    ensures Bytewise(p, a, [ch] + rest) == Later(1, Bytewise(q, Join(a, made), rest))
  {
    hide Execute;
    assert ([ch] + rest)[..1] == [ch];
    assert ([ch] + rest)[1..] == rest;
  }

  /** A byte that changes the state and no more. */
  lemma Quiet(p: Parser, a: seq<Event>, ch: byte, rest: seq<byte>, q: Parser)
    requires OpenSpans(p.state) == {} && Step(p, ch) == Pass(q, [], Go)
    ensures Bytewise(p, a, [ch] + rest) == Later(1, Bytewise(q, a, rest))
  {
    hide Step;
    OneByteCall(p, ch);
    assert InitialMarks(p.state) == map[];
    OneCall(p, a, ch, rest, q, []);
  }

  lemma Noticed(p: Parser, a: seq<Event>, ch: byte, rest: seq<byte>, q: Parser, n: Notice)
    requires OpenSpans(p.state) == {} && Step(p, ch) == Pass(q, [Notify(n)], Go)
    ensures Bytewise(p, a, [ch] + rest) == Later(1, Bytewise(q, a + [Notice(n)], rest))
  {
    hide Step;
    hide Bytewise;
    OneByteCall(p, ch);
    assert InitialMarks(p.state) == map[];
    assert [Notify(n)][1..] == [];
    assert PerformAll([Notify(n)], map[], [ch], 0) == Marked(map[], [Notice(n)] + []);
    assert [Notice(n)] + [] + [] == [Notice(n)];
    OneCall(p, a, ch, rest, q, [Notice(n)]);
    JoinSingle(a, Notice(n));
  }

  lemma MarkCall(p: Parser, ch: byte)
    requires OpenSpans(p.state) == {} && Step(p, ch) == Pass(Step(p, ch).p, [Mark(Body)], Go)
    ensures Execute(p, [ch]) == Result(Step(p, ch).p, [Data(Body, [ch])], Go, 1)
  {
    hide Step;
    OneByteCall(p, ch);
    assert InitialMarks(p.state) == map[];
    assert [Mark(Body)][1..] == [];
    assert PerformAll([Mark(Body)], map[], [ch], 0) == Marked(map[Body := 0], [] + []);
    assert [ch][0..] == [ch];
    assert [] + [] + LeftOver(map[Body := 0], [ch]) == [Data(Body, [ch])];
  }

  lemma BodyGiven(p: Parser, a: seq<Event>, ch: byte, rest: seq<byte>, q: Parser)
    requires OpenSpans(p.state) == {} && Step(p, ch) == Pass(q, [Mark(Body)], Go)
    ensures Bytewise(p, a, [ch] + rest) == Later(1, Bytewise(q, JoinOne(a, Data(Body, [ch])), rest))
  {
    hide Step;
    hide Bytewise;
    hide JoinOne;
    MarkCall(p, ch);
    OneCall(p, a, ch, rest, q, [Data(Body, [ch])]);
    JoinSingle(a, Data(Body, [ch]));
  }

  /** The span of a body, joined on; no bytes make no callback. */
  function WithBody(a: seq<Event>, body: seq<byte>): seq<Event> {
    if body == [] then a else JoinOne(a, Data(Body, body))
  }

  lemma WithBodyMore(a: seq<Event>, ch: byte, body: seq<byte>)
    ensures WithBody(JoinOne(a, Data(Body, [ch])), body) == WithBody(a, [ch] + body)
  {
    hide JoinOne;
    if body == [] {
      assert [ch] + body == [ch];
    } else {
      JoinData(a, Body, [ch], body);
    }
  }

  lemma BodyByte(p: Parser, ch: byte)
    requires (p.state.BodyIdentity? || p.state.ChunkData?) && p.contentLength > 1
    ensures Step(p, ch) == Pass(p.(contentLength := p.contentLength - 1), [Mark(Body)], Go)
  {
  }

  /** Fewer bytes than are still expected: each is given to `on_body`, and the count goes down by as many. */
  lemma {:induction false} BodyGoesOn(p: Parser, a: seq<Event>, body: seq<byte>, rest: seq<byte>)
    requires (p.state.BodyIdentity? || p.state.ChunkData?) && |body| < p.contentLength
    ensures Bytewise(p, a, body + rest)
         == Later(|body|, Bytewise(p.(contentLength := p.contentLength - |body|), WithBody(a, body), rest))
    decreases |body|
  {
    hide Bytewise;
    hide Step;
    hide JoinOne;
    if body == [] {
      assert body + rest == rest;
    } else {
      var ch, tail := body[0], body[1..];
      assert body + rest == [ch] + (tail + rest);
      var q := p.(contentLength := p.contentLength - 1);
      BodyByte(p, ch);
      BodyGiven(p, a, ch, tail + rest, q);
      BodyGoesOn(q, JoinOne(a, Data(Body, [ch])), tail, rest);
      WithBodyMore(a, ch, tail);
      assert [ch] + tail == body;
    }
  }

  // ---------------------------------------------------------------- a declared length

  function EndedBody(p: Parser): Parser {
    var q := p.(contentLength := 0, state := MessageDone);
    q.(state := NewMessage(q))
  }

  lemma LastByteStep(p: Parser, ch: byte)
    requires p.state.BodyIdentity? && p.contentLength == 1
    ensures Step(p, ch) == Pass(EndedBody(p), [Mark(Body), FlushAfter(Body), Notify(MessageComplete)],
                                if p.upgrade then Leave else Go)
  {
    hide ShouldKeepAlive;
    assert [Mark(Body), FlushAfter(Body)] + [Notify(MessageComplete)]
        == [Mark(Body), FlushAfter(Body), Notify(MessageComplete)];
  }

  lemma LastByteActs(ch: byte)
    ensures PerformAll([Mark(Body), FlushAfter(Body), Notify(MessageComplete)], map[], [ch], 0)
         == Marked(map[], [Data(Body, [ch]), Notice(MessageComplete)])
  {
    var acts := [Mark(Body), FlushAfter(Body), Notify(MessageComplete)];
    assert acts[1..] == [FlushAfter(Body), Notify(MessageComplete)];
    assert acts[1..][1..] == [Notify(MessageComplete)];
    assert acts[1..][1..][1..] == [];
    var m: Marks := map[Body := 0];
    assert m - {Body} == map[];
    assert [ch][0..1] == [ch];
    assert PerformAll(acts[1..][1..], map[], [ch], 0) == Marked(map[], [Notice(MessageComplete)] + []);
    assert PerformAll(acts[1..], m, [ch], 0) == Marked(map[], [Data(Body, [ch])] + [Notice(MessageComplete)]);
    assert [] + ([Data(Body, [ch])] + [Notice(MessageComplete)]) == [Data(Body, [ch]), Notice(MessageComplete)];
  }

  lemma LastByteCall(p: Parser, ch: byte)
    requires p.state.BodyIdentity? && p.contentLength == 1
    ensures Execute(p, [ch])
         == Result(EndedBody(p), [Data(Body, [ch]), Notice(MessageComplete)], if p.upgrade then Leave else Go, 1)
  {
    hide Step;
    hide PerformAll;
    hide EndedBody;
    OneByteCall(p, ch);
    LastByteStep(p, ch);
    LastByteActs(ch);
    assert InitialMarks(p.state) == map[];
    assert [Data(Body, [ch]), Notice(MessageComplete)] + [] == [Data(Body, [ch]), Notice(MessageComplete)];
  }

  /** What follows a message: another, or bytes that are not for this parser. */
  function NextMessage(p: Parser, a: seq<Event>, rest: seq<byte>): Outcome {
    if p.upgrade then Outcome(p, a, Leave, 0) else Bytewise(p, a, rest)
  }

  /**
    Body conservation for a declared length: of whatever follows the headers, the first `contentLength`
    bytes and no others are given to `on_body`, and then the message is complete.
   */
  lemma IdentityBody(p: Parser, a: seq<Event>, body: seq<byte>, rest: seq<byte>)
    requires p.state.BodyIdentity? && Sound(p) && |body| == p.contentLength
    ensures Bytewise(p, a, body + rest)
         == Later(|body|, NextMessage(EndedBody(p), JoinOne(a, Data(Body, body)) + [Notice(MessageComplete)], rest))
  {
    hide Step;
    hide Execute;
    hide JoinOne;
    hide EndedBody;
    var n := |body| - 1;
    var ch := body[n];
    assert body == body[..n] + [ch];
    assert body + rest == body[..n] + ([ch] + rest);
    var q := p.(contentLength := 1);
    BodyGoesOn(p, a, body[..n], [ch] + rest);
    LastByteCall(q, ch);
    SameEnd(p, q);
    var a1 := WithBody(a, body[..n]);
    var made := [Data(Body, [ch]), Notice(MessageComplete)];
    LastJoin(a, body[..n], ch);
    assert ([ch] + rest)[..1] == [ch];
    assert ([ch] + rest)[1..] == rest;
    assert Bytewise(q, a1, [ch] + rest) == Later(1, NextMessage(EndedBody(q), Join(a1, made), rest));
  }

  lemma SameEnd(p: Parser, q: Parser)
    requires q == p.(contentLength := 1)
    ensures EndedBody(p) == EndedBody(q) && EndedBody(q).upgrade == p.upgrade
  {
    hide ShouldKeepAlive;
    assert q.(contentLength := 0, state := MessageDone) == p.(contentLength := 0, state := MessageDone);
  }

  lemma LastJoin(a: seq<Event>, body: seq<byte>, ch: byte)
    ensures Join(WithBody(a, body), [Data(Body, [ch]), Notice(MessageComplete)])
         == JoinOne(a, Data(Body, body + [ch])) + [Notice(MessageComplete)]
  {
    var made := [Data(Body, [ch]), Notice(MessageComplete)];
    assert made == [made[0]] + [made[1]];
    JoinAppend(WithBody(a, body), [made[0]], [made[1]]);
    JoinSingle(WithBody(a, body), made[0]);
    JoinSingle(JoinOne(WithBody(a, body), made[0]), made[1]);
    if body == [] {
      assert body + [ch] == [ch];
    } else {
      JoinData(a, Body, body, [ch]);
    }
  }

  // ---------------------------------------------------------------- chunks

  /** A chunk as it is sent; the extension includes its ';' or the blanks before it. */
  datatype Chunk = Chunk(size: seq<byte>, extension: seq<byte>, body: seq<byte>)

  /** The number written in hexadecimal digits, after those that make `acc`. */
  function Hex(acc: nat, digits: seq<byte>): (n: nat)
    ensures n >= acc
    decreases |digits|
  {
    if digits == [] then acc else Hex(acc * 16 + Unhex(digits[0]), digits[1..])
  }

  predicate IsSize(digits: seq<byte>) {
    digits != [] && forall k :: 0 <= k < |digits| ==> IsHexDigit(digits[k])
  }

  predicate IsExtension(e: seq<byte>) {
    e != [] ==> (e[0] == ';' as int || e[0] == ' ' as int) && forall k :: 0 <= k < |e| ==> e[k] != CR
  }

  /** A chunk whose header is not too large, and whose size is not within 16 of the 64-bit limit. */
  predicate WellFormed(c: Chunk) {
    && IsSize(c.size) && IsExtension(c.extension) && Hex(0, c.size) == |c.body| <= ULLONG_MAX - 16
    && |c.size| + |c.extension| + 2 <= MAX_HEADER_SIZE
  }

  function HeaderBytes(c: Chunk): seq<byte> {
    c.size + (c.extension + [CR, LF])
  }

  function Encode(c: Chunk): seq<byte> {
    HeaderBytes(c) + (c.body + [CR, LF])
  }

  lemma DigitStep(p: Parser, ch: byte)
    requires (p.state.ChunkSize? || p.state.ChunkSizeStart?) && Unhex(ch) < 16 && p.nread < MAX_HEADER_SIZE
    requires p.state.ChunkSize? ==> p.contentLength <= (ULLONG_MAX - 16) / 16
    ensures var was := if p.state.ChunkSize? then p.contentLength else 0;
            Step(p, ch) == Pass(p.(state := ChunkSize, nread := p.nread + 1, contentLength := was * 16 + Unhex(ch)),
                                [], Go)
  {
    assert ch != CR;
  }

  /**
    Where the code is more lenient than section 4.1 of RFC 7230: of the bytes it takes for digits of a
    chunk size, at its start and inside it, those from 128 on are none, and count as 0.
   */
  lemma SizeBytesTaken(p: Parser, ch: byte)
    requires p.state.ChunkSizeStart? || (p.state.ChunkSize? && p.contentLength <= (ULLONG_MAX - 16) / 16)
    requires p.nread < MAX_HEADER_SIZE
    ensures Step(p, ch).fate.Go? && Step(p, ch).p.state.ChunkSize? <==> IsHexDigit(ch) || ch >= 128
    ensures ch >= 128 ==> Step(p, ch).p.contentLength == if p.state.ChunkSize? then p.contentLength * 16 else 0
  {
    if Unhex(ch) < 16 {
      DigitStep(p, ch);
    }
  }

  lemma {:induction false} DigitsRead(p: Parser, a: seq<Event>, digits: seq<byte>, rest: seq<byte>)
    requires p.state.ChunkSize? && p.nread + |digits| <= MAX_HEADER_SIZE
    requires (forall k :: 0 <= k < |digits| ==> Unhex(digits[k]) < 16)
             && Hex(p.contentLength, digits) <= ULLONG_MAX - 16
    ensures Bytewise(p, a, digits + rest)
         == Later(|digits|,
                  Bytewise(p.(nread := p.nread + |digits|, contentLength := Hex(p.contentLength, digits)), a, rest))
    decreases |digits|
  {
    hide Bytewise;
    hide Step;
    hide Unhex;
    if digits == [] {
      assert digits + rest == rest;
    } else {
      var ch, tail := digits[0], digits[1..];
      assert digits + rest == [ch] + (tail + rest);
      var n := p.contentLength * 16 + Unhex(ch);
      assert Hex(p.contentLength, digits) == Hex(n, tail) >= n;
      DigitStep(p, ch);
      var q := p.(nread := p.nread + 1, contentLength := n);
      Quiet(p, a, ch, tail + rest, q);
      DigitsRead(q, a, tail, rest);
    }
  }

  lemma HexDigits(digits: seq<byte>)
    requires IsSize(digits)
    ensures forall k :: 0 <= k < |digits| ==> Unhex(digits[k]) < 16
  {
  }

  lemma SizeRead(p: Parser, a: seq<Event>, digits: seq<byte>, rest: seq<byte>)
    requires p.state.ChunkSizeStart? && p.nread + |digits| <= MAX_HEADER_SIZE
    requires IsSize(digits) && Hex(0, digits) <= ULLONG_MAX - 16
    ensures var q := p.(state := ChunkSize, nread := p.nread + |digits|, contentLength := Hex(0, digits));
            Bytewise(p, a, digits + rest) == Later(|digits|, Bytewise(q, a, rest))
  {
    hide Bytewise;
    hide Step;
    hide Unhex;
    hide IsHexDigit;
    HexDigits(digits);
    var ch, tail := digits[0], digits[1..];
    var n := 0 * 16 + Unhex(ch);
    assert Hex(0, digits) == Hex(n, tail) >= n;
    hide Hex;
    assert digits + rest == [ch] + (tail + rest);
    DigitStep(p, ch);
    var q := p.(state := ChunkSize, nread := p.nread + 1, contentLength := n);
    Quiet(p, a, ch, tail + rest, q);
    DigitsRead(q, a, tail, rest);
  }

  lemma ExtensionStep(p: Parser, ch: byte)
    requires p.nread < MAX_HEADER_SIZE && ch != CR
    requires p.state.ChunkParameters? || (p.state.ChunkSize? && (ch == ';' as int || ch == ' ' as int))
    ensures Step(p, ch) == Pass(p.(state := ChunkParameters, nread := p.nread + 1), [], Go)
  {
  }

  lemma {:induction false} ExtensionRead(p: Parser, a: seq<Event>, e: seq<byte>, rest: seq<byte>)
    requires p.state.ChunkParameters? || (p.state.ChunkSize? && IsExtension(e))
    requires (forall k :: 0 <= k < |e| ==> e[k] != CR) && p.nread + |e| <= MAX_HEADER_SIZE
    ensures var q := p.(state := if e == [] then p.state else ChunkParameters, nread := p.nread + |e|);
            Bytewise(p, a, e + rest) == Later(|e|, Bytewise(q, a, rest))
    decreases |e|
  {
    hide Bytewise;
    hide Step;
    if e == [] {
      assert e + rest == rest;
    } else {
      var ch, tail := e[0], e[1..];
      assert e + rest == [ch] + (tail + rest);
      ExtensionStep(p, ch);
      var q := p.(state := ChunkParameters, nread := p.nread + 1);
      Quiet(p, a, ch, tail + rest, q);
      ExtensionRead(q, a, tail, rest);
    }
  }

  /** The parser behind the header line of a chunk of `n` bytes. */
  function InChunk(p: Parser, n: nat): Parser {
    if n == 0 then p.(nread := 0, flags := p.flags.(trailing := true), state := HeaderFieldStart, contentLength := 0)
    else p.(nread := 0, state := ChunkData, contentLength := n)
  }

  lemma LineEndSteps(p: Parser)
    requires (p.state.ChunkSize? || p.state.ChunkParameters?) && p.nread + 2 <= MAX_HEADER_SIZE
    ensures var q := p.(state := ChunkSizeAlmostDone, nread := p.nread + 1);
            && Step(p, CR) == Pass(q, [], Go)
            && Step(q, LF) == Pass(InChunk(p, p.contentLength), [Notify(ChunkHeader(p.contentLength))], Go)
  {
  }

  /** The header line of a chunk, its last one included. */
  lemma ChunkHeaderRead(p: Parser, a: seq<Event>, c: Chunk, rest: seq<byte>)
    requires p.state.ChunkSizeStart? && p.nread == 0 && WellFormed(c)
    ensures Bytewise(p, a, HeaderBytes(c) + rest)
         == Later(|HeaderBytes(c)|, Bytewise(InChunk(p, |c.body|), a + [Notice(ChunkHeader(|c.body|))], rest))
  {
    hide Bytewise;
    hide Step;
    hide Unhex;
    hide Hex;
    var tail := [CR, LF] + rest;
    assert HeaderBytes(c) + rest == c.size + (c.extension + tail);
    SizeRead(p, a, c.size, c.extension + tail);
    var q := p.(state := ChunkSize, nread := |c.size|, contentLength := |c.body|);
    ExtensionRead(q, a, c.extension, tail);
    var r := q.(state := if c.extension == [] then ChunkSize else ChunkParameters, nread := |c.size| + |c.extension|);
    LineEndSteps(r);
    assert tail == [CR as byte] + ([LF as byte] + rest);
    var s := r.(state := ChunkSizeAlmostDone, nread := r.nread + 1);
    Quiet(r, a, CR, [LF] + rest, s);
    Noticed(s, a, LF, rest, InChunk(r, |c.body|), ChunkHeader(|c.body|));
    assert InChunk(r, |c.body|) == InChunk(p, |c.body|);
  }

  lemma ChunkEndSteps(p: Parser)
    requires p.state.ChunkDataAlmostDone?
    ensures var q := p.(state := ChunkDataDone);
            && Step(p, CR) == Pass(q, [Flush(Body)], Go)
            && Step(q, LF) == Pass(p.(state := ChunkSizeStart, nread := 0), [Notify(ChunkComplete)], Go)
  {
  }

  lemma NothingMarked(p: Parser, a: seq<Event>, ch: byte, rest: seq<byte>, q: Parser)
    requires OpenSpans(p.state) == {} && Step(p, ch) == Pass(q, [Flush(Body)], Go)
    ensures Bytewise(p, a, [ch] + rest) == Later(1, Bytewise(q, a, rest))
  {
    hide Step;
    hide Bytewise;
    OneByteCall(p, ch);
    assert InitialMarks(p.state) == map[];
    assert [Flush(Body)][1..] == [];
    assert PerformAll([Flush(Body)], map[], [ch], 0) == Marked(map[], [] + []);
    OneCall(p, a, ch, rest, q, []);
  }

  lemma LastChunkByte(p: Parser, ch: byte)
    requires p.state.ChunkData? && p.contentLength == 1
    ensures Step(p, ch) == Pass(p.(contentLength := 0, state := ChunkDataAlmostDone), [Mark(Body)], Go)
  {
  }

  /** The bytes of a chunk, whatever they are, and the line end behind them. */
  lemma ChunkBodyRead(p: Parser, a: seq<Event>, body: seq<byte>, rest: seq<byte>)
    requires p.state.ChunkData? && |body| == p.contentLength > 0
    ensures Bytewise(p, a, body + [CR, LF] + rest)
         == Later(|body| + 2, Bytewise(p.(state := ChunkSizeStart, nread := 0, contentLength := 0),
                                       JoinOne(a, Data(Body, body)) + [Notice(ChunkComplete)], rest))
  {
    hide Bytewise;
    hide Step;
    hide JoinOne;
    var n := |body| - 1;
    var ch, tail := body[n], [CR as byte] + ([LF as byte] + rest);
    assert body == body[..n] + [ch];
    assert body + [CR, LF] + rest == body[..n] + ([ch] + tail);
    BodyGoesOn(p, a, body[..n], [ch] + tail);
    var q := p.(contentLength := 1);
    var r := p.(contentLength := 0, state := ChunkDataAlmostDone);
    LastChunkByte(q, ch);
    var a1, a2 := WithBody(a, body[..n]), JoinOne(a, Data(Body, body));
    BodyGiven(q, a1, ch, tail, r);
    LastOn(a, body[..n], ch);
    ChunkEndSteps(r);
    NothingMarked(r, a2, CR, [LF] + rest, r.(state := ChunkDataDone));
    Noticed(r.(state := ChunkDataDone), a2, LF, rest, r.(state := ChunkSizeStart, nread := 0), ChunkComplete);
  }

  lemma LastOn(a: seq<Event>, body: seq<byte>, ch: byte)
    ensures JoinOne(WithBody(a, body), Data(Body, [ch])) == JoinOne(a, Data(Body, body + [ch]))
  {
    if body == [] {
      assert body + [ch] == [ch];
    } else {
      JoinData(a, Body, body, [ch]);
    }
  }

  /** What a chunk is to the callbacks. */
  function ChunkEvents(c: Chunk): seq<Event> {
    [Notice(ChunkHeader(|c.body|)), Data(Body, c.body), Notice(ChunkComplete)]
  }

  lemma ChunkRead(p: Parser, a: seq<Event>, c: Chunk, rest: seq<byte>)
    requires p.state.ChunkSizeStart? && p.nread == 0 && WellFormed(c) && c.body != []
    ensures Bytewise(p, a, Encode(c) + rest)
         == Later(|Encode(c)|, Bytewise(p.(contentLength := 0), a + ChunkEvents(c), rest))
  {
    hide Bytewise;
    hide WellFormed;
    hide HeaderBytes;
    var tail := c.body + [CR, LF] + rest;
    assert Encode(c) + rest == HeaderBytes(c) + tail;
    ChunkHeaderRead(p, a, c, tail);
    var a1 := a + [Notice(ChunkHeader(|c.body|))];
    ChunkBodyRead(InChunk(p, |c.body|), a1, c.body, rest);
    assert JoinOne(a1, Data(Body, c.body)) == a1 + [Data(Body, c.body)];
    assert a1 + [Data(Body, c.body)] + [Notice(ChunkComplete)] == a + ChunkEvents(c);
    assert p.(state := ChunkSizeStart, nread := 0, contentLength := 0) == p.(contentLength := 0);
  }

  // ---------------------------------------------------------------- a chunked message

  function EncodeAll(chunks: seq<Chunk>): seq<byte>
    decreases |chunks|
  {
    if chunks == [] then [] else Encode(chunks[0]) + EncodeAll(chunks[1..])
  }

  function AllEvents(chunks: seq<Chunk>): seq<Event>
    decreases |chunks|
  {
    if chunks == [] then [] else ChunkEvents(chunks[0]) + AllEvents(chunks[1..])
  }

  predicate AllWellFormed(chunks: seq<Chunk>) {
    forall k :: 0 <= k < |chunks| ==> WellFormed(chunks[k]) && chunks[k].body != []
  }

  lemma {:induction false} ChunksRead(p: Parser, a: seq<Event>, chunks: seq<Chunk>, rest: seq<byte>)
    requires p.state.ChunkSizeStart? && p.nread == 0 && AllWellFormed(chunks)
    ensures Bytewise(p, a, EncodeAll(chunks) + rest)
         == Later(|EncodeAll(chunks)|, Bytewise(if chunks == [] then p else p.(contentLength := 0),
                                                a + AllEvents(chunks), rest))
    decreases |chunks|
  {
    hide Bytewise;
    hide WellFormed;
    hide Encode;
    if chunks == [] {
      assert EncodeAll(chunks) + rest == rest && a + AllEvents(chunks) == a;
    } else {
      var c, more := chunks[0], chunks[1..];
      assert EncodeAll(chunks) + rest == Encode(c) + (EncodeAll(more) + rest);
      ChunkRead(p, a, c, EncodeAll(more) + rest);
      ChunksRead(p.(contentLength := 0), a + ChunkEvents(c), more, rest);
      assert a + ChunkEvents(c) + AllEvents(more) == a + AllEvents(chunks);
    }
  }

  /** The parser behind the empty line that ends a chunked message without trailers. */
  function AfterChunks(p: Parser): Parser {
    var q := p.(nread := 2, flags := p.flags.(trailing := true), contentLength := 0, state := MessageDone);
    q.(state := NewMessage(q))
  }

  lemma FirstEndStep(p: Parser)
    ensures Step(InChunk(p, 0), CR) == Pass(InChunk(p, 0).(nread := 1, state := HeadersAlmostDone), [], Go)
  {
  }

  lemma LastEndStep(p: Parser)
    ensures Step(InChunk(p, 0).(nread := 1, state := HeadersAlmostDone), LF)
         == After([Notify(ChunkComplete)], MessageDoneByte(p.(nread := 2, flags := p.flags.(trailing := true),
                                                               contentLength := 0, state := MessageDone)))
  {
    hide MessageDoneByte;
    var r := InChunk(p, 0).(nread := 1, state := HeadersAlmostDone);
    assert r.(nread := 2, state := MessageDone)
        == p.(nread := 2, flags := p.flags.(trailing := true), contentLength := 0, state := MessageDone);
  }

  lemma FinalSteps(p: Parser)
    ensures var r := InChunk(p, 0).(nread := 1, state := HeadersAlmostDone);
            && Step(InChunk(p, 0), CR) == Pass(r, [], Go)
            && Step(r, LF) == Pass(AfterChunks(p), [Notify(ChunkComplete), Notify(MessageComplete)],
                                   if p.upgrade then Leave else Go)
  {
    hide Step;
    hide ShouldKeepAlive;
    FirstEndStep(p);
    LastEndStep(p);
    hide InChunk;
    assert [Notify(ChunkComplete)] + [Notify(MessageComplete)] == [Notify(ChunkComplete), Notify(MessageComplete)];
  }

  lemma FinalCall(p: Parser)
    ensures Execute(InChunk(p, 0).(nread := 1, state := HeadersAlmostDone), [LF])
         == Result(AfterChunks(p), [Notice(ChunkComplete), Notice(MessageComplete)], if p.upgrade then Leave else Go, 1)
  {
    hide Step;
    hide AfterChunks;
    var r := InChunk(p, 0).(nread := 1, state := HeadersAlmostDone);
    FinalSteps(p);
    OneByteCall(r, LF);
    var acts := [Notify(ChunkComplete), Notify(MessageComplete)];
    assert acts[1..] == [Notify(MessageComplete)] && acts[1..][1..] == [];
    assert InitialMarks(r.state) == map[];
    assert PerformAll(acts[1..], map[], [LF], 0) == Marked(map[], [Notice(MessageComplete)] + []);
    assert PerformAll(acts, map[], [LF], 0) == Marked(map[], [Notice(ChunkComplete)] + [Notice(MessageComplete)]);
    assert [Notice(ChunkComplete)] + [Notice(MessageComplete)] + [] == [Notice(ChunkComplete), Notice(MessageComplete)];
  }

  /** A chunked body without trailers. */
  function Sent(chunks: seq<Chunk>, last: Chunk): seq<byte> {
    EncodeAll(chunks) + HeaderBytes(last) + [CR, LF]
  }

  const FINAL_EVENTS: seq<Event> := [Notice(ChunkHeader(0)), Notice(ChunkComplete), Notice(MessageComplete)]

  /**
    Body conservation for chunks: of any well-formed chunks in a row, whatever their bytes, and the last
    one of size 0, the callbacks get exactly the chunk data, in order and chunk by chunk, and then the
    message is complete.
   */
  lemma ChunkedBody(p: Parser, a: seq<Event>, chunks: seq<Chunk>, last: Chunk, rest: seq<byte>)
    requires p.state.ChunkSizeStart? && p.nread == 0 && AllWellFormed(chunks) && WellFormed(last) && last.body == []
    ensures Bytewise(p, a, Sent(chunks, last) + rest)
         == Later(|Sent(chunks, last)|, NextMessage(AfterChunks(p), a + AllEvents(chunks) + FINAL_EVENTS, rest))
  {
    hide Step;
    hide Execute;
    hide WellFormed;
    hide HeaderBytes;
    hide EncodeAll;
    hide AllEvents;
    hide AfterChunks;
    var tail: seq<byte> := [CR as byte] + ([LF as byte] + rest);
    assert Sent(chunks, last) + rest == EncodeAll(chunks) + (HeaderBytes(last) + tail);
    ChunksRead(p, a, chunks, HeaderBytes(last) + tail);
    var q, a1 := if chunks == [] then p else p.(contentLength := 0), a + AllEvents(chunks);
    ChunkHeaderRead(q, a1, last, tail);
    var a2 := a1 + [Notice(ChunkHeader(0))];
    FinalSteps(q);
    SameAfter(p, q);
    var r := InChunk(q, 0).(nread := 1, state := HeadersAlmostDone);
    Quiet(InChunk(q, 0), a2, CR, [LF] + rest, r);
    FinalCall(q);
    FinalJoin(a1);
    assert ([LF as byte] + rest)[..1] == [LF];
    assert ([LF as byte] + rest)[1..] == rest;
    assert Bytewise(r, a2, [LF] + rest) == Later(1, NextMessage(AfterChunks(q), a1 + FINAL_EVENTS, rest));
  }

  lemma SameAfter(p: Parser, q: Parser)
    requires q == p || q == p.(contentLength := 0)
    ensures AfterChunks(p) == AfterChunks(q) && AfterChunks(p).upgrade == p.upgrade == q.upgrade
  {
    hide ShouldKeepAlive;
    assert p.(nread := 2, flags := p.flags.(trailing := true), contentLength := 0, state := MessageDone)
        == q.(nread := 2, flags := q.flags.(trailing := true), contentLength := 0, state := MessageDone);
  }

  lemma FinalJoin(a: seq<Event>)
    ensures Join(a + [Notice(ChunkHeader(0))], [Notice(ChunkComplete), Notice(MessageComplete)]) == a + FINAL_EVENTS
  {
    var x, y := Notice(ChunkComplete), Notice(MessageComplete);
    var b := a + [Notice(ChunkHeader(0))];
    assert [x, y] == [x] + [y];
    JoinAppend(b, [x], [y]);
    JoinSingle(b, x);
    JoinSingle(b + [x], y);
    assert b + [x] + [y] == a + FINAL_EVENTS;
  }

  // ---------------------------------------------------------------- the bytes of the body

  /** All bytes given to `on_body`. */
  function Given(events: seq<Event>): seq<byte>
    decreases |events|
  {
    if events == [] then [] else
    (if events[0].Data? && events[0].span == Body then events[0].bytes else []) + Given(events[1..])
  }

  function Bodies(chunks: seq<Chunk>): seq<byte>
    decreases |chunks|
  {
    if chunks == [] then [] else chunks[0].body + Bodies(chunks[1..])
  }

  lemma {:induction false} ChunkBytesGiven(chunks: seq<Chunk>)
    ensures Given(AllEvents(chunks)) == Bodies(chunks)
    decreases |chunks|
  {
    if chunks != [] {
      var e, more := ChunkEvents(chunks[0]), AllEvents(chunks[1..]);
      ChunkBytesGiven(chunks[1..]);
      assert (e + more)[1..] == e[1..] + more;
      assert (e[1..] + more)[1..] == e[2..] + more;
      assert (e[2..] + more)[1..] == more;
      assert Given(e[2..] + more) == [] + Given(more);
      assert Given(e[1..] + more) == chunks[0].body + Given(e[2..] + more);
      assert Given(e + more) == [] + Given(e[1..] + more);
    }
  }

  // ---------------------------------------------------------------- the declared length

  function Digit(ch: byte): nat {
    if IsNum(ch) then ch - '0' as int else 0
  }

  /** The number written in decimal digits, after those that make `acc`. */
  function Decimal(acc: nat, digits: seq<byte>): (n: nat)
    ensures n >= acc
    decreases |digits|
  {
    if digits == [] then acc else Decimal(acc * 10 + Digit(digits[0]), digits[1..])
  }

  /** The largest number that one more digit may still be put to. */
  const LENGTH_LIMIT: nat := (ULLONG_MAX - 10) / 10

  predicate Accepted(acc: nat, digits: seq<byte>) {
    digits == [] || Decimal(acc, digits[..|digits| - 1]) <= LENGTH_LIMIT
  }

  lemma LengthStep(p: Parser, ch: byte)
    requires p.state.HeaderValue? && p.headerState.ContentLengthNum? && IsNum(ch) && p.nread < MAX_HEADER_SIZE
    ensures Step(p, ch) == if p.contentLength > LENGTH_LIMIT then Refuse(p.(nread := p.nread + 1), InvalidContentLength)
                           else Pass(p.(nread := p.nread + 1, contentLength := p.contentLength * 10 + Digit(ch)),
                                     [], Go)
  {
  }

  /** A byte inside a value that asks for no callback of its own. */
  lemma ValueGiven(p: Parser, a: seq<Event>, ch: byte, rest: seq<byte>, q: Parser)
    requires p.state.HeaderValue? && Step(p, ch) == Pass(q, [], Go)
    ensures Bytewise(p, a, [ch] + rest) == Later(1, Bytewise(q, JoinOne(a, Data(Value, [ch])), rest))
  {
    hide Step;
    hide Bytewise;
    hide JoinOne;
    OneByteCall(p, ch);
    assert InitialMarks(p.state) == map[Value := 0];
    assert [ch][0..] == [ch];
    assert [] + LeftOver(map[Value := 0], [ch]) == [Data(Value, [ch])];
    OneCall(p, a, ch, rest, q, [Data(Value, [ch])]);
    JoinSingle(a, Data(Value, [ch]));
  }

  lemma Refused(p: Parser, a: seq<Event>, ch: byte, rest: seq<byte>, e: Errno)
    requires Step(p, ch).fate == Fail(e)
    ensures Bytewise(p, a, [ch] + rest).fate == Fail(e)
  {
    hide Step;
    OneByteCall(p, ch);
    assert ([ch] + rest)[..1] == [ch];
  }

  function WithValue(a: seq<Event>, v: seq<byte>): seq<Event> {
    if v == [] then a else JoinOne(a, Data(Value, v))
  }

  lemma WithValueMore(a: seq<Event>, ch: byte, v: seq<byte>)
    ensures WithValue(JoinOne(a, Data(Value, [ch])), v) == WithValue(a, [ch] + v)
  {
    hide JoinOne;
    if v == [] {
      assert [ch] + v == [ch];
    } else {
      JoinData(a, Value, [ch], v);
    }
  }

  /** An accepted length is neither wrapped nor the mark for an absent length. */
  lemma AcceptedFits(acc: nat, digits: seq<byte>)
    requires Accepted(acc, digits) && acc < ULLONG_MAX
    ensures Decimal(acc, digits) < ULLONG_MAX
  {
    if digits != [] {
      DecimalLast(acc, digits);
    }
  }

  lemma {:induction false} DecimalLast(acc: nat, digits: seq<byte>)
    requires digits != []
    ensures Decimal(acc, digits) == Decimal(acc, digits[..|digits| - 1]) * 10 + Digit(digits[|digits| - 1])
    decreases |digits|
  {
    var front, tail := digits[..|digits| - 1], digits[1..];
    if tail == [] {
      assert front == [];
      assert Decimal(acc * 10 + Digit(digits[0]), tail) == acc * 10 + Digit(digits[0]);
    } else {
      assert front[1..] == tail[..|tail| - 1];
      DecimalLast(acc * 10 + Digit(digits[0]), tail);
    }
  }

  /**
    The digits of a Content-Length are read as the number they write, without wrapping; they are refused
    just when the number is above the limit before its last digit is put to it.
   */
  lemma {:induction false} LengthRead(p: Parser, a: seq<Event>, digits: seq<byte>, rest: seq<byte>)
    requires p.state.HeaderValue? && p.headerState.ContentLengthNum? && p.nread + |digits| <= MAX_HEADER_SIZE
    requires forall k :: 0 <= k < |digits| ==> IsNum(digits[k])
    ensures if Accepted(p.contentLength, digits) then
              var q := p.(nread := p.nread + |digits|, contentLength := Decimal(p.contentLength, digits));
              && Bytewise(p, a, digits + rest) == Later(|digits|, Bytewise(q, WithValue(a, digits), rest))
              && (p.contentLength < ULLONG_MAX ==> q.contentLength < ULLONG_MAX)
            else
              Bytewise(p, a, digits + rest).fate == Fail(InvalidContentLength)
    decreases |digits|
  {
    hide Bytewise;
    hide Step;
    hide JoinOne;
    hide IsNum;
    if Accepted(p.contentLength, digits) && p.contentLength < ULLONG_MAX {
      AcceptedFits(p.contentLength, digits);
    }
    if digits == [] {
      assert digits + rest == rest;
    } else {
      var ch, tail := digits[0], digits[1..];
      var n := p.contentLength;
      assert digits + rest == [ch] + (tail + rest);
      LengthStep(p, ch);
      AcceptedMore(n, digits);
      if n > LENGTH_LIMIT {
        Refused(p, a, ch, tail + rest, InvalidContentLength);
      } else {
        var q := p.(nread := p.nread + 1, contentLength := n * 10 + Digit(ch));
        ValueGiven(p, a, ch, tail + rest, q);
        LengthRead(q, JoinOne(a, Data(Value, [ch])), tail, rest);
        WithValueMore(a, ch, tail);
        assert [ch] + tail == digits;
      }
    }
  }

  lemma AcceptedMore(acc: nat, digits: seq<byte>)
    requires digits != []
    ensures Accepted(acc, digits) <==> acc <= LENGTH_LIMIT && Accepted(acc * 10 + Digit(digits[0]), digits[1..])
  {
    var front, tail := digits[..|digits| - 1], digits[1..];
    if tail == [] {
      assert front == [];
    } else {
      assert front[1..] == tail[..|tail| - 1];
    }
  }
}
