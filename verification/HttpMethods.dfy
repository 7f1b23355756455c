/**
  Method recognition in http/src/http_parser.c: a first guess from the first letter and a table of second
  guesses recognise exactly the 34 listed methods.
 */
module HttpMethods {
  import opened Common
  import opened HttpModel
  import opened HttpRuns
  import opened HttpCuts

  import opened HttpBodies

  /** The method assumed after the bytes `w`. */
  function Guess(w: seq<byte>): Choice
    requires w != []
    decreases |w|
  {
    var ch := w[|w| - 1];
    if |w| == 1 then FirstGuess(ch) else
    match Guess(w[..|w| - 1])
    case Chosen(m) => NextByte(m, |w| - 1, ch)
    case NoMethod => NoMethod
  }

  /** One byte more than the first `i` of the method `m`. */
  function NextByte(m: Method, i: nat, ch: byte): Choice {
    if ch == 0 then NoMethod
    else if ch == At(MethodString(m), i) then Chosen(m)
    else if 'A' as int <= ch <= 'Z' as int || ch == '-' as int then NextGuess(m, i, ch)
    else NoMethod
  }

  /** The bytes are the first `|w|` characters of the method's name. */
  predicate Spells(m: Method, w: seq<byte>) {
    |w| <= |MethodString(m)| && forall k :: 0 <= k < |w| ==> w[k] == MethodString(m)[k] as int
  }

  function Prefix(m: Method, k: nat): (w: seq<byte>)
    requires k <= |MethodString(m)|
    ensures |w| == k && Spells(m, w)
  {
    seq(k, i requires 0 <= i < k => Letter(m, i))
  }

  function Letter(m: Method, i: nat): (ch: byte)
    requires i < |MethodString(m)|
    ensures ch == MethodString(m)[i] as int && ('A' as int <= ch <= 'Z' as int || ch == '-' as int)
  {
    MethodString(m)[i] as int
  }

  function Name(m: Method): seq<byte> {
    Prefix(m, |MethodString(m)|)
  }

  lemma FirstGuessSpells(ch: byte)
    ensures FirstGuess(ch).Chosen? ==> Spells(FirstGuess(ch).m, [ch])
  {
  }

  /** The first `i` characters of both names are the same, and that of `n` goes on with `ch`. */
  predicate GoesOn(m: Method, n: Method, i: nat, ch: byte) {
    && i <= 4 && i < |MethodString(m)| && i < |MethodString(n)| && MethodString(n)[i] as int == ch
    && (i > 0 ==> MethodString(n)[0] == MethodString(m)[0])
    && (i > 1 ==> MethodString(n)[1] == MethodString(m)[1])
    && (i > 2 ==> MethodString(n)[2] == MethodString(m)[2])
    && (i > 3 ==> MethodString(n)[3] == MethodString(m)[3])
    && MethodString(m)[i] as int != ch
  }

  lemma GoesOnP(m: Method, i: nat, ch: byte)
    requires NextGuess(m, i, ch).Chosen? && (m == POST || m == PUT || m == PROPFIND)
    ensures GoesOn(m, NextGuess(m, i, ch).m, i, ch)
  {
  }

  lemma GoesOnC(m: Method, i: nat, ch: byte)
    requires NextGuess(m, i, ch).Chosen? && (m == CONNECT || m == SUBSCRIBE)
    ensures GoesOn(m, NextGuess(m, i, ch).m, i, ch)
  {
  }

  lemma GoesOnM(i: nat, ch: byte)
    requires NextGuess(MKCOL, i, ch).Chosen?
    ensures GoesOn(MKCOL, NextGuess(MKCOL, i, ch).m, i, ch)
  {
  }

  lemma GoesOnU(m: Method, i: nat, ch: byte)
    requires NextGuess(m, i, ch).Chosen? && (m == UNLOCK || m == LOCK || m == REPORT)
    ensures GoesOn(m, NextGuess(m, i, ch).m, i, ch)
  {
  }

  /** A second guess agrees with all that was read, and goes on with the byte at hand. */
  lemma NextGuessGoesOn(m: Method, i: nat, ch: byte)
    requires NextGuess(m, i, ch).Chosen?
    ensures GoesOn(m, NextGuess(m, i, ch).m, i, ch)
  {
    hide GoesOn;
    hide MethodString;
    if m == MKCOL {
      GoesOnM(i, ch);
    } else if m == POST || m == PUT || m == PROPFIND {
      GoesOnP(m, i, ch);
    } else if m == CONNECT || m == SUBSCRIBE {
      GoesOnC(m, i, ch);
    } else {
      GoesOnU(m, i, ch);
    }
  }

  lemma NextGuessSpells(m: Method, i: nat, ch: byte)
    requires NextGuess(m, i, ch).Chosen?
    ensures var n := MethodString(NextGuess(m, i, ch).m);
            && i < |MethodString(m)| && i < |n| && n[i] as int == ch && MethodString(m)[i] as int != ch
            && forall k :: 0 <= k < i ==> n[k] == MethodString(m)[k]
  {
    hide MethodString;
    hide NextGuess;
    NextGuessGoesOn(m, i, ch);
  }

  /** The bytes read always are the beginning of the method assumed. */
  lemma {:induction false} GuessSpells(w: seq<byte>)
    requires w != []
    ensures Guess(w).Chosen? ==> Spells(Guess(w).m, w)
    decreases |w|
  {
    hide MethodString;
    hide NextGuess;
    hide FirstGuess;
    var n := |w| - 1;
    var ch := w[n];
    if n == 0 {
      FirstGuessSpells(ch);
      assert w == [ch];
    } else {
      var front := w[..n];
      GuessSpells(front);
      if Guess(w).Chosen? {
        var m := Guess(front).m;
        assert forall k :: 0 <= k < n ==> front[k] == w[k];
        if ch != At(MethodString(m), n) {
          NextGuessSpells(m, n, ch);
        }
      }
    }
  }

  /** The method and the index from which the table leads to `m`; index 0 for a first guess. */
  function Origin(m: Method): (Method, nat) {
    match m
    case PUT => (POST, 1) case PATCH => (POST, 1) case PROPFIND => (POST, 1) case PURGE => (PUT, 2)
    case CHECKOUT => (CONNECT, 1) case COPY => (CONNECT, 2)
    case MOVE => (MKCOL, 1) case MERGE => (MKCOL, 1) case MSEARCH => (MKCOL, 1)
    case MKACTIVITY => (MKCOL, 2) case MKCALENDAR => (MKCOL, 3)
    case SEARCH => (SUBSCRIBE, 1) case SOURCE => (SUBSCRIBE, 1)
    case REBIND => (REPORT, 2) case PROPPATCH => (PROPFIND, 4) case LINK => (LOCK, 1)
    case UNSUBSCRIBE => (UNLOCK, 2) case UNBIND => (UNLOCK, 2) case UNLINK => (UNLOCK, 3)
    case _ => (m, 0)
  }

  lemma FirstLeads(m: Method)
    requires Origin(m).1 == 0
    ensures FirstGuess(Letter(m, 0)) == Chosen(m)
  {
  }

  lemma SecondLeadsM(m: Method)
    requires Origin(m).0 == MKCOL && m != MKCOL
    ensures var (from, i) := Origin(m);
            i < |MethodString(m)| && NextGuess(from, i, Letter(m, i)) == Chosen(m) && Origin(from).1 < i
  {
  }

  lemma SecondLeadsP(m: Method)
    requires m == PUT || m == PATCH || m == PROPFIND || m == PURGE || m == PROPPATCH
    ensures var (from, i) := Origin(m);
            i < |MethodString(m)| && NextGuess(from, i, Letter(m, i)) == Chosen(m) && Origin(from).1 < i
  {
  }

  lemma SecondLeadsC(m: Method)
    requires m == CHECKOUT || m == COPY || m == SEARCH || m == SOURCE || m == REBIND
    ensures var (from, i) := Origin(m);
            i < |MethodString(m)| && NextGuess(from, i, Letter(m, i)) == Chosen(m) && Origin(from).1 < i
  {
  }

  lemma SecondLeadsU(m: Method)
    requires m == LINK || m == UNSUBSCRIBE || m == UNBIND || m == UNLINK
    ensures var (from, i) := Origin(m);
            i < |MethodString(m)| && NextGuess(from, i, Letter(m, i)) == Chosen(m) && Origin(from).1 < i
  {
  }

  lemma SecondLeads(m: Method)
    requires Origin(m).1 > 0
    ensures var (from, i) := Origin(m);
            i < |MethodString(m)| && NextGuess(from, i, Letter(m, i)) == Chosen(m) && Origin(from).1 < i
  {
    hide MethodString;
    hide NextGuess;
    match m
    case PUT => SecondLeadsP(m); case PATCH => SecondLeadsP(m); case PROPFIND => SecondLeadsP(m);
    case PURGE => SecondLeadsP(m); case PROPPATCH => SecondLeadsP(m);
    case CHECKOUT => SecondLeadsC(m); case COPY => SecondLeadsC(m); case SEARCH => SecondLeadsC(m);
    case SOURCE => SecondLeadsC(m); case REBIND => SecondLeadsC(m);
    case LINK => SecondLeadsU(m); case UNSUBSCRIBE => SecondLeadsU(m); case UNBIND => SecondLeadsU(m);
    case UNLINK => SecondLeadsU(m);
    case MOVE => SecondLeadsM(m); case MERGE => SecondLeadsM(m); case MSEARCH => SecondLeadsM(m);
    case MKACTIVITY => SecondLeadsM(m); case MKCALENDAR => SecondLeadsM(m);
    case _ =>
  }

  lemma OriginLeads(m: Method)
    ensures var (from, i) := Origin(m);
            && i < |MethodString(m)|
            && (i == 0 ==> FirstGuess(Letter(m, 0)) == Chosen(m))
            && (i > 0 ==> NextGuess(from, i, Letter(m, i)) == Chosen(m) && Origin(from).1 < i
                          && At(MethodString(from), i) != Letter(m, i))
  {
    hide MethodString;
    hide NextGuess;
    hide FirstGuess;
    hide Origin;
    NonEmpty(m);
    if Origin(m).1 == 0 {
      FirstLeads(m);
    } else {
      SecondLeads(m);
      NextGuessSpells(Origin(m).0, Origin(m).1, Letter(m, Origin(m).1));
    }
  }

  lemma NonEmpty(m: Method)
    ensures |MethodString(m)| > 0
  {
  }

  /** Every listed method is found, and from where the table leads to it, it is kept. */
  lemma {:induction false} NameIsFound(m: Method, k: nat)
    requires Origin(m).1 < k <= |MethodString(m)|
    ensures Guess(Prefix(m, k)) == Chosen(m)
    decreases Origin(m).1, k
  {
    hide MethodString;
    hide NextGuess;
    hide FirstGuess;
    hide Origin;
    var (from, i) := Origin(m);
    OriginLeads(m);
    var w := Prefix(m, k);
    var front := w[..k - 1];
    if k > i + 1 {
      NameIsFound(m, k - 1);
      assert front == Prefix(m, k - 1);
    } else if i > 0 {
      NextGuessSpells(from, i, Letter(m, i));
      assert front == Prefix(from, i);
      NameIsFound(from, i);
    }
  }

  // ---------------------------------------------------------------- the parser

  lemma MethodStep(p: Parser, ch: byte)
    requires p.state.ReqMethod? && p.nread < MAX_HEADER_SIZE && ch != ' ' as int
    ensures Step(p, ch) == match NextByte(p.verb, p.index, ch)
                           case Chosen(m) => Pass(p.(nread := p.nread + 1, verb := m, index := p.index + 1), [], Go)
                           case NoMethod => Refuse(p.(nread := p.nread + 1), InvalidMethod)
  {
    hide MethodString;
    hide NextGuess;
  }

  lemma {:induction false} GuessMore(w: seq<byte>, v: seq<byte>)
    requires w != [] && Guess(w).NoMethod?
    ensures Guess(w + v).NoMethod?
    decreases |v|
  {
    if v == [] {
      assert w + v == w;
    } else {
      var front := v[..|v| - 1];
      GuessMore(w, front);
      assert (w + v)[..|w + v| - 1] == w + front;
    }
  }

  predicate NoBlank(w: seq<byte>) {
    forall k :: 0 <= k < |w| ==> w[k] != ' ' as int
  }

  /** After the bytes `w`, the bytes `v`. */
  lemma {:induction false} MethodRun(p: Parser, a: seq<Event>, w: seq<byte>, v: seq<byte>, rest: seq<byte>)
    requires p.state.ReqMethod? && w != [] && Guess(w) == Chosen(p.verb) && p.index == |w| && NoBlank(v)
    requires p.nread + |v| <= MAX_HEADER_SIZE
    ensures match Guess(w + v)
            case Chosen(m) =>
              Bytewise(p, a, v + rest)
              == Later(|v|, Bytewise(p.(nread := p.nread + |v|, verb := m, index := |w| + |v|), a, rest))
            case NoMethod => Bytewise(p, a, v + rest).fate == Fail(InvalidMethod)
    decreases |v|
  {
    hide Bytewise;
    hide Step;
    hide NextByte;
    if v == [] {
      assert w + v == w && v + rest == rest;
    } else {
      var ch, tail := v[0], v[1..];
      assert v + rest == [ch] + (tail + rest);
      MethodStep(p, ch);
      assert (w + [ch])[..|w|] == w;
      assert w + [ch] + tail == w + v;
      match NextByte(p.verb, p.index, ch)
      case Chosen(m) =>
        var q := p.(nread := p.nread + 1, verb := m, index := p.index + 1);
        Quiet(p, a, ch, tail + rest, q);
        MethodRun(q, a, w + [ch], tail, rest);
      case NoMethod =>
        Refused(p, a, ch, tail + rest, InvalidMethod);
        GuessMore(w + [ch], tail);
    }
  }

  lemma BlankStep(p: Parser)
    requires p.state.ReqMethod? && p.nread < MAX_HEADER_SIZE
    ensures Step(p, ' ' as int)
         == if At(MethodString(p.verb), p.index) == 0
            then Pass(p.(nread := p.nread + 1, index := p.index + 1, state := ReqSpacesBeforeUrl), [], Go)
            else Refuse(p.(nread := p.nread + 1), InvalidMethod)
  {
    NoBlankInName(p.verb, p.index);
    hide MethodString;
    hide NextGuess;
  }

  lemma NoBlankInName(m: Method, i: nat)
    ensures At(MethodString(m), i) != ' ' as int
    ensures At(MethodString(m), i) == 0 <==> i >= |MethodString(m)|
  {
    if i < |MethodString(m)| {
      var ch := Letter(m, i);
    }
  }

  /** The first byte of a request. */
  lemma FirstStep(p: Parser, ch: byte)
    requires p.state.StartReq? && p.nread < MAX_HEADER_SIZE && ch != CR && ch != LF
    ensures match FirstGuess(ch)
            case Chosen(m) => Step(p, ch) == Pass(Started(p, m), [Notify(MessageBegin)], Go)
            case NoMethod => Step(p, ch).fate == Fail(InvalidMethod)
  {
    hide FirstGuess;
    FirstIsAlpha(ch);
  }

  lemma FirstIsAlpha(ch: byte)
    ensures FirstGuess(ch).Chosen? ==> IsAlpha(ch)
  {
  }

  function Started(p: Parser, m: Method): Parser {
    p.(nread := p.nread + 1, flags := NO_FLAGS, contentLength := ULLONG_MAX, verb := m, index := 1, state := ReqMethod)
  }

  lemma GuessFirst(ch: byte)
    ensures Guess([ch]) == FirstGuess(ch)
  {
    hide FirstGuess;
  }

  /**
    Method recognition is exact: of all words in front of a blank, just the 34 names lead on to the URL,
    each with the method it names; every other word is refused.
   */
  lemma MethodIsExact(p: Parser, a: seq<Event>, w: seq<byte>, rest: seq<byte>)
    requires p.state.StartReq? && w != [] && NoBlank(w) && w[0] != CR && w[0] != LF
    requires p.nread + |w| + 1 <= MAX_HEADER_SIZE
    ensures forall m :: w == Name(m) ==>
              var q := Started(p, m).(nread := p.nread + |w| + 1, index := |w| + 1, state := ReqSpacesBeforeUrl);
              Bytewise(p, a, w + ([' ' as int] + rest))
              == Later(|w| + 1, Bytewise(q, a + [Notice(MessageBegin)], rest))
    ensures (forall m :: w != Name(m)) ==> Bytewise(p, a, w + ([' ' as int] + rest)).fate == Fail(InvalidMethod)
  {
    hide Bytewise;
    hide Step;
    hide MethodString;
    hide FirstGuess;
    hide Prefix;
    hide Guess;
    var ch, v := w[0], w[1..];
    var blank := [' ' as int] + rest;
    assert w + blank == [ch] + (v + blank);
    assert [ch] + v == w;
    FirstStep(p, ch);
    GuessFirst(ch);
    GuessIsName(w);
    match FirstGuess(ch)
    case NoMethod =>
      Refused(p, a, ch, v + blank, InvalidMethod);
      GuessMore([ch], v);
    case Chosen(m0) =>
      var q, b := Started(p, m0), a + [Notice(MessageBegin)];
      Noticed(p, a, ch, v + blank, q, MessageBegin);
      RestOfMethod(q, b, [ch], v, rest);
  }

  /** The rest of a method, up to the blank behind it, after its first bytes `u`. */
  lemma RestOfMethod(p: Parser, a: seq<Event>, u: seq<byte>, v: seq<byte>, rest: seq<byte>)
    requires p.state.ReqMethod? && u != [] && Guess(u) == Chosen(p.verb) && p.index == |u| && NoBlank(v)
    requires p.nread + |v| + 1 <= MAX_HEADER_SIZE
    ensures var o := Bytewise(p, a, v + ([' ' as int] + rest));
            match Guess(u + v)
            case NoMethod => o.fate == Fail(InvalidMethod)
            case Chosen(m) =>
              var n := |u| + |v|;
              var r := p.(nread := p.nread + |v| + 1, verb := m, index := n + 1, state := ReqSpacesBeforeUrl);
              if n < |MethodString(m)| then o.fate == Fail(InvalidMethod)
              else o == Later(|v| + 1, Bytewise(r, a, rest))
  {
    hide Bytewise;
    hide Step;
    hide MethodString;
    hide Guess;
    MethodRun(p, a, u, v, [' ' as int] + rest);
    match Guess(u + v)
    case NoMethod =>
    case Chosen(m) =>
      var n := |u| + |v|;
      var r := p.(nread := p.nread + |v|, verb := m, index := n);
      BlankStep(r);
      NoBlankInName(m, n);
      if n >= |MethodString(m)| {
        Quiet(r, a, ' ' as int, rest, r.(nread := r.nread + 1, index := r.index + 1, state := ReqSpacesBeforeUrl));
      } else {
        Refused(r, a, ' ' as int, rest, InvalidMethod);
      }
  }

  /** A word is a name just when it is guessed in full. */
  lemma GuessIsName(w: seq<byte>)
    requires w != []
    ensures forall m :: w == Name(m) <==> Guess(w) == Chosen(m) && |w| >= |MethodString(m)|
  {
    hide MethodString;
    hide Guess;
    GuessSpells(w);
    forall m
      ensures w == Name(m) <==> Guess(w) == Chosen(m) && |w| >= |MethodString(m)|
    {
      OriginLeads(m);
      NameIsFound(m, |MethodString(m)|);
      if Guess(w) == Chosen(m) && |w| >= |MethodString(m)| {
        assert forall k :: 0 <= k < |w| ==> w[k] == Letter(m, k);
        assert w == Name(m);
      }
    }
  }

  // ---------------------------------------------------------------- a parser for both types

  /** Before any message a parser for both types takes a first byte other than 'H' as one for requests does. */
  lemma BothIsRequest(p: Parser, a: seq<Event>, ch: byte, rest: seq<byte>)
    requires p.state.StartReqOrRes? && p.nread < MAX_HEADER_SIZE && ch != CR && ch != LF && ch != 'H' as int
    ensures Bytewise(p, a, [ch] + rest) == Bytewise(p.(kind := Request, state := StartReq), a, [ch] + rest)
  {
    var q := p.(kind := Request, state := StartReq);
    BothStep(p, q, ch);
    assert InitialMarks(p.state) == map[] == InitialMarks(q.state);
    hide Step;
    assert Execute(p, [ch]) == From(p, map[], [ch], 0);
    assert Execute(q, [ch]) == From(q, map[], [ch], 0);
    assert ([ch] + rest)[..1] == [ch];
  }

  lemma BothStep(p: Parser, q: Parser, ch: byte)
    requires p.state.StartReqOrRes? && p.nread < MAX_HEADER_SIZE && ch != CR && ch != LF && ch != 'H' as int
    requires q == p.(kind := Request, state := StartReq)
    ensures Step(p, ch) == Step(q, ch)
  {
    hide FirstGuess;
    hide IsAlpha;
  }

  /** The parser after "H", which may begin a response as well. */
  function AfterH(p: Parser): Parser {
    p.(nread := p.nread + 1, flags := NO_FLAGS, contentLength := ULLONG_MAX, state := ResOrRespH)
  }

  lemma HStep(p: Parser)
    requires p.state.StartReqOrRes? && p.nread < MAX_HEADER_SIZE
    ensures Step(p, 'H' as int) == Pass(AfterH(p), [Notify(MessageBegin)], Go)
  {
    hide StartReqByte;
  }

  lemma EStep(p: Parser, ch: byte)
    requires p.state.ResOrRespH? && p.nread < MAX_HEADER_SIZE && ch != 'T' as int
    ensures Step(p, ch)
         == if ch == 'E' as int
            then Pass(p.(nread := p.nread + 1, kind := Request, verb := HEAD, index := 2, state := ReqMethod), [], Go)
            else Refuse(p.(nread := p.nread + 1), InvalidConstant)
  {
  }

  /** The only name that begins with 'H'. */
  lemma OnlyHead(w: seq<byte>, m: Method)
    requires w != [] && w[0] == 'H' as int && w == Name(m)
    ensures m == HEAD && |w| > 1 && w[1] == 'E' as int
  {
    assert w[0] == MethodString(m)[0] as int && (|w| > 1 ==> w[1] == MethodString(m)[1] as int);
  }

  lemma HeadBegins()
    ensures Guess(['H' as int, 'E' as int]) == Chosen(HEAD)
  {
    var w: seq<byte> := ['H' as int, 'E' as int];
    assert w[..1] == ['H' as int];
  }

  /** The word begins like a response. */
  predicate LikeResponse(w: seq<byte>) {
    |w| > 1 && w[0] == 'H' as int && w[1] == 'T' as int
  }

  /** After "H", a word in front of a blank. */
  lemma AfterHead(p: Parser, a: seq<Event>, v: seq<byte>, rest: seq<byte>)
    requires p.state.ResOrRespH? && NoBlank(v) && p.nread + |v| + 1 <= MAX_HEADER_SIZE
    requires v != [] ==> v[0] != 'T' as int
    ensures var w := ['H' as int] + v;
            var o := Bytewise(p, a, v + ([' ' as int] + rest));
            if w == Name(HEAD) then
              var q := p.(nread := p.nread + |v| + 1, kind := Request, verb := HEAD, index := |w| + 1,
                          state := ReqSpacesBeforeUrl);
              o == Later(|v| + 1, Bytewise(q, a, rest))
            else o.fate.Fail?
  {
    hide Bytewise;
    hide Step;
    hide MethodString;
    hide Prefix;
    hide Guess;
    var w, blank := ['H' as int] + v, [' ' as int] + rest;
    if v == [] || v[0] != 'E' as int {
      if w == Name(HEAD) {
        OnlyHead(w, HEAD);
        assert false;
      }
      var ch := if v == [] then ' ' as int else v[0];
      var tail := if v == [] then rest else v[1..] + blank;
      EStep(p, ch);
      assert v + blank == [ch] + tail;
      Refused(p, a, ch, tail, InvalidConstant);
    } else {
      var u, tail: seq<byte> := ['H' as int, 'E' as int], v[1..];
      var q := p.(nread := p.nread + 1, kind := Request, verb := HEAD, index := 2, state := ReqMethod);
      EStep(p, v[0]);
      assert v + blank == [v[0]] + (tail + blank);
      Quiet(p, a, v[0], tail + blank, q);
      HeadBegins();
      RestOfMethod(q, a, u, tail, rest);
      assert u + tail == w;
      GuessIsName(w);
      match Guess(w)
      case NoMethod =>
      case Chosen(m) =>
        if |w| >= |MethodString(m)| {
          assert w == Name(m);
          OnlyHead(w, m);
        }
    }
  }

  /**
    Method recognition by a parser for both types: of all words in front of a blank that do not begin like
    a response, just the 34 names lead on to the URL, each with the method it names; every other fails.
   */
  lemma BothIsExact(p: Parser, a: seq<Event>, w: seq<byte>, rest: seq<byte>)
    requires p.state.StartReqOrRes? && w != [] && NoBlank(w) && w[0] != CR && w[0] != LF && !LikeResponse(w)
    requires p.nread + |w| + 1 <= MAX_HEADER_SIZE
    ensures forall m :: w == Name(m) ==>
              var q := Started(p, m).(nread := p.nread + |w| + 1, kind := Request, index := |w| + 1,
                                      state := ReqSpacesBeforeUrl);
              Bytewise(p, a, w + ([' ' as int] + rest))
              == Later(|w| + 1, Bytewise(q, a + [Notice(MessageBegin)], rest))
    ensures (forall m :: w != Name(m)) ==> Bytewise(p, a, w + ([' ' as int] + rest)).fate.Fail?
  {
    hide Bytewise;
    hide Step;
    hide MethodString;
    hide Prefix;
    var ch, v := w[0], w[1..];
    var blank := [' ' as int] + rest;
    assert w + blank == [ch] + (v + blank);
    if ch == 'H' as int {
      var q, b := AfterH(p), a + [Notice(MessageBegin)];
      HStep(p);
      Noticed(p, a, ch, v + blank, q, MessageBegin);
      AfterHead(q, b, v, rest);
      assert [ch] + v == w;
      forall m | w == Name(m)
        ensures m == HEAD
      {
        OnlyHead(w, m);
      }
    } else {
      BothIsRequest(p, a, ch, v + blank);
      MethodIsExact(p.(kind := Request, state := StartReq), a, w, rest);
    }
  }
}
