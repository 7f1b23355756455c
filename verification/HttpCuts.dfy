/**
  Split invariance of `http_parser_execute` (http/src/http_parser.c): cutting the input into buffers in
  another way changes neither the parser nor, once adjacent data callbacks are joined, the events.
 */
module HttpCuts {
  import opened Common
  import opened HttpModel

  import opened HttpRuns

  // ---------------------------------------------------------------- one buffer against one byte

  /** The events so far, with what is marked but not yet called back joined on. */
  function Pending(a: seq<Event>, marks: Marks, data: seq<byte>, i: nat): seq<Event>
    requires i <= |data| && forall s :: s in marks ==> marks[s] <= i
  {
    if Field in marks then JoinOne(a, Data(Field, data[marks[Field]..i]))
    else if Value in marks then JoinOne(a, Data(Value, data[marks[Value]..i]))
    else if Url in marks then JoinOne(a, Data(Url, data[marks[Url]..i]))
    else if Body in marks then JoinOne(a, Data(Body, data[marks[Body]..i]))
    else if Status in marks then JoinOne(a, Data(Status, data[marks[Status]..i]))
    else a
  }

  lemma PendingNone(a: seq<Event>, marks: Marks, data: seq<byte>, i: nat)
    requires i <= |data| && marks.Keys == {}
    ensures forall s :: s in marks ==> marks[s] <= i
    ensures Pending(a, marks, data, i) == a
  {
  }

  lemma PendingOne(a: seq<Event>, marks: Marks, data: seq<byte>, i: nat, s: Span)
    requires i <= |data| && marks.Keys == {s} && marks[s] <= i
    ensures forall x :: x in marks ==> marks[x] <= i
    ensures Pending(a, marks, data, i) == JoinOne(a, Data(s, data[marks[s]..i]))
    ensures EndsIn(Pending(a, marks, data, i), s)
  {
    JoinData(a, s, data[marks[s]..i], []);
    assert forall x :: x in marks ==> x == s;
  }

  /** The long call (at index `i`) and the call on the single byte are in step. */
  ghost predicate InStep(a: seq<Event>, marks: Marks, data: seq<byte>, i: nat, c: seq<Event>, marks1: Marks)
    requires i < |data|
  {
    && (forall s :: s in marks ==> marks[s] <= i) && (forall s :: s in marks1 ==> marks1[s] == 0)
    && marks1.Keys <= marks.Keys && (exists s :: marks.Keys <= {s})
    && Pending(a, marks, data, i) == Pending(c, marks1, [data[i]], 0)
  }

  lemma PerformKeepsStep(act: Action, a: seq<Event>, marks: Marks, data: seq<byte>, i: nat, c: seq<Event>,
                         marks1: Marks)
    requires i < |data| && InStep(a, marks, data, i, c, marks1)
    requires InOrder(marks.Keys, act) && InOrder(marks1.Keys, act)
    ensures var x, y := Perform(act, marks, data, i), Perform(act, marks1, [data[i]], 0);
            && InStep(Join(a, x.events), x.marks, data, i, Join(c, y.events), y.marks)
            && x.marks.Keys == FlowOne(marks.Keys, act) && y.marks.Keys == FlowOne(marks1.Keys, act)
  {
    match act
    case Notify(n) =>
      PendingNone(a, marks, data, i);
      PendingNone(c, marks1, [data[i]], 0);
      PendingNone(Join(a, [Notice(n)]), marks, data, i);
      PendingNone(Join(c, [Notice(n)]), marks1, [data[i]], 0);
    case Mark(s) => MarkKeepsStep(s, a, marks, data, i, c, marks1);
    case Flush(s) => FlushKeepsStep(s, a, marks, data, i, c, marks1);
    case FlushAfter(s) => FlushAfterKeepsStep(s, a, marks, data, i, c, marks1);
  }

  lemma MarkKeepsStep(s: Span, a: seq<Event>, marks: Marks, data: seq<byte>, i: nat, c: seq<Event>, marks1: Marks)
    requires i < |data| && InStep(a, marks, data, i, c, marks1) && marks.Keys <= {s}
    ensures var x, y := Perform(Mark(s), marks, data, i), Perform(Mark(s), marks1, [data[i]], 0);
            && InStep(a, x.marks, data, i, c, y.marks)
            && x.marks.Keys == marks.Keys + {s} && y.marks.Keys == marks1.Keys + {s}
  {
    hide JoinOne;
    var x, y := Perform(Mark(s), marks, data, i).marks, Perform(Mark(s), marks1, [data[i]], 0).marks;
    assert x.Keys == {s} && y.Keys == {s};
    PendingOne(a, x, data, i, s);
    PendingOne(c, y, [data[i]], 0, s);
    assert [data[i]][0..0] == [];
    if s !in marks {
      assert marks.Keys == {} && marks1.Keys == {};
      PendingNone(a, marks, data, i);
      PendingNone(c, marks1, [data[i]], 0);
      assert data[i..i] == [];
    } else if s !in marks1 {
      assert marks.Keys == {s} && marks1.Keys == {};
      PendingOne(a, marks, data, i, s);
      PendingNone(c, marks1, [data[i]], 0);
      JoinNothing(c, s);
    }
  }

  lemma FlushKeepsStep(s: Span, a: seq<Event>, marks: Marks, data: seq<byte>, i: nat, c: seq<Event>, marks1: Marks)
    requires i < |data| && InStep(a, marks, data, i, c, marks1) && marks.Keys <= {s}
    ensures var x, y := Perform(Flush(s), marks, data, i), Perform(Flush(s), marks1, [data[i]], 0);
            && InStep(Join(a, x.events), x.marks, data, i, Join(c, y.events), y.marks)
            && x.marks.Keys == marks.Keys - {s} && y.marks.Keys == marks1.Keys - {s}
  {
    hide JoinOne;
    var x, y := Perform(Flush(s), marks, data, i), Perform(Flush(s), marks1, [data[i]], 0);
    assert x.marks.Keys == {} && y.marks.Keys == {};
    PendingNone(Join(a, x.events), x.marks, data, i);
    PendingNone(Join(c, y.events), y.marks, [data[i]], 0);
    if s in marks {
      assert marks.Keys == {s};
      PendingOne(a, marks, data, i, s);
      JoinSingle(a, x.events[0]);
    } else {
      PendingNone(a, marks, data, i);
    }
    if s in marks1 {
      assert marks1.Keys == {s};
      PendingOne(c, marks1, [data[i]], 0, s);
      JoinSingle(c, y.events[0]);
    } else {
      assert marks1.Keys == {};
      PendingNone(c, marks1, [data[i]], 0);
    }
  }

  lemma JoinSingle(a: seq<Event>, e: Event)
    ensures Join(a, [e]) == JoinOne(a, e)
  {
    assert [e][1..] == [];
  }

  /** A marked span grows by the byte just passed. */
  lemma Grows(s: Span, a: seq<Event>, k: nat, data: seq<byte>, i: nat, c: seq<Event>)
    requires k <= i < |data|
    requires JoinOne(a, Data(s, data[k..i])) == JoinOne(c, Data(s, []))
    ensures JoinOne(a, Data(s, data[k..i + 1])) == JoinOne(c, Data(s, [data[i]]))
  {
    hide JoinOne;
    hide EndsIn;
    JoinData(a, s, data[k..i], [data[i]]);
    assert data[k..i] + [data[i]] == data[k..i + 1];
    JoinData(c, s, [], [data[i]]);
    assert [] + [data[i]] == [data[i]];
  }

  lemma FlushAfterKeepsStep(s: Span, a: seq<Event>, marks: Marks, data: seq<byte>, i: nat, c: seq<Event>, marks1: Marks)
    requires i < |data| && InStep(a, marks, data, i, c, marks1) && marks.Keys == {s} == marks1.Keys
    ensures var x, y := Perform(FlushAfter(s), marks, data, i), Perform(FlushAfter(s), marks1, [data[i]], 0);
            && InStep(Join(a, x.events), x.marks, data, i, Join(c, y.events), y.marks)
            && x.marks.Keys == {} && y.marks.Keys == {}
  {
    hide JoinOne;
    var x, y := Perform(FlushAfter(s), marks, data, i), Perform(FlushAfter(s), marks1, [data[i]], 0);
    assert x.marks.Keys == {} && y.marks.Keys == {};
    PendingNone(Join(a, x.events), x.marks, data, i);
    PendingNone(Join(c, y.events), y.marks, [data[i]], 0);
    PendingOne(a, marks, data, i, s);
    PendingOne(c, marks1, [data[i]], 0, s);
    assert [data[i]][0..0] == [] && [data[i]][0..1] == [data[i]];
    Grows(s, a, marks[s], data, i, c);
    JoinSingle(a, x.events[0]);
    JoinSingle(c, y.events[0]);
  }

  lemma {:induction false} PerformAllKeepsStep(acts: seq<Action>, a: seq<Event>, marks: Marks, data: seq<byte>, i: nat,
                                               c: seq<Event>, marks1: Marks)
    requires i < |data| && InStep(a, marks, data, i, c, marks1)
    requires Orderly(marks.Keys, acts) && Orderly(marks1.Keys, acts)
    ensures var x, y := PerformAll(acts, marks, data, i), PerformAll(acts, marks1, [data[i]], 0);
            && InStep(Join(a, x.events), x.marks, data, i, Join(c, y.events), y.marks)
            && x.marks.Keys == Flow(marks.Keys, acts) && y.marks.Keys == Flow(marks1.Keys, acts)
    decreases |acts|
  {
    hide Perform;
    hide InOrder;
    hide FlowOne;
    hide InStep;
    StepMarks(a, marks, data, i, c, marks1);
    if acts != [] {
      PerformKeepsStep(acts[0], a, marks, data, i, c, marks1);
      var x, y := Perform(acts[0], marks, data, i), Perform(acts[0], marks1, [data[i]], 0);
      StepMarks(Join(a, x.events), x.marks, data, i, Join(c, y.events), y.marks);
      PerformAllKeepsStep(acts[1..], Join(a, x.events), x.marks, data, i, Join(c, y.events), y.marks);
      JoinAppend(a, x.events, PerformAll(acts[1..], x.marks, data, i).events);
      JoinAppend(c, y.events, PerformAll(acts[1..], y.marks, [data[i]], 0).events);
    }
  }

  lemma StepMarks(a: seq<Event>, marks: Marks, data: seq<byte>, i: nat, c: seq<Event>, marks1: Marks)
    requires i < |data| && InStep(a, marks, data, i, c, marks1)
    ensures (forall s :: s in marks ==> marks[s] <= i) && (forall s :: s in marks1 ==> marks1[s] == 0)
  {
  }

  /** At the end of the buffer, what is marked is called back. */
  lemma LeftOverIsPending(a: seq<Event>, marks: Marks, data: seq<byte>)
    requires (forall s :: s in marks ==> marks[s] <= |data|) && exists s :: marks.Keys <= {s}
    ensures Join(a, LeftOver(marks, data)) == Pending(a, marks, data, |data|)
  {
    hide JoinOne;
    var s :| marks.Keys <= {s};
    assert forall x :: x in marks ==> x == s;
    if s in marks {
      assert LeftOver(marks, data) == [Data(s, data[marks[s]..])];
      assert data[marks[s]..] == data[marks[s]..|data|];
      JoinSingle(a, Data(s, data[marks[s]..]));
    } else {
      assert LeftOver(marks, data) == [];
    }
  }

  /** When the byte is through, the one-byte call has called back all the long call has pending. */
  lemma ByteEnds(a: seq<Event>, marks: Marks, data: seq<byte>, i: nat, c: seq<Event>, marks1: Marks)
    requires i < |data| && InStep(a, marks, data, i, c, marks1) && marks.Keys == marks1.Keys
    ensures forall s :: s in marks ==> marks[s] <= i + 1
    ensures Pending(a, marks, data, i + 1) == Join(c, LeftOver(marks1, [data[i]]))
    ensures forall s :: marks.Keys == {s} ==> EndsIn(Pending(a, marks, data, i + 1), s)
  {
    hide JoinOne;
    LeftOverIsPending(c, marks1, [data[i]]);
    var s :| marks.Keys <= {s};
    if s in marks {
      assert marks.Keys == {s};
      PendingOne(a, marks, data, i, s);
      PendingOne(c, marks1, [data[i]], 0, s);
      PendingOne(a, marks, data, i + 1, s);
      PendingOne(c, marks1, [data[i]], 1, s);
      assert [data[i]][0..0] == [] && [data[i]][0..1] == [data[i]];
      Grows(s, a, marks[s], data, i, c);
    } else {
      PendingNone(a, marks, data, i);
      PendingNone(a, marks, data, i + 1);
      PendingNone(c, marks1, [data[i]], 0);
      PendingNone(c, marks1, [data[i]], 1);
    }
  }

  /** The next one-byte call starts in step. */
  lemma NextByte(s: State, a: seq<Event>, marks: Marks, data: seq<byte>, i: nat)
    requires i < |data| && Fits(s, marks.Keys) && forall x :: x in marks ==> marks[x] <= i
    requires forall x :: marks.Keys == {x} ==> EndsIn(Pending(a, marks, data, i), x)
    ensures InStep(a, marks, data, i, Pending(a, marks, data, i), InitialMarks(s))
  {
    hide JoinOne;
    hide EndsIn;
    hide Pending;
    var c := Pending(a, marks, data, i);
    var m := InitialMarks(s);
    AtMostOne(s, marks.Keys);
    SubSpans(s, marks.Keys);
    hide Fits;
    hide OpenSpans;
    hide InitialMarks;
    if m.Keys == {} {
      PendingNone(c, m, [data[i]], 0);
    } else {
      var x :| x in m.Keys;
      assert m.Keys == {x} == marks.Keys;
      PendingOne(c, m, [data[i]], 0, x);
      assert [data[i]][0..0] == [];
      JoinNothing(c, x);
    }
  }

  lemma SubSpans(s: State, m: set<Span>)
    requires Fits(s, m)
    ensures OpenSpans(s) == {} || OpenSpans(s) == m
  {
  }

  lemma AtMostOne(s: State, m: set<Span>)
    requires m == OpenSpans(s) || Fits(s, m)
    ensures exists x :: m <= {x}
  {
    if m == {} {
      assert m <= {Body};
    } else if BodySpanState(s) {
      assert m <= {Body};
    } else {
      var x :| x in m;
      assert m <= {x};
    }
  }

  // ---------------------------------------------------------------- calls one after the other

  datatype Outcome = Outcome(p: Parser, events: seq<Event>, fate: Fate, consumed: nat)

  /** One call for every byte. */
  function Bytewise(p: Parser, a: seq<Event>, data: seq<byte>): Outcome
    decreases |data|
  {
    if data == [] then Outcome(p, a, Go, 0) else
    var r := Execute(p, data[..1]);
    if !r.fate.Go? then Outcome(r.p, Join(a, r.events), r.fate, r.consumed) else
    var rest := Bytewise(r.p, Join(a, r.events), data[1..]);
    rest.(consumed := 1 + rest.consumed)
  }

  /** One call for every buffer, until one does not say to go on. */
  function Feed(p: Parser, a: seq<Event>, buffers: seq<seq<byte>>): Outcome
    decreases |buffers|
  {
    if buffers == [] then Outcome(p, a, Go, 0) else
    var r := Execute(p, buffers[0]);
    if !r.fate.Go? then Outcome(r.p, Join(a, r.events), r.fate, r.consumed) else
    var rest := Feed(r.p, Join(a, r.events), buffers[1..]);
    rest.(consumed := r.consumed + rest.consumed)
  }

  /** The same parser, the same fate at the same byte, and unless it is an error the same events. */
  predicate Same(x: Outcome, y: Outcome) {
    x.p == y.p && x.fate == y.fate && x.consumed == y.consumed && (!x.fate.Fail? ==> x.events == y.events)
  }

  lemma StepIsTidy(p: Parser, ch: byte, m: set<Span>)
    requires Fits(p.state, m)
    ensures Tidy(Step(p, ch), m, OpenSpans(p.state))
  {
    hide Tidy;
    hide Switch;
    hide Fits;
    hide OpenSpans;
    if ParsingHeader(p.state) && p.nread + 1 > MAX_HEADER_SIZE {
      FailTidy(Step(p, ch), m, OpenSpans(p.state));
    } else {
      var q := if ParsingHeader(p.state) then p.(nread := p.nread + 1) else p;
      FitsState(p, q, m);
      SwitchIsTidy(q, ch, m);
    }
  }

  lemma FitsState(p: Parser, q: Parser, m: set<Span>)
    requires p.state == q.state
    ensures Fits(p.state, m) == Fits(q.state, m) && OpenSpans(p.state) == OpenSpans(q.state)
  {
  }

  lemma OneByteCall(p: Parser, ch: byte)
    ensures var pass, r := Step(p, ch), Execute(p, [ch]);
            var done := PerformAll(pass.acts, InitialMarks(p.state), [ch], 0);
            && r.p == pass.p && r.fate == pass.fate
            && (pass.fate.Go? ==> r.events == done.events + LeftOver(done.marks, [ch]) && r.consumed == 1)
            && (pass.fate.Leave? ==> r.events == done.events && r.consumed == 1)
            && (pass.fate.Fail? ==> r.consumed == 0)
  {
    hide Step;
    hide PerformAll;
    hide LeftOver;
    hide InitialMarks;
    assert [ch][0] == ch && |[ch]| == 1;
    var m := InitialMarks(p.state);
    var pass := Step(p, ch);
    var done := PerformAll(pass.acts, m, [ch], 0);
    assert From(pass.p, done.marks, [ch], 1) == Result(pass.p, LeftOver(done.marks, [ch]), Go, 1);
    assert Execute(p, [ch]) == From(p, m, [ch], 0);
  }

  lemma {:induction false} FromIsBytewise(p: Parser, a: seq<Event>, marks: Marks, data: seq<byte>, i: nat,
                                          c: seq<Event>)
    requires i < |data| && Fits(p.state, marks.Keys) && InStep(a, marks, data, i, c, InitialMarks(p.state))
    ensures forall s :: s in marks ==> marks[s] <= i
    ensures var r, b := From(p, marks, data, i), Bytewise(p, c, data[i..]);
            Same(Outcome(r.p, Join(a, r.events), r.fate, r.consumed), b.(consumed := i + b.consumed))
    decreases |data| - i
  {
    hide Step;
    hide PerformAll;
    hide LeftOver;
    hide InitialMarks;
    hide InStep;
    hide Fits;
    hide OpenSpans;
    hide Pending;
    hide Join;
    hide Execute;
    hide EndsIn;
    var m1 := InitialMarks(p.state);
    StepMarks(a, marks, data, i, c, m1);
    var pass := Step(p, data[i]);
    assert data[i..][..1] == [data[i]];
    assert data[i..][1..] == data[i + 1..];
    OneByteCall(p, data[i]);
    StepIsTidy(p, data[i], marks.Keys);
    if !pass.fate.Fail? {
      PerformAllKeepsStep(pass.acts, a, marks, data, i, c, m1);
      var x, y := PerformAll(pass.acts, marks, data, i), PerformAll(pass.acts, m1, [data[i]], 0);
      var a1, c1 := Join(a, x.events), Join(c, y.events);
      if pass.fate.Leave? {
        ByteCloses(a1, x.marks, data, i, c1, y.marks);
      } else {
        var c2 := Join(c1, LeftOver(y.marks, [data[i]]));
        StepMarks(a1, x.marks, data, i, c1, y.marks);
        JoinAppend(c, y.events, LeftOver(y.marks, [data[i]]));
        ByteEnds(a1, x.marks, data, i, c1, y.marks);
        if i + 1 == |data| {
          StepSingle(a1, x.marks, data, i, c1, y.marks);
          LeftOverIsPending(a1, x.marks, data);
          JoinAppend(a, x.events, LeftOver(x.marks, data));
        } else {
          NextByte(pass.p.state, a1, x.marks, data, i + 1);
          FromIsBytewise(pass.p, a1, x.marks, data, i + 1, c2);
          JoinAppend(a, x.events, From(pass.p, x.marks, data, i + 1).events);
        }
      }
    }
  }

  lemma StepSingle(a: seq<Event>, marks: Marks, data: seq<byte>, i: nat, c: seq<Event>, marks1: Marks)
    requires i < |data| && InStep(a, marks, data, i, c, marks1)
    ensures exists s :: marks.Keys <= {s}
  {
  }

  lemma ByteCloses(a: seq<Event>, marks: Marks, data: seq<byte>, i: nat, c: seq<Event>, marks1: Marks)
    requires i < |data| && InStep(a, marks, data, i, c, marks1) && marks.Keys == {} == marks1.Keys
    ensures a == c
  {
    PendingNone(a, marks, data, i);
    PendingNone(c, marks1, [data[i]], 0);
  }

  lemma FirstByte(s: State, a: seq<Event>, data: seq<byte>)
    requires data != []
    ensures InStep(a, InitialMarks(s), data, 0, a, InitialMarks(s)) && Fits(s, InitialMarks(s).Keys)
  {
    hide Pending;
    hide JoinOne;
    hide EndsIn;
    var m := InitialMarks(s);
    AtMostOne(s, m.Keys);
    assert Fits(s, m.Keys);
    hide Fits;
    hide OpenSpans;
    hide InitialMarks;
    if m.Keys == {} {
      PendingNone(a, m, data, 0);
      PendingNone(a, m, [data[0]], 0);
    } else {
      var x :| m.Keys <= {x};
      assert m.Keys == {x};
      PendingOne(a, m, data, 0, x);
      PendingOne(a, m, [data[0]], 0, x);
      assert data[0..0] == [] == [data[0]][0..0];
    }
  }

  /** One call on a buffer is one call on each of its bytes. */
  lemma ExecuteIsBytewise(p: Parser, a: seq<Event>, data: seq<byte>)
    requires data != []
    ensures var r := Execute(p, data);
            Same(Outcome(r.p, Join(a, r.events), r.fate, r.consumed), Bytewise(p, a, data))
  {
    hide Bytewise;
    hide From;
    hide Join;
    var m := InitialMarks(p.state);
    FirstByte(p.state, a, data);
    hide InStep;
    hide InitialMarks;
    hide Fits;
    FromIsBytewise(p, a, m, data, 0, a);
    assert data[0..] == data;
  }

  lemma {:induction false} BytewiseAppend(p: Parser, a: seq<Event>, x: seq<byte>, y: seq<byte>)
    ensures var r := Bytewise(p, a, x);
            Bytewise(p, a, x + y) == if !r.fate.Go? then r else
                                     var rest := Bytewise(r.p, r.events, y);
                                     rest.(consumed := |x| + rest.consumed)
    decreases |x|
  {
    hide Execute;
    hide Join;
    if x == [] {
      assert x + y == y;
    } else {
      assert (x + y)[..1] == x[..1];
      assert (x + y)[1..] == x[1..] + y;
      var r := Execute(p, x[..1]);
      if r.fate.Go? {
        BytewiseAppend(r.p, Join(a, r.events), x[1..], y);
      }
    }
  }

  function Flatten(buffers: seq<seq<byte>>): seq<byte>
    decreases |buffers|
  {
    if buffers == [] then [] else buffers[0] + Flatten(buffers[1..])
  }

  lemma {:induction false} FeedIsBytewise(p: Parser, a: seq<Event>, buffers: seq<seq<byte>>)
    requires forall k :: 0 <= k < |buffers| ==> buffers[k] != []
    ensures Same(Feed(p, a, buffers), Bytewise(p, a, Flatten(buffers)))
    decreases |buffers|
  {
    hide Execute;
    hide Join;
    hide Bytewise;
    if buffers != [] {
      var r := Execute(p, buffers[0]);
      ExecuteIsBytewise(p, a, buffers[0]);
      BytewiseAppend(p, a, buffers[0], Flatten(buffers[1..]));
      if r.fate.Go? {
        ExecuteConsumes(p, buffers[0]);
        FeedIsBytewise(r.p, Join(a, r.events), buffers[1..]);
      }
    } else {
      BytewiseNothing(p, a);
    }
  }

  lemma BytewiseNothing(p: Parser, a: seq<Event>)
    ensures Bytewise(p, a, []) == Outcome(p, a, Go, 0)
  {
  }

  lemma {:induction false} FromConsumes(p: Parser, marks: Marks, data: seq<byte>, i: nat)
    requires i <= |data| && forall s :: s in marks ==> marks[s] <= i
    ensures From(p, marks, data, i).fate.Go? ==> From(p, marks, data, i).consumed == |data|
    decreases |data| - i
  {
    hide Step;
    if i < |data| {
      var pass := Step(p, data[i]);
      if pass.fate.Go? {
        FromConsumes(pass.p, PerformAll(pass.acts, marks, data, i).marks, data, i + 1);
      }
    }
  }

  lemma ExecuteConsumes(p: Parser, data: seq<byte>)
    ensures Execute(p, data).fate.Go? ==> Execute(p, data).consumed == |data|
  {
    FromConsumes(p, InitialMarks(p.state), data, 0);
  }

  /**
    Split invariance: however the same bytes are cut into buffers, the parser ends up the same (the
    header count included), stops at the same byte for the same reason, and unless the reason is an
    error the events are the same once adjacent data callbacks of one kind are joined.
   */
  lemma SplitInvariance(p: Parser, a: seq<Event>, x: seq<seq<byte>>, y: seq<seq<byte>>)
    requires forall k :: 0 <= k < |x| ==> x[k] != []
    requires forall k :: 0 <= k < |y| ==> y[k] != []
    requires Flatten(x) == Flatten(y)
    ensures Same(Feed(p, a, x), Feed(p, a, y))
  {
    FeedIsBytewise(p, a, x);
    FeedIsBytewise(p, a, y);
  }
}
