/**
  What `epoll_wait` returns (ioqueue/src/ioqueue_epoll.c:352) and when it is collected (from line 378 on):
  in between no lock is held, and the key may be unregistered and registered anew.  The delay before a key
  is free again is what keeps a late event from the wrong registration.
 */
module IoQueueReports {
  import opened Common
  import opened IoQueueModel

  /** A key that `epoll_wait` has returned, with the registration and the time of that. */
  datatype Report = Report(key: Key, generation: nat, time: nat)

  /** A report that was collected: the event, what it was collected for, and when. */
  datatype Collected = Collected(report: Report, entry: Entry, time: nat)

  /** The queue, the reports that pollers have not looked at yet, the one looked at, and the collected ones. */
  datatype Watch = Watch(s: State, reports: multiset<Report>, seen: Option<Report>, taken: seq<Collected>)

  datatype Move =
    | Queue(step: Step)
    | Wait(key: Key)
    | LookAt(report: Report) | TakeSeen | Ignore(report: Report)
    | Done(i: nat)

  /** A key is in the set that is waited for from its registration until it is counted off. */
  predicate CanMove(w: Watch, move: Move) {
    match move
    case Queue(step) => !step.Look? && !step.Take? && !step.Finish? && Enabled(w.s, step)
    case Wait(k) => k < |w.s.keys| && Open(w.s.keys[k])
    case LookAt(r) => r in w.reports && Enabled(w.s, Look(r.key))
    case TakeSeen => w.seen.Some? && Enabled(w.s, Take)
    case Ignore(r) => r in w.reports
    case Done(i) => i < |w.taken| && Enabled(w.s, Finish(w.taken[i].entry))
  }

  function Moved(w: Watch, move: Move): Watch
    requires CanMove(w, move)
  {
    match move
    case Queue(step) => w.(s := Next(w.s, step))
    case Wait(k) => w.(reports := w.reports + multiset{Report(k, w.s.keys[k].generation, w.s.now)})
    case LookAt(r) =>
      var t := Next(w.s, Look(r.key));
      w.(s := t, reports := w.reports - multiset{r}, seen := if t.polling.Seen? then Some(r) else None)
    case TakeSeen =>
      var k := w.s.polling.key;
      w.(s := Next(w.s, Take), seen := None,
         taken := w.taken + [Collected(w.seen.value, Entry(k, w.s.keys[k].generation), w.s.now)])
    case Ignore(r) => w.(reports := w.reports - multiset{r})
    case Done(i) => w.(s := Next(w.s, Finish(w.taken[i].entry)), taken := w.taken[..i] + w.taken[i + 1..])
  }

  predicate CanGo(w: Watch, moves: seq<Move>)
    decreases |moves|
  {
    moves == [] || (CanMove(w, moves[0]) && CanGo(Moved(w, moves[0]), moves[1..]))
  }

  function Go(w: Watch, moves: seq<Move>): Watch
    requires CanGo(w, moves)
    decreases |moves|
  {
    if moves == [] then w else Go(Moved(w, moves[0]), moves[1..])
  }

  // ---------------------------------------------------------------- the invariant

  /** The key was registered again since the report only if the delay has passed since the report. */
  predicate Timely(s: State, r: Report) {
    && r.key < |s.keys|
    && var v := s.keys[r.key];
       && v.used && r.time <= s.now && r.generation <= v.generation
       && (r.generation < v.generation ==> r.time + FREE_DELAY <= s.now)
       && (r.generation == v.generation && v.refCount == 0 ==> r.time + FREE_DELAY <= v.freeTime)
  }

  /** Collected in time, an event is for the registration it was reported for. */
  predicate InTime(c: Collected) {
    && c.entry.key == c.report.key && c.report.generation <= c.entry.generation
    && (c.time < c.report.time + FREE_DELAY ==> c.report.generation == c.entry.generation)
  }

  ghost predicate ReportsOk(w: Watch) {
    && Inv(w.s)
    && (forall r :: r in w.reports ==> Timely(w.s, r))
    && (w.seen.Some? ==> w.s.polling == Seen(w.seen.value.key) && Timely(w.s, w.seen.value))
  }

  ghost predicate WatchInv(w: Watch) {
    && ReportsOk(w)
    && (forall c :: c in w.taken ==> InTime(c))
    && w.s.collected == Entries(w.taken)
  }

  function Entries(taken: seq<Collected>): multiset<Entry>
    decreases |taken|
  {
    if taken == [] then multiset{} else multiset{taken[0].entry} + Entries(taken[1..])
  }

  lemma {:induction false} EntriesAppend(a: seq<Collected>, b: seq<Collected>)
    ensures Entries(a + b) == Entries(a) + Entries(b)
    decreases |a|
  {
    if a == [] {
      assert a + b == b;
    } else {
      assert (a + b)[1..] == a[1..] + b;
      EntriesAppend(a[1..], b);
    }
  }

  lemma EntriesWithout(taken: seq<Collected>, i: nat)
    requires i < |taken|
    ensures Entries(taken) == Entries(taken[..i] + taken[i + 1..]) + multiset{taken[i].entry}
  {
    var front, back := taken[..i], taken[i + 1..];
    var rest := [taken[i]] + back;
    assert taken == front + rest;
    assert rest[1..] == back && rest[0] == taken[i];
    assert Entries(rest) == multiset{taken[i].entry} + Entries(back);
    hide Entries;
    EntriesAppend(front, rest);
    EntriesAppend(front, back);
  }

  /** The conditions of the moves shut nothing out: reports can be looked at, and events released, at any time. */
  lemma MovesAreFree(w: Watch, r: Report, i: nat)
    requires WatchInv(w)
    ensures CanMove(w, LookAt(r)) <==> r in w.reports && w.s.polling.Looking?
    ensures CanMove(w, TakeSeen) <==> w.seen.Some?
    ensures CanMove(w, Done(i)) <==> i < |w.taken| && w.s.polling.Nobody?
  {
    if r in w.reports {
      LookIsFree(w.s, r);
    }
    if w.seen.Some? {
      TakeIsFree(w.s, w.seen.value);
    }
    if i < |w.taken| {
      EntriesWithout(w.taken, i);
      FinishIsFree(w.s, w.taken[i].entry);
    }
    hide Inv;
    hide Timely;
    hide Enabled;
    hide InTime;
    hide Entries;
  }

  lemma LookIsFree(s: State, r: Report)
    requires Timely(s, r)
    ensures Enabled(s, Look(r.key)) <==> s.polling.Looking?
  {
  }

  lemma TakeIsFree(s: State, r: Report)
    requires Timely(s, r) && s.polling == Seen(r.key)
    ensures Enabled(s, Take)
  {
  }

  lemma FinishIsFree(s: State, e: Entry)
    requires Inv(s) && e in s.collected
    ensures Enabled(s, Finish(e)) <==> s.polling.Nobody?
  {
  }

  lemma RegisterTimely(s: State, r: Report)
    requires Inv(s) && Timely(s, r)
    ensures Timely(Register(s), r)
  {
    if RegisterOutcome(s).Registered? {
      ReuseWaits(s, RegisterOutcome(s).key);
    }
  }

  lemma ReleaseTimely(s: State, k: Key, r: Report)
    requires k < |s.keys| && Timely(s, r)
    ensures Timely(Decrement(s, k), r) && |Decrement(s, k).keys| == |s.keys|
  {
  }

  /** The record of a key changes, but not what the reports depend on. */
  lemma RecordTimely(s: State, k: Key, v: KeyState, r: Report)
    requires k < |s.keys| && Timely(s, r)
    requires v.used == s.keys[k].used && v.generation == s.keys[k].generation && v.freeTime == s.keys[k].freeTime
    requires v.refCount == 0 ==> s.keys[k].refCount == 0
    ensures Timely(Update(s, k, v), r)
  {
  }

  /** What the reports depend on is in the records of the keys and the time. */
  lemma SameTimely(s: State, t: State, r: Report)
    requires Timely(s, r) && t.keys == s.keys && t.now >= s.now
    ensures Timely(t, r)
  {
  }

  lemma UnregisterTimely(s: State, step: Step, r: Report)
    requires Enabled(s, step) && Timely(s, r)
    requires step.Check? || step.CountOff? || step.SetClosing? || step.DropOwn? || step.Unlock?
    ensures Timely(Next(s, step), r)
  {
    hide Timely;
    hide Decrement;
    var k := step.key;
    if step.DropOwn? {
      ReleaseTimely(s, k, r);
      RecordTimely(Decrement(s, k), k, Next(s, step).keys[k], r);
    } else {
      var u := Update(s, k, Next(s, step).keys[k]);
      RecordTimely(s, k, u.keys[k], r);
      SameTimely(u, Next(s, step), r);
    }
  }

  lemma PollTimely(s: State, step: Step, r: Report)
    requires Enabled(s, step) && Timely(s, r) && (step.Take? || step.Finish?)
    ensures Timely(Next(s, step), r)
  {
    hide Timely;
    hide Decrement;
    match step
    case Take =>
      var k := s.polling.key;
      var u := Update(s, k, Next(s, step).keys[k]);
      RecordTimely(s, k, u.keys[k], r);
      SameTimely(u, Next(s, step), r);
    case Finish(e) =>
      ReleaseTimely(s, e.key, r);
      SameTimely(Decrement(s, e.key), Next(s, step), r);
  }

  lemma StepTimely(s: State, step: Step, r: Report)
    requires Inv(s) && Enabled(s, step) && Timely(s, r)
    ensures Timely(Next(s, step), r)
  {
    hide Inv;
    hide Timely;
    match step
    case DoRegister => RegisterTimely(s, r);
    case Take => PollTimely(s, step, r);
    case Finish(_) => PollTimely(s, step, r);
    case Pass(_) => SameTimely(s, Next(s, step), r);
    case DoScan => SameTimely(s, Next(s, step), r);
    case Lock => SameTimely(s, Next(s, step), r);
    case Look(_) => SameTimely(s, Next(s, step), r);
    case LetGo => SameTimely(s, Next(s, step), r);
    case _ => UnregisterTimely(s, step, r);
  }

  /** While a poller has seen a key, it alone goes on looking. */
  lemma StillSeen(s: State, step: Step)
    requires Enabled(s, step) && s.polling.Seen? && !step.Take?
    ensures Next(s, step).polling == s.polling
  {
  }

  lemma FinishTakes(s: State, e: Entry)
    requires Enabled(s, Finish(e))
    ensures Next(s, Finish(e)).collected == s.collected - multiset{e}
  {
  }

  lemma OthersCollectNothing(s: State, step: Step)
    requires Enabled(s, step) && !step.Take? && !step.Finish?
    ensures Next(s, step).collected == s.collected
  {
  }

  lemma QueueKeeps(w: Watch, step: Step)
    requires ReportsOk(w) && Enabled(w.s, step) && !step.Look? && !step.Take?
    ensures ReportsOk(w.(s := Next(w.s, step)))
  {
    hide Inv;
    hide Enabled;
    hide Next;
    hide Timely;
    NextKeeps(w.s, step);
    forall r | r in w.reports
      ensures Timely(Next(w.s, step), r)
    {
      StepTimely(w.s, step, r);
    }
    if w.seen.Some? {
      StepTimely(w.s, step, w.seen.value);
      StillSeen(w.s, step);
    }
  }

  lemma WaitKeeps(w: Watch, k: Key)
    requires WatchInv(w) && CanMove(w, Wait(k))
    ensures WatchInv(Moved(w, Wait(k)))
  {
    InvKey(w.s, k);
    assert Timely(w.s, Report(k, w.s.keys[k].generation, w.s.now));
    hide Inv;
    hide Timely;
  }

  lemma LookKeeps(w: Watch, r: Report)
    requires WatchInv(w) && CanMove(w, LookAt(r))
    ensures WatchInv(Moved(w, LookAt(r)))
  {
    hide Inv;
    NextKeeps(w.s, Look(r.key));
    assert Next(w.s, Look(r.key)).keys == w.s.keys && Next(w.s, Look(r.key)).now == w.s.now;
  }

  lemma TakeSeenReports(w: Watch)
    requires ReportsOk(w) && w.seen.Some? && Enabled(w.s, Take)
    ensures ReportsOk(w.(s := Next(w.s, Take), seen := None))
  {
    NextKeeps(w.s, Take);
    hide Inv;
    hide Timely;
    forall r | r in w.reports
      ensures Timely(Next(w.s, Take), r)
    {
      StepTimely(w.s, Take, r);
    }
  }

  lemma SeenInTime(s: State, r: Report)
    requires Timely(s, r)
    ensures InTime(Collected(r, Entry(r.key, s.keys[r.key].generation), s.now))
  {
  }

  lemma TakeCollects(s: State)
    requires Enabled(s, Take)
    ensures Next(s, Take).collected
         == s.collected + multiset{Entry(s.polling.key, s.keys[s.polling.key].generation)}
  {
  }

  lemma OneMoreKeeps(w: Watch, u: Watch, c: Collected)
    requires WatchInv(w) && ReportsOk(u) && InTime(c) && u.taken == w.taken + [c]
    requires u.s.collected == w.s.collected + multiset{c.entry}
    ensures WatchInv(u)
  {
    hide ReportsOk;
    hide InTime;
    EntriesAppend(w.taken, [c]);
    assert [c][1..] == [];
    assert Entries([c]) == multiset{c.entry};
    hide Entries;
  }

  lemma TakeSeenKeeps(w: Watch)
    requires WatchInv(w) && CanMove(w, TakeSeen)
    ensures WatchInv(Moved(w, TakeSeen))
  {
    hide Inv;
    hide Timely;
    hide InTime;
    hide Next;
    hide Entries;
    var k := w.s.polling.key;
    var c := Collected(w.seen.value, Entry(k, w.s.keys[k].generation), w.s.now);
    SeenInTime(w.s, w.seen.value);
    TakeSeenReports(w);
    TakeCollects(w.s);
    SameReports(w.(s := Next(w.s, Take), seen := None), Moved(w, TakeSeen));
    hide Enabled;
    OneMoreKeeps(w, Moved(w, TakeSeen), c);
  }

  lemma SameReports(w: Watch, u: Watch)
    requires ReportsOk(w) && u == w.(taken := u.taken)
    ensures ReportsOk(u)
  {
  }

  lemma StepKeeps(w: Watch, step: Step)
    requires WatchInv(w) && CanMove(w, Queue(step))
    ensures WatchInv(Moved(w, Queue(step)))
  {
    hide ReportsOk;
    hide Enabled;
    hide Next;
    hide InTime;
    QueueKeeps(w, step);
    OthersCollectNothing(w.s, step);
  }

  lemma IgnoreKeeps(w: Watch, r: Report)
    requires WatchInv(w) && CanMove(w, Ignore(r))
    ensures WatchInv(Moved(w, Ignore(r)))
  {
    hide Inv;
    hide Timely;
    hide InTime;
  }

  lemma DoneKeeps(w: Watch, i: nat)
    requires WatchInv(w) && CanMove(w, Done(i))
    ensures WatchInv(Moved(w, Done(i)))
  {
    hide ReportsOk;
    hide Enabled;
    hide Next;
    hide InTime;
    hide Entries;
    var u, e := Moved(w, Done(i)), w.taken[i].entry;
    QueueKeeps(w, Finish(e));
    SameReports(w.(s := Next(w.s, Finish(e))), u);
    FinishTakes(w.s, e);
    EntriesWithout(w.taken, i);
  }

  lemma MoveKeeps(w: Watch, move: Move)
    requires WatchInv(w) && CanMove(w, move)
    ensures WatchInv(Moved(w, move))
  {
    hide WatchInv;
    hide CanMove;
    hide Moved;
    match move
    case Queue(step) => StepKeeps(w, step);
    case Wait(k) => WaitKeeps(w, k);
    case LookAt(r) => LookKeeps(w, r);
    case TakeSeen => TakeSeenKeeps(w);
    case Ignore(r) => IgnoreKeeps(w, r);
    case Done(i) => DoneKeeps(w, i);
  }

  lemma {:induction false} MovesKeep(w: Watch, moves: seq<Move>)
    requires WatchInv(w) && CanGo(w, moves)
    ensures WatchInv(Go(w, moves))
    decreases |moves|
  {
    hide WatchInv;
    hide CanMove;
    hide Moved;
    if moves != [] {
      MoveKeeps(w, moves[0]);
      MovesKeep(Moved(w, moves[0]), moves[1..]);
    }
  }

  /** A queue that was just created, and nobody waiting. */
  predicate Started(w: Watch) {
    Created(w.s) && w.reports == multiset{} && w.seen.None? && w.taken == []
  }

  /**
    What the delay is for: in every interleaving, an event that is collected less than the delay after
    `epoll_wait` returned it is dispatched for the registration it was returned for, which stays the
    registration of its key until the event is released.
   */
  lemma ReportsMeetTheirRegistration(w: Watch, moves: seq<Move>, c: Collected)
    requires Started(w) && CanGo(w, moves) && c in Go(w, moves).taken
    ensures var t := Go(w, moves).s;
            && c.entry.key == c.report.key < |t.keys| && t.keys[c.report.key].generation == c.entry.generation
            && t.keys[c.report.key].refCount > 0
            && (c.time < c.report.time + FREE_DELAY ==> c.report.generation == c.entry.generation)
  {
    CreatedInv(w.s);
    MovesKeep(w, moves);
    var u := Go(w, moves);
    var i :| 0 <= i < |u.taken| && u.taken[i] == c;
    EntriesWithout(u.taken, i);
    assert c.entry in u.s.collected;
    InvKey(u.s, c.entry.key);
    assert c.entry == Entry(c.entry.key, c.entry.generation);
  }

  // ---------------------------------------------------------------- a late event

  lemma GoNone(w: Watch)
    ensures CanGo(w, []) && Go(w, []) == w
  {
  }

  lemma GoOne(w: Watch, move: Move, moves: seq<Move>)
    requires CanMove(w, move) && CanGo(Moved(w, move), moves)
    ensures CanGo(w, [move] + moves) && Go(w, [move] + moves) == Go(Moved(w, move), moves)
  {
    assert ([move] + moves)[1..] == moves;
  }

  /** One key, and its state after each of its lives. */
  function Alive(generation: nat, now: nat): State {
    State(1, [], [0], [], [KeyState(1, false, if generation == 1 then 0 else FREE_DELAY, Idle, true, true, generation)],
          Nobody, multiset{}, now)
  }

  function Gone(now: nat): State {
    State(0, [], [], [0], [KeyState(0, true, FREE_DELAY, Idle, false, true, 1)], Nobody, multiset{}, now)
  }

  /** The steps of unregistering the one key, and the wait for its delay. */
  lemma Leaves(moves: seq<Move>, w: Watch) returns (all: seq<Move>)
    requires w.s == Alive(1, 0) && CanGo(w.(s := Gone(FREE_DELAY)), moves)
    ensures CanGo(w, all) && Go(w, all) == Go(w.(s := Gone(FREE_DELAY)), moves)
  {
    var v := w.s.keys[0];
    var s2 := w.s.(keys := [v.(phase := Checked)]);
    var s3 := w.s.(count := 0, keys := [v.(phase := Counted)]);
    var s4 := w.s.(count := 0, keys := [v.(phase := Closing, closing := true)]);
    var s5 := Gone(0).(keys := [Gone(0).keys[0].(phase := Released)]);
    UnregisterSteps(w.s, s2, s3, s4, s5);
    all := Queued(w, Pass(FREE_DELAY), Gone(0), Gone(FREE_DELAY), moves);
    all := Queued(w, Unlock(0), s5, Gone(0), all);
    all := Queued(w, DropOwn(0), s4, s5, all);
    all := Queued(w, SetClosing(0), s3, s4, all);
    all := Queued(w, CountOff(0), s2, s3, all);
    all := Queued(w, Check(0), w.s, s2, all);
    assert w.(s := w.s) == w;
  }

  lemma UnregisterSteps(s1: State, s2: State, s3: State, s4: State, s5: State)
    requires s1 == Alive(1, 0)
    requires s2 == s1.(keys := [s1.keys[0].(phase := Checked)])
    requires s3 == s1.(count := 0, keys := [s1.keys[0].(phase := Counted)])
    requires s4 == s1.(count := 0, keys := [s1.keys[0].(phase := Closing, closing := true)])
    requires s5 == Gone(0).(keys := [Gone(0).keys[0].(phase := Released)])
    ensures Enabled(s1, Check(0)) && Next(s1, Check(0)) == s2
    ensures Enabled(s2, CountOff(0)) && Next(s2, CountOff(0)) == s3
    ensures Enabled(s3, SetClosing(0)) && Next(s3, SetClosing(0)) == s4
    ensures Enabled(s4, DropOwn(0)) && Next(s4, DropOwn(0)) == s5
    ensures Enabled(s5, Unlock(0)) && Next(s5, Unlock(0)) == Gone(0)
    ensures Enabled(Gone(0), Pass(FREE_DELAY)) && Next(Gone(0), Pass(FREE_DELAY)) == Gone(FREE_DELAY)
  {
  }

  lemma Queued(w: Watch, step: Step, s: State, t: State, moves: seq<Move>) returns (all: seq<Move>)
    requires !step.Look? && !step.Take? && !step.Finish? && Enabled(s, step) && Next(s, step) == t
    requires CanGo(w.(s := t), moves)
    ensures CanGo(w.(s := s), all) && Go(w.(s := s), all) == Go(w.(s := t), moves)
  {
    hide Enabled;
    hide Next;
    all := [Queue(step)] + moves;
    GoOne(w.(s := s), Queue(step), moves);
  }

  function OneKeyWatch(): Watch {
    Watch(OneKey(), multiset{}, None, [])
  }

  /**
    The bound is exact: collected just the delay after it was returned, an event for the first
    registration of a key is dispatched for the second.
   */
  lemma LateEvent() returns (moves: seq<Move>)
    ensures Started(OneKeyWatch()) && CanGo(OneKeyWatch(), moves)
    ensures Go(OneKeyWatch(), moves).taken == [Collected(Report(0, 1, 0), Entry(0, 2), FREE_DELAY)]
  {
    OneKeyCreated();
    var w := OneKeyWatch();
    var r := Report(0, 1, 0);
    var w1 := w.(s := Alive(1, 0));
    var w2 := w1.(reports := multiset{r});
    var w3 := w2.(s := Alive(2, FREE_DELAY));
    Registers();
    Reported(w1, w2);
    hide Created;
    hide CanMove;
    hide Moved;
    hide CanGo;
    hide Go;
    moves := Looks(w3, r);
    assert w3 == w2.(s := Alive(2, FREE_DELAY));
    moves := Queued(w2, DoRegister, Gone(FREE_DELAY), Alive(2, FREE_DELAY), moves);
    moves := Leaves(moves, w2);
    GoOne(w1, Wait(0), moves);
    moves := [Wait(0)] + moves;
    moves := Queued(w, DoRegister, OneKey(), Alive(1, 0), moves);
    assert w.(s := OneKey()) == w;
  }

  lemma Reported(w: Watch, u: Watch)
    requires w == OneKeyWatch().(s := Alive(1, 0)) && u == w.(reports := multiset{Report(0, 1, 0)})
    ensures CanMove(w, Wait(0)) && Moved(w, Wait(0)) == u
  {
  }

  /** The report is looked at and collected. */
  lemma Looks(w: Watch, r: Report) returns (moves: seq<Move>)
    requires w == Watch(Alive(2, FREE_DELAY), multiset{r}, None, []) && r == Report(0, 1, 0)
    ensures CanGo(w, moves) && Go(w, moves).taken == [Collected(r, Entry(0, 2), FREE_DELAY)]
  {
    var locked := w.(s := w.s.(polling := Looking));
    var looked := w.(s := w.s.(polling := Seen(0)), reports := multiset{}, seen := Some(r));
    assert Moved(locked, LookAt(r)) == looked;
    moves := [];
    GoNone(Moved(looked, TakeSeen));
    GoOne(looked, TakeSeen, moves);
    moves := [TakeSeen] + moves;
    GoOne(locked, LookAt(r), moves);
    moves := [LookAt(r)] + moves;
    GoOne(w, Queue(Lock), moves);
    moves := [Queue(Lock)] + moves;
  }

  lemma Registers()
    ensures Enabled(OneKey(), DoRegister) && Next(OneKey(), DoRegister) == Alive(1, 0)
    ensures Enabled(Gone(FREE_DELAY), DoRegister) && Next(Gone(FREE_DELAY), DoRegister) == Alive(2, FREE_DELAY)
  {
    assert Sift(Gone(FREE_DELAY), [0], true) == [0];
    assert Sift(Gone(FREE_DELAY), [0], false) == [];
  }
}
