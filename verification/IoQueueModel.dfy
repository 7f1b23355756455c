/**
  The life of I/O queue keys (ioqueue/src/ioqueue_epoll.c, and `ioqueue_init_key` of
  ioqueue_common_abs.c): a reference-count protocol between threads that register and unregister keys
  and threads that poll.  Its steps are split where a lock is taken or released; any step that can be
  taken may be taken next.
 */
module IoQueueModel {

  type Key = nat

  /** `PJ_IOQUEUE_KEY_FREE_DELAY`, in milliseconds. */
  const FREE_DELAY := 500

  const UNSIGNED_MAX := 0xFFFF_FFFF

  /** How far the thread that holds the lock of a key has come in `pj_ioqueue_unregister`. */
  datatype Phase = Idle | Checked | Counted | Closing | Released

  /**
    A key.  The last three fields are not in the record: whether a registration still holds its
    reference, whether the key was ever registered, and how often.
   */
  datatype KeyState = KeyState(refCount: nat, closing: bool, freeTime: nat, phase: Phase,
                               held: bool, used: bool, generation: nat)

  /** The thread that holds the queue lock to collect events; it has seen that a key is not closing. */
  datatype Polling = Nobody | Looking | Seen(key: Key)

  /** A collected event, with the registration it was collected for. */
  datatype Entry = Entry(key: Key, generation: nat)

  datatype State = State(count: nat, free: seq<Key>, active: seq<Key>, closing: seq<Key>, keys: seq<KeyState>,
                         polling: Polling, collected: multiset<Entry>, now: nat)

  // ---------------------------------------------------------------- the lists

  function Without(list: seq<Key>, k: Key): (r: seq<Key>)
    decreases |list|
  {
    if list == [] then []
    else if list[0] == k then list[1..]
    else [list[0]] + Without(list[1..], k)
  }

  lemma {:induction false} WithoutTakes(list: seq<Key>, k: Key)
    ensures multiset(Without(list, k)) == multiset(list) - multiset{k}
    decreases |list|
  {
    if list != [] {
      assert list == [list[0]] + list[1..];
      if list[0] != k {
        WithoutTakes(list[1..], k);
      }
    }
  }

  predicate Expired(s: State, k: Key) {
    k < |s.keys| && s.keys[k].freeTime <= s.now
  }

  /** The keys of the list whose time has come, or those whose time has not. */
  function Sift(s: State, list: seq<Key>, expired: bool): seq<Key>
    decreases |list|
  {
    if list == [] then []
    else if Expired(s, list[0]) == expired then [list[0]] + Sift(s, list[1..], expired)
    else Sift(s, list[1..], expired)
  }

  lemma {:induction false} SiftParts(s: State, list: seq<Key>)
    ensures multiset(Sift(s, list, true)) + multiset(Sift(s, list, false)) == multiset(list)
    ensures forall k :: k in Sift(s, list, true) <==> k in list && Expired(s, k)
    ensures forall k :: k in Sift(s, list, false) <==> k in list && !Expired(s, k)
    decreases |list|
  {
    if list != [] {
      SiftParts(s, list[1..]);
      assert list == [list[0]] + list[1..];
    }
  }

  lemma SiftCount(s: State, list: seq<Key>, k: Key)
    ensures multiset(Sift(s, list, true))[k] + multiset(Sift(s, list, false))[k] == multiset(list)[k]
  {
    SiftParts(s, list);
    assert (multiset(Sift(s, list, true)) + multiset(Sift(s, list, false)))[k] == multiset(list)[k];
  }

  // ---------------------------------------------------------------- the operations under the queue lock

  /** `scan_closing_keys` */
  function Scan(s: State): State {
    s.(free := s.free + Sift(s, s.closing, true), closing := Sift(s, s.closing, false))
  }

  function Update(s: State, k: Key, v: KeyState): State
    requires k < |s.keys|
  {
    s.(keys := s.keys[k := v])
  }

  /** `decrement_counter`; the count is unsigned. */
  function Decrement(s: State, k: Key): State
    requires k < |s.keys|
  {
    var v := s.keys[k];
    var n := if v.refCount > 0 then v.refCount - 1 else UNSIGNED_MAX;
    if n == 0 then
      Update(s, k, v.(refCount := 0, freeTime := s.now + FREE_DELAY))
        .(active := Without(s.active, k), closing := Without(s.closing, k) + [k], free := Without(s.free, k))
    else Update(s, k, v.(refCount := n))
  }

  datatype Outcome = Registered(key: Key) | TooMany | NoFreeKey

  /** What `pj_ioqueue_register_sock2` comes to; the last case fails the assertion at line 163. */
  function RegisterOutcome(s: State): Outcome {
    if s.count >= |s.keys| then TooMany
    else if Scan(s).free == [] then NoFreeKey
    else Registered(Scan(s).free[0])
  }

  /** A key taken from the free list, as `ioqueue_init_key` leaves it. */
  function Fresh(v: KeyState): KeyState {
    v.(refCount := v.refCount + 1, closing := false, held := true, used := true, generation := v.generation + 1)
  }

  function Register(s: State): State {
    match RegisterOutcome(s)
    case TooMany => s
    case NoFreeKey => Scan(s)
    case Registered(k) =>
      if k >= |s.keys| then s else
      var t := Scan(s);
      Update(t, k, Fresh(t.keys[k])).(free := t.free[1..], active := t.active + [k], count := t.count + 1)
  }

  // ---------------------------------------------------------------- the steps

  datatype Step =
    | Pass(time: nat)
    | DoRegister
    | DoScan
    | Check(key: Key) | CountOff(key: Key) | SetClosing(key: Key) | DropOwn(key: Key) | Unlock(key: Key)
    | Lock | Look(key: Key) | Take | LetGo
    | Finish(entry: Entry)

  /**
    When a step can be taken.  The steps that need the queue lock wait for the thread that collects;
    callers unregister, and events are for, keys that were registered.
   */
  predicate Enabled(s: State, step: Step) {
    match step
    case Pass(_) => true
    case DoRegister => s.polling.Nobody?
    case DoScan => s.polling.Nobody?
    case Check(k) => k < |s.keys| && s.keys[k].used && s.keys[k].phase.Idle?
    case CountOff(k) => k < |s.keys| && s.keys[k].phase.Checked? && s.polling.Nobody?
    case SetClosing(k) => k < |s.keys| && s.keys[k].phase.Counted?
    case DropOwn(k) => k < |s.keys| && s.keys[k].phase.Closing? && s.polling.Nobody?
    case Unlock(k) => k < |s.keys| && s.keys[k].phase.Released?
    case Lock => s.polling.Nobody?
    case Look(k) => k < |s.keys| && s.keys[k].used && s.polling.Looking?
    case Take => s.polling.Seen? && s.polling.key < |s.keys|
    case LetGo => s.polling.Looking?
    case Finish(e) => e in s.collected && e.key < |s.keys| && s.polling.Nobody?
  }

  function Next(s: State, step: Step): State
    requires Enabled(s, step)
  {
    match step
    case Pass(t) => s.(now := s.now + t)
    case DoRegister => Register(s)
    case DoScan => Scan(s)
    case Check(k) => if s.keys[k].closing then s else Update(s, k, s.keys[k].(phase := Checked))
    case CountOff(k) =>
      Update(s, k, s.keys[k].(phase := Counted)).(count := if s.count > 0 then s.count - 1 else 0)
    case SetClosing(k) => Update(s, k, s.keys[k].(closing := true, phase := Closing))
    case DropOwn(k) =>
      var t := Decrement(s, k);
      Update(t, k, t.keys[k].(held := false, phase := Released))
    case Unlock(k) => Update(s, k, s.keys[k].(phase := Idle))
    case Lock => s.(polling := Looking)
    case Look(k) => if s.keys[k].closing then s else s.(polling := Seen(k))
    case Take =>
      var k := s.polling.key;
      var v := s.keys[k];
      Update(s, k, v.(refCount := v.refCount + 1))
        .(polling := Looking, collected := s.collected + multiset{Entry(k, v.generation)})
    case LetGo => s.(polling := Nobody)
    case Finish(e) => Decrement(s, e.key).(collected := s.collected - multiset{e})
  }

  predicate CanRun(s: State, steps: seq<Step>)
    decreases |steps|
  {
    steps == [] || (Enabled(s, steps[0]) && CanRun(Next(s, steps[0]), steps[1..]))
  }

  function Run(s: State, steps: seq<Step>): State
    requires CanRun(s, steps)
    decreases |steps|
  {
    if steps == [] then s else Run(Next(s, steps[0]), steps[1..])
  }

  // ---------------------------------------------------------------- the invariant

  /** How many collected events there are for a registration. */
  function Outstanding(s: State, k: Key): nat
    requires k < |s.keys|
  {
    s.collected[Entry(k, s.keys[k].generation)]
  }

  /** In how many lists, and how often, a key is. */
  function Places(s: State, k: Key): nat {
    multiset(s.free)[k] + multiset(s.active)[k] + multiset(s.closing)[k]
  }

  /** Each key is in exactly one list, once; nothing else is in them. */
  ghost predicate Partition(s: State) {
    forall k: Key :: Places(s, k) == if k < |s.keys| then 1 else 0
  }

  /** Unregistering has begun, and the reference of the registration is not yet given up. */
  predicate Leaving(v: KeyState) {
    v.phase.Checked? || v.phase.Counted? || v.phase.Closing?
  }

  predicate KeyOk(s: State, k: Key)
    requires k < |s.keys|
  {
    var v := s.keys[k];
    && v.refCount == (if v.held then 1 else 0) + Outstanding(s, k)
    && (v.refCount > 0 <==> k in s.active)
    && (k in s.closing ==> v.used)
    && (k in s.free && v.used ==> v.freeTime <= s.now)
    && (v.held ==> v.used)
    && (v.used ==> (v.closing <==> !v.held || v.phase.Closing?))
    && (Leaving(v) ==> v.held)
    && (v.refCount > 0 ==> v.used)
  }

  /** The key counts: it is registered, and no unregistering thread has counted it off. */
  predicate Open(v: KeyState) {
    v.held && !v.phase.Counted? && !v.phase.Closing?
  }

  function OpenKeys(keys: seq<KeyState>): set<Key> {
    set k | 0 <= k < |keys| && Open(keys[k])
  }

  ghost predicate Inv(s: State) {
    && Partition(s)
    && (forall k :: 0 <= k < |s.keys| ==> KeyOk(s, k))
    && (forall e :: e in s.collected ==> e.key < |s.keys| && e.generation == s.keys[e.key].generation)
    && s.count == |OpenKeys(s.keys)|
    && (s.polling.Seen? ==> s.polling.key < |s.keys| && s.keys[s.polling.key].held)
  }

  // ---------------------------------------------------------------- every step keeps the invariant

  lemma InListOnce(s: State, k: Key)
    requires Partition(s)
    ensures (k in s.free ==> k < |s.keys| && k !in s.active && k !in s.closing)
         && (k in s.active ==> k < |s.keys| && k !in s.free && k !in s.closing)
         && (k in s.closing ==> k < |s.keys| && k !in s.free && k !in s.active)
         && (k < |s.keys| ==> k in s.free || k in s.active || k in s.closing)
  {
    assert Places(s, k) <= 1;
    assert k in s.free <==> multiset(s.free)[k] > 0;
    assert k in s.active <==> multiset(s.active)[k] > 0;
    assert k in s.closing <==> multiset(s.closing)[k] > 0;
  }

  lemma OpenAfter(keys: seq<KeyState>, k: Key, v: KeyState)
    requires k < |keys|
    ensures OpenKeys(keys[k := v]) == if Open(v) then OpenKeys(keys) + {k} else OpenKeys(keys) - {k}
    ensures |OpenKeys(keys[k := v])| == |OpenKeys(keys)| + (if Open(v) then 1 else 0) - (if Open(keys[k]) then 1 else 0)
  {
    var o, n := OpenKeys(keys), OpenKeys(keys[k := v]);
    assert forall j :: j != k ==> (j in n <==> j in o);
    assert k in n <==> Open(v);
    assert n == if Open(v) then o + {k} else o - {k};
  }

  lemma ScanKeeps(s: State)
    requires Inv(s)
    ensures Inv(Scan(s))
  {
    var t := Scan(s);
    SiftParts(s, s.closing);
    forall k: Key
      ensures Places(t, k) == Places(s, k)
    {
      SiftCount(s, s.closing, k);
    }
    forall k | 0 <= k < |t.keys|
      ensures KeyOk(t, k)
    {
      assert KeyOk(s, k);
      InListOnce(s, k);
    }
  }

  /** The first free key goes to the end of the active list. */
  lemma TakenKeeps(t: State, u: State)
    requires Partition(t) && t.free != [] && u.free == t.free[1..] && u.active == t.active + [t.free[0]]
    requires u.closing == t.closing && |u.keys| == |t.keys|
    ensures Partition(u) && t.free[0] < |t.keys| && t.free[0] !in t.active && t.free[0] !in t.closing
    ensures t.free[0] in u.active && t.free[0] !in u.free
    ensures forall j :: j != t.free[0] ==> (j in u.free <==> j in t.free) && (j in u.active <==> j in t.active)
  {
    var k := t.free[0];
    assert t.free == [k] + t.free[1..];
    InListOnce(t, k);
    forall j: Key
      ensures Places(u, j) == Places(t, j)
    {
      assert multiset(t.free)[j] == multiset{k}[j] + multiset(t.free[1..])[j];
      assert multiset(u.active)[j] == multiset(t.active)[j] + multiset{k}[j];
    }
    InListOnce(u, k);
    forall j: Key | j != k
      ensures (j in u.free <==> j in t.free) && (j in u.active <==> j in t.active)
    {
      assert j in t.free <==> multiset(t.free)[j] > 0;
      assert j in u.free <==> multiset(u.free)[j] > 0;
      assert multiset(t.free)[j] == multiset{k}[j] + multiset(t.free[1..])[j];
    }
  }

  lemma RegisterKeeps(s: State)
    requires Inv(s)
    ensures Inv(Register(s))
  {
    hide Sift;
    hide Partition;
    ScanKeeps(s);
    if RegisterOutcome(s).Registered? {
      var t, u := Scan(s), Register(s);
      hide Scan;
      var k := t.free[0];
      FirstFree(t);
      TakenKeeps(t, u);
      OpenAfter(t.keys, k, Fresh(t.keys[k]));
      NoneOutstanding(t, k);
      assert KeyOk(t, k);
      assert !Open(t.keys[k]) && Open(Fresh(t.keys[k]));
      forall j | 0 <= j < |u.keys|
        ensures KeyOk(u, j)
      {
        assert KeyOk(t, j);
      }
      assert u.count == |OpenKeys(u.keys)|;
    }
  }

  lemma FirstFree(t: State)
    requires Partition(t) && t.free != []
    ensures t.free[0] < |t.keys| && t.free[0] !in t.active
  {
    InListOnce(t, t.free[0]);
  }

  /** A free key has no collected events, of this or of any other registration. */
  lemma NoneOutstanding(s: State, k: Key)
    requires Inv(s) && k < |s.keys| && k !in s.active
    ensures s.keys[k].refCount == 0 && !s.keys[k].held
    ensures forall e :: e in s.collected ==> e.key != k
  {
    assert KeyOk(s, k);
    var g := s.keys[k].generation;
    assert s.collected[Entry(k, g)] == 0;
    assert forall e :: e in s.collected && e.key == k ==> e.generation == g;
    forall e | e in s.collected
      ensures e.key != k
    {
      assert e == Entry(e.key, e.generation);
    }
  }

  /** Giving up a reference: to the one of an event, or to that of the registration. */
  lemma DecrementKeeps(s: State, k: Key, t: State)
    requires Partition(s) && k < |s.keys| && k in s.active && s.keys[k].refCount > 0
    requires t == Decrement(s, k)
    ensures Partition(t) && |t.keys| == |s.keys|
    ensures forall j :: 0 <= j < |s.keys| && j != k ==> t.keys[j] == s.keys[j]
    ensures forall j :: j != k ==> (j in t.free <==> j in s.free) && (j in t.active <==> j in s.active)
                                   && (j in t.closing <==> j in s.closing)
    ensures var n := s.keys[k].refCount - 1;
            && t.keys[k] == s.keys[k].(refCount := n,
                                       freeTime := if n == 0 then s.now + FREE_DELAY else s.keys[k].freeTime)
            && (k in t.active <==> n > 0) && (k in t.closing <==> n == 0) && k !in t.free
  {
    hide Without;
    InListOnce(s, k);
    if s.keys[k].refCount == 1 {
      MoveKeeps(s, k, t);
    } else {
      assert forall j: Key :: Places(t, j) == Places(s, j);
    }
  }

  /** The key goes from the active list to the end of the closing list. */
  lemma MoveKeeps(s: State, k: Key, t: State)
    requires Partition(s) && k < |s.keys| == |t.keys| && k in s.active
    requires t.free == Without(s.free, k) && t.active == Without(s.active, k)
    requires t.closing == Without(s.closing, k) + [k]
    ensures Partition(t)
    ensures forall j :: j != k ==> (j in t.free <==> j in s.free) && (j in t.active <==> j in s.active)
                                   && (j in t.closing <==> j in s.closing)
    ensures k !in t.active && k in t.closing && k !in t.free
  {
    hide Without;
    InListOnce(s, k);
    forall j: Key
      ensures Places(t, j) == Places(s, j)
      ensures j != k ==> (j in t.free <==> j in s.free) && (j in t.active <==> j in s.active)
                         && (j in t.closing <==> j in s.closing)
      ensures j == k ==> j !in t.active && j !in t.free
    {
      MoveCounts(s.free, k, j);
      MoveCounts(s.active, k, j);
      MoveCounts(s.closing, k, j);
      assert Places(s, k) == 1;
      assert multiset(t.closing)[j] == multiset(Without(s.closing, k))[j] + multiset{k}[j];
      assert j in t.free <==> multiset(t.free)[j] > 0;
      assert j in t.active <==> multiset(t.active)[j] > 0;
      assert j in t.closing <==> multiset(t.closing)[j] > 0;
    }
  }

  lemma MoveCounts(list: seq<Key>, k: Key, j: Key)
    ensures var n := multiset(list)[j];
            multiset(Without(list, k))[j] == if j == k && n > 0 then n - 1 else n
    ensures j in list <==> multiset(list)[j] > 0
  {
    WithoutTakes(list, k);
  }

  lemma SamePlaces(t: State, u: State)
    requires Partition(t) && |u.keys| == |t.keys|
    requires u.free == t.free && u.active == t.active && u.closing == t.closing
    ensures Partition(u)
  {
    assert forall j: Key :: Places(u, j) == Places(t, j);
  }

  lemma DropOwnKeeps(s: State, k: Key)
    requires Inv(s) && Enabled(s, DropOwn(k))
    ensures Inv(Next(s, DropOwn(k)))
  {
    hide Decrement;
    hide Partition;
    assert KeyOk(s, k);
    var t := Decrement(s, k);
    DecrementKeeps(s, k, t);
    DecrementRest(s, k);
    var v := t.keys[k].(held := false, phase := Released);
    var u := Next(s, DropOwn(k));
    SamePlaces(t, u);
    assert u.keys == s.keys[k := v];
    OpenAfter(s.keys, k, v);
    forall j | 0 <= j < |u.keys|
      ensures KeyOk(u, j)
    {
      assert KeyOk(s, j);
    }
  }

  lemma DecrementRest(s: State, k: Key)
    requires k < |s.keys|
    ensures var t := Decrement(s, k);
            t.count == s.count && t.polling == s.polling && t.collected == s.collected && t.now == s.now
  {
  }

  lemma FinishKeeps(s: State, e: Entry)
    requires Inv(s) && Enabled(s, Finish(e))
    ensures Inv(Next(s, Finish(e)))
  {
    hide Decrement;
    hide Partition;
    var k := e.key;
    assert KeyOk(s, k);
    assert e == Entry(k, s.keys[k].generation);
    var t := Decrement(s, k);
    DecrementKeeps(s, k, t);
    DecrementRest(s, k);
    var u := Next(s, Finish(e));
    SamePlaces(t, u);
    assert u.keys == s.keys[k := t.keys[k]];
    OpenAfter(s.keys, k, t.keys[k]);
    forall j | 0 <= j < |u.keys|
      ensures KeyOk(u, j)
    {
      if j != k {
        OtherKeyOk(s, u, j);
      } else {
        assert u.collected[e] == s.collected[e] - 1;
      }
    }
  }

  lemma OtherKeyOk(s: State, u: State, j: Key)
    requires j < |s.keys| == |u.keys| && KeyOk(s, j) && u.keys[j] == s.keys[j] && u.now == s.now
    requires (j in u.free <==> j in s.free) && (j in u.active <==> j in s.active)
             && (j in u.closing <==> j in s.closing)
    requires Outstanding(u, j) == Outstanding(s, j)
    ensures KeyOk(u, j)
  {
  }

  lemma TakeKeeps(s: State)
    requires Inv(s) && Enabled(s, Take)
    ensures Inv(Next(s, Take))
  {
    var k := s.polling.key;
    assert KeyOk(s, k);
    var u := Next(s, Take);
    assert Partition(u) by {
      assert forall j: Key :: Places(u, j) == Places(s, j);
    }
    OpenAfter(s.keys, k, u.keys[k]);
    forall j | 0 <= j < |u.keys|
      ensures KeyOk(u, j)
    {
      assert KeyOk(s, j);
    }
  }

  /** Nothing but one key's record and the count change. */
  lemma OneKeyKeeps(s: State, k: Key, v: KeyState, n: nat)
    requires Inv(s) && k < |s.keys| && KeyOk(Update(s, k, v).(count := n), k) && v.generation == s.keys[k].generation
    requires n == s.count + (if Open(v) then 1 else 0) - (if Open(s.keys[k]) then 1 else 0)
    requires v.held == s.keys[k].held
    ensures Inv(Update(s, k, v).(count := n))
  {
    var u := Update(s, k, v).(count := n);
    assert Partition(u) by {
      assert forall j: Key :: Places(u, j) == Places(s, j);
    }
    OpenAfter(s.keys, k, v);
    forall j | 0 <= j < |u.keys|
      ensures KeyOk(u, j)
    {
      assert KeyOk(s, j);
    }
  }

  /** The steps that change nothing but a key's phase, its closing flag and the count. */
  lemma PhaseKeeps(s: State, step: Step)
    requires Inv(s) && Enabled(s, step)
    requires step.Check? || step.CountOff? || step.SetClosing? || step.Unlock?
    ensures Inv(Next(s, step))
  {
    hide Inv;
    hide Open;
    var k := step.key;
    InvKey(s, k);
    var v := s.keys[k];
    hide OpenKeys;
    match step
    case Check(_) =>
      if !v.closing {
        OpenIs(v, v.(phase := Checked));
        OneKeyKeeps(s, k, v.(phase := Checked), s.count);
      }
    case CountOff(_) =>
      OpenIs(v, v.(phase := Counted));
      OneKeyKeeps(s, k, v.(phase := Counted), s.count - 1);
    case SetClosing(_) =>
      OpenIs(v, v.(closing := true, phase := Closing));
      OneKeyKeeps(s, k, v.(closing := true, phase := Closing), s.count);
    case Unlock(_) =>
      OpenIs(v, v.(phase := Idle));
      OneKeyKeeps(s, k, v.(phase := Idle), s.count);
  }

  lemma OpenIs(v: KeyState, w: KeyState)
    ensures Open(v) == (v.held && !v.phase.Counted? && !v.phase.Closing?)
    ensures Open(w) == (w.held && !w.phase.Counted? && !w.phase.Closing?)
  {
  }

  lemma InvKey(s: State, k: Key)
    requires Inv(s) && k < |s.keys|
    ensures KeyOk(s, k)
    ensures Open(s.keys[k]) ==> s.count > 0
  {
    if Open(s.keys[k]) {
      assert k in OpenKeys(s.keys);
    }
  }

  lemma ThreadKeeps(s: State, step: Step)
    requires Inv(s) && Enabled(s, step)
    requires step.Pass? || step.Lock? || step.Look? || step.LetGo?
    ensures Inv(Next(s, step))
  {
    var u := Next(s, step);
    assert Partition(u) by {
      assert forall j: Key :: Places(u, j) == Places(s, j);
    }
    if step.Look? {
      assert KeyOk(s, step.key);
    }
    forall j | 0 <= j < |u.keys|
      ensures KeyOk(u, j)
    {
      assert KeyOk(s, j);
    }
  }

  lemma NextKeeps(s: State, step: Step)
    requires Inv(s) && Enabled(s, step)
    ensures Inv(Next(s, step))
  {
    hide Inv;
    match step
    case DoRegister => RegisterKeeps(s);
    case DoScan => ScanKeeps(s);
    case DropOwn(k) => DropOwnKeeps(s, k);
    case Take => TakeKeeps(s);
    case Finish(e) => FinishKeeps(s, e);
    case Check(_) => PhaseKeeps(s, step);
    case CountOff(_) => PhaseKeeps(s, step);
    case SetClosing(_) => PhaseKeeps(s, step);
    case Unlock(_) => PhaseKeeps(s, step);
    case _ => ThreadKeeps(s, step);
  }

  // ---------------------------------------------------------------- all runs

  /** `pj_ioqueue_create`: every key is free; the closing flags of new keys are whatever they were. */
  predicate Created(s: State) {
    && s.count == 0 && s.active == [] && s.closing == [] && s.polling.Nobody? && s.collected == multiset{}
    && s.free == seq(|s.keys|, i => i)
    && forall k :: 0 <= k < |s.keys| ==>
         s.keys[k].refCount == 0 && s.keys[k].phase.Idle? && !s.keys[k].held && !s.keys[k].used
  }

  lemma {:induction false} CountUp(n: nat, k: Key)
    ensures multiset(seq(n, i => i))[k] == if k < n then 1 else 0
    decreases n
  {
    var all: seq<Key> := seq(n, i => i);
    if n > 0 {
      var front: seq<Key> := seq(n - 1, i => i);
      CountUp(n - 1, k);
      assert all == front + [n - 1];
    }
  }

  lemma CreatedInv(s: State)
    requires Created(s)
    ensures Inv(s)
  {
    forall k: Key
      ensures Places(s, k) == if k < |s.keys| then 1 else 0
    {
      CountUp(|s.keys|, k);
    }
    assert OpenKeys(s.keys) == {};
  }

  /** Safety over all runs: whatever the threads do and in whatever order, the invariant holds. */
  lemma {:induction false} RunsKeepInv(s: State, steps: seq<Step>)
    requires Inv(s) && CanRun(s, steps)
    ensures Inv(Run(s, steps))
    decreases |steps|
  {
    hide Inv;
    hide Enabled;
    if steps != [] {
      NextKeeps(s, steps[0]);
      RunsKeepInv(Next(s, steps[0]), steps[1..]);
    }
  }

  /**
    What the invariant says: a key is in exactly one list; its reference count is one for a registration
    that still holds it and one for each collected event; it is active just as long as that is not 0; and
    when it is in the closing list, or free after use, it is closing and has no references.
   */
  lemma KeyLife(s: State, steps: seq<Step>, k: Key)
    requires Created(s) && CanRun(s, steps) && k < |s.keys|
    ensures var t := Run(s, steps);
            && k < |t.keys|
            && Places(t, k) == 1
            && t.keys[k].refCount == (if t.keys[k].held then 1 else 0) + Outstanding(t, k)
            && (k in t.active <==> t.keys[k].refCount > 0)
            && (k in t.closing || (k in t.free && t.keys[k].used) ==> t.keys[k].closing && t.keys[k].refCount == 0)
  {
    CreatedInv(s);
    RunsKeepInv(s, steps);
    SameKeys(s, steps);
    var t := Run(s, steps);
    InvKey(t, k);
    InListOnce(t, k);
  }

  lemma {:induction false} SameKeys(s: State, steps: seq<Step>)
    requires CanRun(s, steps)
    ensures |Run(s, steps).keys| == |s.keys|
    decreases |steps|
  {
    hide Next;
    hide Enabled;
    if steps != [] {
      SameKeysNext(s, steps[0]);
      SameKeys(Next(s, steps[0]), steps[1..]);
    }
  }

  lemma SameKeysNext(s: State, step: Step)
    requires Enabled(s, step)
    ensures |Next(s, step).keys| == |s.keys|
  {
    hide Sift;
    hide Without;
  }

  /**
    A collected event is dispatched and released for the registration that its key had when it was
    collected: a key is not registered again while a collected event for it is outstanding.
   */
  lemma EventsMeetTheirRegistration(s: State, steps: seq<Step>, e: Entry)
    requires Created(s) && CanRun(s, steps) && e in Run(s, steps).collected
    ensures var t := Run(s, steps);
            && e.key < |t.keys| && t.keys[e.key].generation == e.generation
            && e.key in t.active && t.keys[e.key].refCount > 0
  {
    CreatedInv(s);
    RunsKeepInv(s, steps);
    var t := Run(s, steps);
    InvKey(t, e.key);
    assert e == Entry(e.key, e.generation);
  }

  /** A key that was used is registered again no sooner than the delay after its last reference went. */
  lemma ReuseWaits(s: State, k: Key)
    requires Inv(s) && RegisterOutcome(s) == Registered(k)
    ensures k < |s.keys| && s.keys[k].refCount == 0 && (s.keys[k].used ==> s.keys[k].freeTime <= s.now)
    ensures forall e :: e in s.collected ==> e.key != k
  {
    hide Sift;
    ScanKeeps(s);
    var t := Scan(s);
    FirstFree(t);
    InvKey(t, k);
    NoneOutstanding(t, k);
  }

  // ---------------------------------------------------------------- the assertions in the code

  /**
    The assertions that cannot fire: `ref_count == 0` where a key is taken, `closing` where a count
    reaches 0 and where a key is scanned, and a positive `count` where a key is counted off.
   */
  predicate Asserted(s: State, step: Step)
    requires Enabled(s, step)
  {
    match step
    case DoRegister =>
      && (forall k :: k in s.closing ==> k < |s.keys| && s.keys[k].closing)
      && (RegisterOutcome(s).Registered? ==>
            RegisterOutcome(s).key < |s.keys| && s.keys[RegisterOutcome(s).key].refCount == 0)
    case DoScan => forall k :: k in s.closing ==> k < |s.keys| && s.keys[k].closing
    case CountOff(_) => s.count > 0
    case DropOwn(k) => s.keys[k].refCount > 0 && (s.keys[k].refCount == 1 ==> s.keys[k].closing)
    case Finish(e) => s.keys[e.key].refCount > 0 && (s.keys[e.key].refCount == 1 ==> s.keys[e.key].closing)
    case Take => s.keys[s.polling.key].refCount > 0
    case _ => true
  }

  lemma AssertionsHold(s: State, steps: seq<Step>, step: Step)
    requires Created(s) && CanRun(s, steps) && Enabled(Run(s, steps), step)
    ensures Asserted(Run(s, steps), step)
  {
    CreatedInv(s);
    RunsKeepInv(s, steps);
    var t := Run(s, steps);
    match step
    case DoRegister =>
      ClosingIsClosing(t);
      if RegisterOutcome(t).Registered? {
        ReuseWaits(t, RegisterOutcome(t).key);
      }
    case DoScan => ClosingIsClosing(t);
    case CountOff(k) => InvKey(t, k);
    case DropOwn(k) => InvKey(t, k);
    case Finish(e) =>
      InvKey(t, e.key);
      assert e == Entry(e.key, e.generation);
      assert t.collected[e] > 0;
    case Take => InvKey(t, t.polling.key);
    case _ =>
  }

  lemma ClosingIsClosing(s: State)
    requires Inv(s)
    ensures forall k :: k in s.closing ==> k < |s.keys| && s.keys[k].closing && s.keys[k].refCount == 0
  {
    forall k | k in s.closing
      ensures k < |s.keys| && s.keys[k].closing && s.keys[k].refCount == 0
    {
      InListOnce(s, k);
      InvKey(s, k);
    }
  }

  // ---------------------------------------------------------------- the assertion that can fire

  /** Keys that are counted off and cannot be taken yet: still referenced, or not yet through the delay. */
  function Lingering(s: State): set<Key> {
    set k | 0 <= k < |s.keys| && !Open(s.keys[k]) && (k in s.active || (k in s.closing && !Expired(s, k)))
  }

  /**
    `assert(!DL_ListIsEmpty(&ioqueue->free_list))` holds just when fewer keys than `max` are open or
    lingering; the test of `count` before it does not see those that linger.
   */
  lemma FreeKeyExactly(s: State)
    requires Inv(s) && s.count < |s.keys|
    ensures RegisterOutcome(s).Registered? <==> s.count + |Lingering(s)| < |s.keys|
  {
    hide Sift;
    var t := Scan(s);
    ScanKeeps(s);
    SiftParts(s, s.closing);
    var all := Upto(|s.keys|);
    var busy := OpenKeys(s.keys) + Lingering(s);
    assert OpenKeys(s.keys) !! Lingering(s);
    assert |busy| == s.count + |Lingering(s)|;
    forall k | 0 <= k < |s.keys|
      ensures k in busy <==> k !in t.free
    {
      InvKey(s, k);
      InListOnce(s, k);
      InListOnce(t, k);
    }
    assert busy <= all;
    if t.free == [] {
      assert busy == all;
    } else {
      FirstFree(t);
      assert t.free[0] in t.free;
      assert busy <= all - {t.free[0]};
      Smaller(busy, all - {t.free[0]});
    }
  }

  function Upto(n: nat): (all: set<Key>)
    ensures |all| == n && forall k: Key :: k in all <==> k < n
  {
    if n == 0 then {} else
    var rest := Upto(n - 1);
    assert n - 1 !in rest;
    rest + {n - 1}
  }

  lemma Smaller(a: set<Key>, b: set<Key>)
    requires a <= b
    ensures |a| <= |b|
  {
    assert b == a + (b - a);
  }

  function OneKey(): State {
    State(0, [0], [], [], [KeyState(0, false, 0, Idle, false, false, 0)], Nobody, multiset{}, 0)
  }

  /** One key, registered and unregistered: the queue is not full, and yet the next call finds no free key. */
  lemma FreeListCanBeEmpty() returns (steps: seq<Step>)
    ensures Created(OneKey()) && CanRun(OneKey(), steps)
    ensures var s := Run(OneKey(), steps);
            s.count < |s.keys| && RegisterOutcome(s) == NoFreeKey
  {
    OneKeyCreated();
    FirstHalf();
    SecondHalf();
    hide Created;
    hide CountedOff;
    hide Next;
    hide Enabled;
    hide Run;
    hide CanRun;
    hide RegisterOutcome;
    var s := OneKey();
    var s1 := Next(s, DoRegister);
    var s2 := Next(s1, Check(0));
    var s3 := Next(s2, CountOff(0));
    var s4 := Next(s3, SetClosing(0));
    var s5 := Next(s4, DropOwn(0));
    steps := [];
    RunNone(Next(s5, Unlock(0)));
    RunOne(s5, Unlock(0), steps);
    steps := [Unlock(0)] + steps;
    RunOne(s4, DropOwn(0), steps);
    steps := [DropOwn(0)] + steps;
    RunOne(s3, SetClosing(0), steps);
    steps := [SetClosing(0)] + steps;
    RunOne(s2, CountOff(0), steps);
    steps := [CountOff(0)] + steps;
    RunOne(s1, Check(0), steps);
    steps := [Check(0)] + steps;
    RunOne(s, DoRegister, steps);
    steps := [DoRegister] + steps;
  }

  lemma OneKeyCreated()
    ensures Created(OneKey())
  {
    assert seq(1, i => i) == [0];
  }

  function CountedOff(): State {
    State(0, [], [0], [], [KeyState(1, true, 0, Closing, true, true, 1)], Nobody, multiset{}, 0)
  }

  lemma FirstHalf()
    ensures Enabled(OneKey(), DoRegister)
    ensures var s1 := Next(OneKey(), DoRegister);
            Enabled(s1, Check(0))
            && var s2 := Next(s1, Check(0));
               Enabled(s2, CountOff(0))
               && var s3 := Next(s2, CountOff(0));
                  Enabled(s3, SetClosing(0)) && Next(s3, SetClosing(0)) == CountedOff()
  {
    var s1 := Next(OneKey(), DoRegister);
    assert s1 == State(1, [], [0], [], [KeyState(1, false, 0, Idle, true, true, 1)], Nobody, multiset{}, 0);
    var s2 := Next(s1, Check(0));
    assert s2 == s1.(keys := [KeyState(1, false, 0, Checked, true, true, 1)]);
    var s3 := Next(s2, CountOff(0));
    assert s3 == s1.(count := 0, keys := [KeyState(1, false, 0, Counted, true, true, 1)]);
    var s4 := Next(s3, SetClosing(0));
    assert s4.keys == [KeyState(1, true, 0, Closing, true, true, 1)];
    assert s4 == CountedOff();
  }

  lemma SecondHalf()
    ensures Enabled(CountedOff(), DropOwn(0))
    ensures var s5 := Next(CountedOff(), DropOwn(0));
            Enabled(s5, Unlock(0))
            && var s6 := Next(s5, Unlock(0));
               s6.count == 0 && |s6.keys| == 1 && RegisterOutcome(s6) == NoFreeKey
  {
    var s5 := Next(CountedOff(), DropOwn(0));
    assert s5 == State(0, [], [], [0], [KeyState(0, true, 500, Released, false, true, 1)], Nobody, multiset{}, 0);
    var s6 := Next(s5, Unlock(0));
    assert s6 == State(0, [], [], [0], [KeyState(0, true, 500, Idle, false, true, 1)], Nobody, multiset{}, 0);
    assert Sift(s6, [0], true) == [];
  }

  lemma RunNone(s: State)
    ensures CanRun(s, []) && Run(s, []) == s
  {
  }

  lemma RunOne(s: State, step: Step, steps: seq<Step>)
    requires Enabled(s, step) && CanRun(Next(s, step), steps)
    ensures CanRun(s, [step] + steps) && Run(s, [step] + steps) == Run(Next(s, step), steps)
  {
    assert ([step] + steps)[1..] == steps;
  }
}
