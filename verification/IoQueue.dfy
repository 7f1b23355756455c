/**
  The I/O queue object (ioqueue/src/ioqueue_epoll.c).  Each method is what one thread does without
  giving up the lock the code takes; it changes the object in place as one step of the protocol does.
 */
module IoQueue {
  import opened IoQueueModel

  /** What `epoll_wait` reports, and whether the key waits for it. */
  datatype Ready = Ready(key: Key, wanted: bool)

  /** The steps of a thread that collects these events while no other thread interferes. */
  function CollectSteps(keys: seq<KeyState>, events: seq<Ready>): seq<Step>
    decreases |events|
  {
    if events == [] then [] else
    var e := events[|events| - 1];
    CollectSteps(keys, events[..|events| - 1])
    + (if e.wanted && e.key < |keys| && !keys[e.key].closing then [Look(e.key), Take] else [])
  }

  lemma {:induction false} RunAppend(s: State, a: seq<Step>, b: seq<Step>)
    requires CanRun(s, a) && CanRun(Run(s, a), b)
    ensures CanRun(s, a + b) && Run(s, a + b) == Run(Run(s, a), b)
    decreases |a|
  {
    hide Next;
    hide Enabled;
    if a == [] {
      assert a + b == b;
    } else {
      assert (a + b)[1..] == a[1..] + b;
      RunAppend(Next(s, a[0]), a[1..], b);
    }
  }

  lemma LookAndTake(s: State, k: Key)
    requires s.polling.Looking? && k < |s.keys| && s.keys[k].used && !s.keys[k].closing
    ensures var steps := [Look(k), Take];
            && CanRun(s, steps)
            && Run(s, steps) == Update(s, k, s.keys[k].(refCount := s.keys[k].refCount + 1))
                                .(collected := s.collected + multiset{Entry(k, s.keys[k].generation)})
  {
    RunNone(Next(Next(s, Look(k)), Take));
    RunOne(Next(s, Look(k)), Take, []);
    RunOne(s, Look(k), [Take]);
    assert [Take] + [] == [Take];
    assert [Look(k)] + [Take] == [Look(k), Take];
  }

  lemma {:induction false} SiftAppend(s: State, list: seq<Key>, k: Key, expired: bool)
    ensures Sift(s, list + [k], expired) == Sift(s, list, expired) + if Expired(s, k) == expired then [k] else []
    decreases |list|
  {
    if list == [] {
      assert list + [k] == [k];
    } else {
      assert (list + [k])[1..] == list[1..] + [k];
      SiftAppend(s, list[1..], k, expired);
    }
  }

  lemma SiftNone(s: State)
    ensures Sift(s, [], true) == [] == Sift(s, [], false)
  {
  }

  class Queue {
    var count: nat
    var free: seq<Key>
    var active: seq<Key>
    var closing: seq<Key>
    var keys: seq<KeyState>
    var now: nat
    ghost var polling: Polling
    ghost var collected: multiset<Entry>

    ghost function Value(): State
      reads this
    {
      State(count, free, active, closing, keys, polling, collected, now)
    }

    /** `pj_ioqueue_create` */
    constructor (max: nat, t: nat)
      ensures Created(Value()) && |keys| == max && now == t && Inv(Value())
    {
      count, active, closing, now := 0, [], [], t;
      free := seq(max, i => i);
      keys := seq(max, i => KeyState(0, false, 0, Idle, false, false, 0));
      polling, collected := Nobody, multiset{};
      new;
      CreatedInv(Value());
    }

    /** `scan_closing_keys` */
    method ScanClosingKeys()
      requires Inv(Value())
      modifies this`free, this`closing
      ensures Value() == Scan(old(Value())) && Inv(Value())
    {
      hide Inv;
      hide Sift;
      ghost var s := Value();
      ghost var seen: seq<Key> := [];
      ScanKeeps(s);
      SiftNone(s);
      var i := 0;
      while i < |closing|
        invariant i <= |closing|
        invariant s.closing == seen + closing[i..]
        invariant closing[..i] == Sift(s, seen, false) && free == s.free + Sift(s, seen, true)
        decreases |closing| - i
      {
        var h := closing[i];
        SiftAppend(s, seen, h, true);
        SiftAppend(s, seen, h, false);
        assert s.closing == (seen + [h]) + closing[i + 1..];
        ClosingIsClosing(s);
        if keys[h].freeTime <= now {
          closing := closing[..i] + closing[i + 1..];
          free := free + [h];
        } else {
          i := i + 1;
        }
        seen := seen + [h];
      }
      assert closing[..i] == closing && seen == s.closing;
    }

    /** `pj_ioqueue_register_sock2` with system calls that succeed. */
    method Register() returns (o: Outcome)
      requires Inv(Value()) && polling.Nobody?
      modifies this
      ensures o == RegisterOutcome(old(Value()))
      ensures Value() == Next(old(Value()), DoRegister) && Inv(Value())
    {
      hide Inv;
      hide Sift;
      ghost var s := Value();
      NextKeeps(s, DoRegister);
      if count >= |keys| {
        return TooMany;
      }
      ScanClosingKeys();
      if free == [] {
        return NoFreeKey;
      }
      var k := free[0];
      TakenIndex(Value());
      free := free[1..];
      keys := keys[k := Fresh(keys[k])];
      active := active + [k];
      count := count + 1;
      return Registered(k);
    }

    /** `decrement_counter` */
    method DecrementCounter(k: Key)
      requires k < |keys|
      modifies this`free, this`active, this`closing, this`keys
      ensures Value() == Decrement(old(Value()), k)
    {
      var v := keys[k];
      var n := if v.refCount > 0 then v.refCount - 1 else UNSIGNED_MAX;
      keys := keys[k := v.(refCount := n)];
      if n == 0 {
        keys := keys[k := v.(refCount := 0, freeTime := now + FREE_DELAY)];
        free, active, closing := Without(free, k), Without(active, k), Without(closing, k);
        closing := closing + [k];
      }
    }

    /** `pj_ioqueue_unregister` up to its test: the key's lock is taken, and kept unless the key is closing. */
    method CheckClosing(k: Key) returns (was: bool)
      requires Inv(Value()) && Enabled(Value(), Check(k))
      modifies this
      ensures Value() == Next(old(Value()), Check(k)) && Inv(Value()) && |keys| == |old(keys)|
      ensures was == old(keys[k].closing) && (!was ==> keys[k].phase.Checked?)
    {
      hide Inv;
      NextKeeps(Value(), Check(k));
      was := keys[k].closing;
      if !was {
        keys := keys[k := keys[k].(phase := Checked)];
      }
    }

    /** The section under the queue lock: the key leaves the count and the epoll set. */
    method LeaveCount(k: Key)
      requires Inv(Value()) && Enabled(Value(), CountOff(k))
      modifies this
      ensures Value() == Next(old(Value()), CountOff(k)) && Inv(Value()) && |keys| == |old(keys)|
      ensures keys[k].phase.Counted?
    {
      hide Inv;
      NextKeeps(Value(), CountOff(k));
      if count > 0 {
        count := count - 1;
      }
      keys := keys[k := keys[k].(phase := Counted)];
    }

    /** The flag is set with the queue lock already given up. */
    method MarkClosing(k: Key)
      requires Inv(Value()) && Enabled(Value(), SetClosing(k))
      modifies this
      ensures Value() == Next(old(Value()), SetClosing(k)) && Inv(Value()) && |keys| == |old(keys)|
      ensures keys[k].phase.Closing?
    {
      hide Inv;
      NextKeeps(Value(), SetClosing(k));
      keys := keys[k := keys[k].(closing := true, phase := Closing)];
    }

    /** The reference of the registration, again under the queue lock. */
    method DropReference(k: Key)
      requires Inv(Value()) && Enabled(Value(), DropOwn(k))
      modifies this
      ensures Value() == Next(old(Value()), DropOwn(k)) && Inv(Value()) && |keys| == |old(keys)|
      ensures keys[k].phase.Released?
    {
      hide Inv;
      NextKeeps(Value(), DropOwn(k));
      hide Decrement;
      OtherFields(Value(), k);
      DecrementCounter(k);
      keys := keys[k := keys[k].(held := false, phase := Released)];
    }

    /** The end of `pj_ioqueue_unregister`. */
    method UnlockKey(k: Key)
      requires Inv(Value()) && Enabled(Value(), Unlock(k))
      modifies this
      ensures Value() == Next(old(Value()), Unlock(k)) && Inv(Value()) && |keys| == |old(keys)|
    {
      hide Inv;
      NextKeeps(Value(), Unlock(k));
      keys := keys[k := keys[k].(phase := Idle)];
    }

    /**
      `pj_ioqueue_unregister`, run to its end by one thread: a key that is closing stays as it is; any
      other leaves the count, and gives up the reference of its registration.
     */
    method Unregister(k: Key)
      requires Inv(Value()) && Enabled(Value(), Check(k)) && polling.Nobody?
      modifies this
      ensures var steps := if old(keys[k].closing) then [Check(k)]
                           else [Check(k), CountOff(k), SetClosing(k), DropOwn(k), Unlock(k)];
              CanRun(old(Value()), steps) && Value() == Run(old(Value()), steps)
      ensures Inv(Value())
    {
      hide Inv;
      hide Run;
      hide CanRun;
      ghost var s := Value();
      assert [Check(k)] + [] == [Check(k)] && [Unlock(k)] + [] == [Unlock(k)];
      assert [DropOwn(k)] + [Unlock(k)] == [DropOwn(k), Unlock(k)];
      assert [SetClosing(k)] + [DropOwn(k), Unlock(k)] == [SetClosing(k), DropOwn(k), Unlock(k)];
      assert [CountOff(k)] + [SetClosing(k), DropOwn(k), Unlock(k)]
          == [CountOff(k), SetClosing(k), DropOwn(k), Unlock(k)];
      assert [Check(k)] + [CountOff(k), SetClosing(k), DropOwn(k), Unlock(k)]
          == [Check(k), CountOff(k), SetClosing(k), DropOwn(k), Unlock(k)];
      var was := CheckClosing(k);
      ghost var s1 := Value();
      if was {
        RunNone(s1);
        RunOne(s, Check(k), []);
        return;
      }
      LeaveCount(k);
      ghost var s2 := Value();
      MarkClosing(k);
      ghost var s3 := Value();
      assert Enabled(s3, DropOwn(k));
      DropReference(k);
      ghost var s4 := Value();
      UnlockKey(k);
      hide Next;
      hide Enabled;
      RunNone(Value());
      RunOne(s4, Unlock(k), []);
      RunOne(s3, DropOwn(k), [Unlock(k)]);
      RunOne(s2, SetClosing(k), [DropOwn(k), Unlock(k)]);
      RunOne(s1, CountOff(k), [SetClosing(k), DropOwn(k), Unlock(k)]);
      RunOne(s, Check(k), [CountOff(k), SetClosing(k), DropOwn(k), Unlock(k)]);
    }

    /** The collecting loop of `pj_ioqueue_poll`: the keys to dispatch, each with one reference more. */
    method Collect(events: seq<Ready>) returns (queue: seq<Key>)
      requires Inv(Value()) && polling.Looking?
      requires forall e :: e in events ==> e.key < |keys| && keys[e.key].used
      modifies this`keys, this`collected
      ensures CanRun(old(Value()), CollectSteps(old(keys), events))
      ensures Value() == Run(old(Value()), CollectSteps(old(keys), events)) && Inv(Value())
      ensures forall k :: k in queue ==> k in active && k < |keys| && keys[k].refCount > 0
    {
      hide Inv;
      hide Run;
      hide CanRun;
      hide Next;
      ghost var s := Value();
      RunNone(s);
      queue := [];
      var i := 0;
      while i < |events|
        invariant i <= |events| && Inv(Value()) && polling.Looking? && |keys| == |s.keys|
        invariant forall k :: 0 <= k < |keys| ==> keys[k].used == s.keys[k].used && keys[k].closing == s.keys[k].closing
        invariant CanRun(s, CollectSteps(s.keys, events[..i])) && Value() == Run(s, CollectSteps(s.keys, events[..i]))
        invariant forall k :: k in queue ==> k < |keys|
        invariant forall k :: k in queue ==> keys[k].refCount > 0
      {
        ghost var t := Value();
        ghost var steps := CollectSteps(s.keys, events[..i]);
        assert events[..i + 1][..i] == events[..i];
        var e := events[i];
        if e.wanted && !keys[e.key].closing {
          var v := keys[e.key];
          LookAndTake(t, e.key);
          RunAppend(s, steps, [Look(e.key), Take]);
          RunsKeepInv(t, [Look(e.key), Take]);
          keys := keys[e.key := v.(refCount := v.refCount + 1)];
          collected := collected + multiset{Entry(e.key, v.generation)};
          queue := queue + [e.key];
        } else {
          assert steps + [] == steps;
        }
        i := i + 1;
      }
      assert events[..i] == events;
      forall k | k in queue
        ensures k in active
      {
        InvKey(Value(), k);
      }
    }
  }

  lemma TakenIndex(s: State)
    requires Inv(s) && s.free != []
    ensures s.free[0] < |s.keys|
  {
    FirstFree(s);
  }

  lemma OtherFields(s: State, k: Key)
    requires k < |s.keys|
    ensures var t := Decrement(s, k);
            t.count == s.count && t.polling == s.polling && t.collected == s.collected && t.now == s.now
            && |t.keys| == |s.keys|
            && t.keys[k].phase == s.keys[k].phase && t.keys[k].closing == s.keys[k].closing
  {
  }
}
