/** The dispatcher as it is written, over the list of discovered drivers and the queue of those
    scheduled, with a record of what it has loaded and started. */
module DispatcherServices {
  import opened Sequences
  import opened Wrappers
  import opened Scheduling
  import opened Dispatcher
  import opened Searches
  import Depex

  datatype Status = Success | NotReady | NotFound | AlreadyStarted

  // ---------- the record ----------

  /** An image was loaded, or could not be; an entry point was called, and registered the MM entry
      point or did not. */
  datatype Event = Loaded(driver: nat, ok: bool) | Started(driver: nat, registers: bool)

  predicate WasLoaded(events: seq<Event>, j: nat) {
    Loaded(j, true) in events || Loaded(j, false) in events
  }

  predicate WasStarted(events: seq<Event>, j: nat) {
    Started(j, true) in events || Started(j, false) in events
  }

  ghost predicate LoadedOnce(events: seq<Event>) {
    forall a, b :: 0 <= a < b < |events| ==>
      !(events[a].Loaded? && events[b].Loaded? && events[a].driver == events[b].driver)
  }

  /** The drivers done are those loaded, each once; those started are those whose load succeeded. */
  ghost predicate Recorded(ds: seq<DriverEntry>, events: seq<Event>, started: seq<nat>) {
    && LoadedOnce(events)
    && (forall j: nat :: WasLoaded(events, j) <==> j < |ds| && ds[j].initialized)
    && (forall j: nat :: j in started <==> Loaded(j, true) in events)
    && (forall j: nat :: j in started <==> WasStarted(events, j))
  }

  /** What becomes of one driver: its image is loaded, and started if that worked. */
  function Round(i: nat, ok: bool, registers: bool): seq<Event> {
    [Loaded(i, ok)] + if ok then [Started(i, registers)] else []
  }

  /** What becomes of the first drivers of a queue. */
  function Work(q: seq<nat>, oks: seq<bool>, regs: seq<bool>): seq<Event>
    requires |regs| == |oks| <= |q|
  {
    if oks == [] then []
    else
      var n := |oks| - 1;
      Work(q, oks[..n], regs[..n]) + Round(q[n], oks[n], regs[n])
  }

  /** Those of them that are started. */
  function Begun(q: seq<nat>, oks: seq<bool>): seq<nat>
    requires |oks| <= |q|
  {
    if oks == [] then []
    else
      var n := |oks| - 1;
      Begun(q, oks[..n]) + if oks[n] then [q[n]] else []
  }

  /** The list after the drivers of s have gone from Scheduled to Initialized. */
  function Done(ds: seq<DriverEntry>, s: seq<nat>): (es: seq<DriverEntry>)
    ensures |es| == |ds|
    ensures forall j :: 0 <= j < |ds| ==>
      es[j] == if j in s then ds[j].(scheduled := false, initialized := true) else ds[j]
  {
    seq(|ds|, j requires 0 <= j < |ds| => if j in s then ds[j].(scheduled := false, initialized := true) else ds[j])
  }

  lemma {:induction false} WorkStep(q: seq<nat>, oks: seq<bool>, regs: seq<bool>, ok: bool, reg: bool)
    requires |regs| == |oks| < |q|
    ensures Work(q, oks + [ok], regs + [reg]) == Work(q, oks, regs) + Round(q[|oks|], ok, reg)
    ensures Begun(q, oks + [ok]) == Begun(q, oks) + if ok then [q[|oks|]] else []
  {
    assert (oks + [ok])[..|oks|] == oks && (regs + [reg])[..|oks|] == regs;
  }

  lemma {:induction false} DoneStep(ds: seq<DriverEntry>, q: seq<nat>, n: nat)
    requires n < |q| && q[n] < |ds|
    ensures var es := Done(ds, q[..n]);
      Done(ds, q[..n + 1]) == es[q[n] := es[q[n]].(scheduled := false, initialized := true)]
  {
    assert q[..n + 1] == q[..n] + [q[n]];
  }

  lemma {:induction false} DoneNone(ds: seq<DriverEntry>)
    ensures Done(ds, []) == ds
  {
  }

  /** The last driver worked on is started, and registers the MM entry point. */
  predicate Registers(oks: seq<bool>, regs: seq<bool>)
    requires |regs| == |oks|
  {
    oks != [] && oks[|oks| - 1] && regs[|regs| - 1]
  }

  /** No entry point called registers the MM entry point. */
  predicate NoneRegisters(events: seq<Event>) {
    forall k :: 0 <= k < |events| ==> !(events[k].Started? && events[k].registers)
  }

  /** The entry point that ends the work is the last to be called. */
  lemma {:induction false} WorkRegisters(q: seq<nat>, oks: seq<bool>, regs: seq<bool>)
    requires |regs| == |oks| <= |q| && forall i :: 0 <= i < |oks| - 1 ==> !(oks[i] && regs[i])
    ensures var w := Work(q, oks, regs);
      if Registers(oks, regs) then
        w != [] && NoneRegisters(w[..|w| - 1]) && w[|w| - 1] == Started(q[|oks| - 1], true)
      else NoneRegisters(w)
  {
    if oks != [] {
      var n := |oks| - 1;
      var before, regs' := oks[..n], regs[..n];
      WorkRegisters(q, before, regs');
      var w, r := Work(q, before, regs'), Round(q[n], oks[n], regs[n]);
      assert Work(q, oks, regs) == w + r && !Registers(before, regs');
      assert NoneRegisters(w);
    }
  }

  lemma {:induction false} NothingRegisters(events: seq<Event>)
    ensures NoneRegisters(events[|events|..])
  {
  }

  lemma {:induction false} RegistersMore(before: seq<Event>, events: seq<Event>, w: seq<Event>)
    requires before <= events && NoneRegisters(events[|before|..])
    ensures before <= events + w
    ensures NoneRegisters(w) ==> NoneRegisters((events + w)[|before|..])
    ensures w != [] && NoneRegisters(w[..|w| - 1]) ==> NoneRegisters((events + w)[|before|..|events + w| - 1])
  {
    var more := events[|before|..];
    assert (events + w)[|before|..] == more + w;
    if w != [] {
      assert (events + w)[|before|..|events + w| - 1] == more + w[..|w| - 1];
    }
  }

  lemma {:induction false} RoundKeeps(ds: seq<DriverEntry>, queue: seq<nat>, started: seq<nat>, events: seq<Event>,
                                      ok: bool, reg: bool)
    requires Consistent(ds, queue, started) && Recorded(ds, events, started) && queue != []
    ensures queue[0] < |ds|
    ensures var i := queue[0]; var st := if ok then started + [i] else started;
      var es := ds[i := ds[i].(scheduled := false, initialized := true)];
      && Consistent(es, queue[1..], st) && Recorded(es, events + Round(i, ok, reg), st)
      && SameDrivers(ds, es) && Waiting(es) == Waiting(ds)
      && forall j :: 0 <= j < |ds| ==> es[j].dependent == ds[j].dependent
  {
    DequeueKeeps(ds, queue, started, ok);
    var i := queue[0];
    QueuedNotWaiting(ds, queue, started, i);
    QueuedNotDone(ds, queue, started, i);
    hide Consistent;
    RoundRecorded(ds, started, events, i, ok, reg);
  }

  lemma {:induction false} QueueHead(ds: seq<DriverEntry>, queue: seq<nat>, started: seq<nat>)
    requires Consistent(ds, queue, started) && queue != []
    ensures queue[0] < |ds|
  {
    assert queue[0] in queue;
  }

  lemma {:induction false} QueuedNotDone(ds: seq<DriverEntry>, queue: seq<nat>, started: seq<nat>, i: nat)
    requires Consistent(ds, queue, started) && i in queue
    ensures i < |ds| && !ds[i].initialized
  {
    assert OneState(ds[i]);
  }

  lemma {:induction false} RoundRecorded(ds: seq<DriverEntry>, started: seq<nat>, events: seq<Event>, i: nat, ok: bool,
                                         reg: bool)
    requires Recorded(ds, events, started) && i < |ds| && !ds[i].initialized
    ensures var st := if ok then started + [i] else started;
      var es := ds[i := ds[i].(scheduled := false, initialized := true)];
      Recorded(es, events + Round(i, ok, reg), st)
  {
    var all, st := events + Round(i, ok, reg), if ok then started + [i] else started;
    assert !WasLoaded(events, i);
    forall e ensures e in all <==> e in events || e == Loaded(i, ok) || (ok && e == Started(i, reg)) {
    }
    forall j: nat ensures j in st <==> j in started || (ok && j == i) {
    }
    forall j: nat ensures WasLoaded(all, j) <==> WasLoaded(events, j) || j == i {
    }
    forall j: nat ensures WasStarted(all, j) <==> WasStarted(events, j) || (ok && j == i) {
    }
    LoadedOnceMore(events, i, ok, reg);
    hide LoadedOnce, Round;
  }

  lemma {:induction false} LoadedOnceMore(events: seq<Event>, i: nat, ok: bool, reg: bool)
    requires LoadedOnce(events) && !WasLoaded(events, i)
    ensures LoadedOnce(events + Round(i, ok, reg))
  {
    forall a | 0 <= a < |events| ensures !(events[a].Loaded? && events[a].driver == i) {
      assert events[a] in events;
    }
  }

  class DriverDispatcher {
    var mDiscoveredList: seq<DriverEntry>
    /** The queue holds places in mDiscoveredList. */
    var mScheduledQueue: seq<nat>
    var gDispatcherRunning: bool
    var gRequestDispatch: bool
    var mMmEntryPointRegistered: bool
    /** The GUIDs with at least one installed interface. */
    var installed: set<Guid>
    /** PcdRestartMmDispatcherOnceMmEntryRegistered. */
    const restart: bool
    const evaluator: Depex.Evaluator
    /** The drivers whose entry points have been called, in order; all loads and starts; and what
        was installed when each search for drivers was made. */
    ghost var started: seq<nat>
    ghost var events: seq<Event>
    ghost var searched: seq<set<Guid>>

    ghost function Cap(): nat
      reads this, evaluator
    {
      Depex.Capacity(evaluator.stack.Length, evaluator.limit)
    }

    ghost predicate Valid()
      reads this, evaluator
    {
      && evaluator.Valid()
      && Consistent(mDiscoveredList, mScheduledQueue, started)
      && Recorded(mDiscoveredList, events, started)
      && AllWarranted(mDiscoveredList, searched, Cap())
    }

    constructor (restart: bool, limit: nat)
      ensures Valid() && mDiscoveredList == [] && events == [] && this.restart == restart
      ensures !gDispatcherRunning && !gRequestDispatch && fresh(evaluator) && fresh(evaluator.stack)
    {
      mDiscoveredList, mScheduledQueue := [], [];
      gDispatcherRunning, gRequestDispatch, mMmEntryPointRegistered := false, false, false;
      installed := {};
      this.restart := restart;
      started, events, searched := [], [], [];
      evaluator := new Depex.Evaluator(limit);
    }

    /** The new driver waits behind the others. Nobody looks whether its name is new; if it is, all
        stays in order. */
    method MmAddToDriverList(name: Guid, depex: Option<Image>)
      requires Valid() && Readable(depex)
      modifies this`mDiscoveredList, this`gRequestDispatch
      ensures gRequestDispatch
      ensures mDiscoveredList ==
        old(mDiscoveredList) + [DriverEntry(MmPreProcessDepex(name, depex), true, false, false)]
      ensures (forall j :: 0 <= j < |old(mDiscoveredList)| ==> old(mDiscoveredList)[j].driver.name != name) ==> Valid()
    {
      if forall j :: 0 <= j < |mDiscoveredList| ==> mDiscoveredList[j].driver.name != name {
        AddKeeps(mDiscoveredList, mScheduledQueue, started, searched, Cap(), MmPreProcessDepex(name, depex));
        hide Consistent, AllWarranted, Preprocessed;
      }
      mDiscoveredList := mDiscoveredList + [DriverEntry(MmPreProcessDepex(name, depex), true, false, false)];
      gRequestDispatch := true;
    }

    /** Schedules a driver and, around it, the drivers that are to go before and after it, whether
        names repeat or not, as long as that ends; fuel bounds how deep it goes. */
    method MmInsertOnScheduledQueueWhileProcessingBeforeAndAfter(i: nat, ghost fuel: nat)
      requires i < |mDiscoveredList| && Insert(mDiscoveredList, i, fuel).Some?
      modifies this`mDiscoveredList, this`mScheduledQueue
      ensures old(Insert(mDiscoveredList, i, fuel)).Some?
      ensures mDiscoveredList == Mark(old(mDiscoveredList), Insert(old(mDiscoveredList), i, fuel).value)
      ensures mScheduledQueue == old(mScheduledQueue) + Insert(old(mDiscoveredList), i, fuel).value
      decreases fuel, 0
    {
      hide Loop, Mark;
      ghost var ds := mDiscoveredList;
      ghost var front := Loop(ds, true, i, 0, fuel - 1).value;
      ProcessDependents(i, true, fuel - 1);
      MarkOne(ds, front, i);
      mDiscoveredList := mDiscoveredList[i := mDiscoveredList[i].(dependent := false, scheduled := true)];
      mScheduledQueue := mScheduledQueue + [i];
      ghost var back := Loop(mDiscoveredList, false, i, 0, fuel - 1).value;
      ProcessDependents(i, false, fuel - 1);
      MarkTwice(ds, front + [i], back);
    }

    /** The loop over the Before drivers, or the After drivers, of driver i. */
    method ProcessDependents(i: nat, before: bool, ghost fuel: nat)
      requires i < |mDiscoveredList| && Loop(mDiscoveredList, before, i, 0, fuel).Some?
      modifies this`mDiscoveredList, this`mScheduledQueue
      ensures old(Loop(mDiscoveredList, before, i, 0, fuel)).Some?
      ensures mDiscoveredList == Mark(old(mDiscoveredList), Loop(old(mDiscoveredList), before, i, 0, fuel).value)
      ensures mScheduledQueue == old(mScheduledQueue) + Loop(old(mDiscoveredList), before, i, 0, fuel).value
      decreases fuel, 1
    {
      hide Insert, Mark;
      ghost var ds, queue, done := mDiscoveredList, mScheduledQueue, [];
      ghost var all := Loop(ds, before, i, 0, fuel).value;
      MarkNone(ds);
      var k := 0;
      while k < |mDiscoveredList|
        invariant k <= |mDiscoveredList| == |ds|
        invariant mDiscoveredList == Mark(ds, done) && mScheduledQueue == queue + done
        invariant Loop(mDiscoveredList, before, i, k, fuel).Some?
        invariant done + Loop(mDiscoveredList, before, i, k, fuel).value == all
      {
        var e := mDiscoveredList[k];
        if (if before then e.driver.before else e.driver.after) && e.dependent && k != i &&
           mDiscoveredList[i].driver.name == e.driver.target {
          ghost var q := Insert(mDiscoveredList, k, fuel).value;
          MmInsertOnScheduledQueueWhileProcessingBeforeAndAfter(k, fuel);
          MarkTwice(ds, done, q);
          done := done + q;
        }
        k := k + 1;
      }
    }

    /** MmIsSchedulable with the tests that come before the evaluation loop. */
    method IsSchedulable(i: nat) returns (ready: bool)
      requires Valid() && i < |mDiscoveredList|
      modifies evaluator, evaluator.stack
      ensures Valid() && Cap() == old(Cap()) && (evaluator.stack == old(evaluator.stack) || fresh(evaluator.stack))
      ensures ready == Ready(mDiscoveredList[i].driver, installed, Cap())
    {
      hide Consistent, AllWarranted;
      assert Readable(mDiscoveredList[i].driver.depex) && Preprocessed(mDiscoveredList[i].driver) by {
        ConsistentDriver(mDiscoveredList, mScheduledQueue, started, i);
      }
      var d := mDiscoveredList[i].driver;
      if d.before || d.after {
        return false;
      }
      if d.depex.None? {
        return false;
      }
      ready := evaluator.MmIsSchedulable(d.depex.value.mem, d.depex.value.size, installed);
    }

    /** Loading an image may fail, and may install interfaces. */
    method MmLoadImage(i: nat) returns (ok: bool)
      modifies this`installed, this`events
      ensures events == old(events) + [Loaded(i, ok)]
    {
      ok := *;
      installed := *;
      events := events + [Loaded(i, ok)];
    }

    /** A driver's entry point may do anything through the services, except find drivers. */
    method StartImage(i: nat)
      modifies this`installed, this`mMmEntryPointRegistered, this`started, this`events
      ensures started == old(started) + [i]
      ensures events == old(events) + [Started(i, !old(mMmEntryPointRegistered) && mMmEntryPointRegistered)]
    {
      installed := *;
      mMmEntryPointRegistered := *;
      started := started + [i];
      events := events + [Started(i, !old(mMmEntryPointRegistered) && mMmEntryPointRegistered)];
    }

    /** The first half of a round: load and start everything queued, in order. Stops early when a
        driver registered the entry point and the dispatcher is to be called again for that. oks and
        regs tell which loads succeed and which entry points register. */
    method DrainQueue() returns (restarted: bool, ghost oks: seq<bool>, ghost regs: seq<bool>)
      requires Valid()
      modifies this`mDiscoveredList, this`mScheduledQueue, this`installed, this`mMmEntryPointRegistered, this`started,
        this`events
      ensures Valid() && |regs| == |oks| <= |old(mScheduledQueue)|
      ensures events == old(events) + Work(old(mScheduledQueue), oks, regs)
      ensures started == old(started) + Begun(old(mScheduledQueue), oks)
      ensures mScheduledQueue == old(mScheduledQueue)[|oks|..]
      ensures mDiscoveredList == Done(old(mDiscoveredList), old(mScheduledQueue)[..|oks|])
      ensures Waiting(mDiscoveredList) == old(Waiting(mDiscoveredList))
      ensures SameDrivers(old(mDiscoveredList), mDiscoveredList)
      ensures restart ==> forall i :: 0 <= i < |oks| - 1 ==> !(oks[i] && regs[i])
      ensures restarted <==> restart && Registers(oks, regs)
      ensures restarted ==> mMmEntryPointRegistered
      ensures !restarted ==> mScheduledQueue == []
    {
      hide Consistent, AllWarranted, Recorded, Work, Begun, Done, Waiting, SameDrivers, Round;
      ghost var ds0, q := mDiscoveredList, mScheduledQueue;
      oks, regs := [], [];
      Begin(ds0, q);
      while mScheduledQueue != []
        invariant Valid() && |regs| == |oks| <= |q| && mScheduledQueue == q[|oks|..]
        invariant events == old(events) + Work(q, oks, regs) && started == old(started) + Begun(q, oks)
        invariant mDiscoveredList == Done(ds0, q[..|oks|])
        invariant Waiting(mDiscoveredList) == Waiting(ds0) && SameDrivers(ds0, mDiscoveredList)
        invariant restart ==> forall i :: 0 <= i < |oks| ==> !(oks[i] && regs[i])
        decreases |mScheduledQueue|
      {
        ghost var ds := mDiscoveredList;
        var ok, registers := DispatchFirst();
        DrainStep(ds0, q, oks, regs, ok, registers, old(events), old(started));
        SameDriversTwice(ds0, ds, mDiscoveredList);
        oks, regs := oks + [ok], regs + [registers];
        if !ok {
          continue;
        }
        if registers {
          if restart {
            return true, oks, regs;
          }
        }
      }
      return false, oks, regs;
    }

    /** Loads the driver at the head of the queue and, if that works, starts it; tells whether its
        entry point registered the MM entry point. */
    method DispatchFirst() returns (ok: bool, registers: bool)
      requires Valid() && mScheduledQueue != []
      modifies this`mDiscoveredList, this`mScheduledQueue, this`installed, this`mMmEntryPointRegistered, this`started,
        this`events
      ensures Valid() && mScheduledQueue == old(mScheduledQueue)[1..]
      ensures var i := old(mScheduledQueue)[0];
        && i < |old(mDiscoveredList)|
        && mDiscoveredList ==
             old(mDiscoveredList)[i := old(mDiscoveredList)[i].(scheduled := false, initialized := true)]
        && events == old(events) + Round(i, ok, registers)
        && started == old(started) + if ok then [i] else []
      ensures Waiting(mDiscoveredList) == old(Waiting(mDiscoveredList))
      ensures SameDrivers(old(mDiscoveredList), mDiscoveredList)
      ensures ok && registers ==> mMmEntryPointRegistered
    {
      hide Consistent, AllWarranted, Recorded, Waiting, SameDrivers, Round;
      ghost var ds, queue, st, ev := mDiscoveredList, mScheduledQueue, started, events;
      var i := mScheduledQueue[0];
      ok := MmLoadImage(i);
      var previous := mMmEntryPointRegistered;
      registers := false;
      QueueHead(ds, queue, st);
      Finish();
      if ok {
        StartImage(i);
        registers := !previous && mMmEntryPointRegistered;
      }
      RoundKeeps(ds, queue, st, ev, ok, registers);
      RoundIs(ev, i, registers);
      FlagsWarranted(ds, mDiscoveredList, searched, Cap());
    }

    /** The driver at the head of the queue is done. */
    method Finish()
      requires mScheduledQueue != [] && mScheduledQueue[0] < |mDiscoveredList|
      modifies this`mDiscoveredList, this`mScheduledQueue
      ensures mScheduledQueue == old(mScheduledQueue)[1..]
      ensures var i := old(mScheduledQueue)[0];
        mDiscoveredList == old(mDiscoveredList)[i := old(mDiscoveredList)[i].(scheduled := false, initialized := true)]
    {
      var i := mScheduledQueue[0];
      mDiscoveredList := mDiscoveredList[i := mDiscoveredList[i].(scheduled := false, initialized := true)];
      mScheduledQueue := mScheduledQueue[1..];
    }

    /** The second half of a round: schedule every driver that is ready, with those that come with
        it. */
    method SearchDrivers() returns (readyToRun: bool)
      requires Valid()
      modifies this`mDiscoveredList, this`mScheduledQueue, this`searched, evaluator, evaluator.stack
      ensures Valid() && Cap() == old(Cap()) && (evaluator.stack == old(evaluator.stack) || fresh(evaluator.stack))
      ensures SameDrivers(old(mDiscoveredList), mDiscoveredList) && Distinct(old(mDiscoveredList))
      ensures var b := Batch(old(mDiscoveredList), installed, Cap(), |old(mDiscoveredList)|);
        && mDiscoveredList == Mark(old(mDiscoveredList), b) && mScheduledQueue == old(mScheduledQueue) + b
        && (readyToRun <==> b != [])
      ensures readyToRun ==> Waiting(mDiscoveredList) < old(Waiting(mDiscoveredList))
      ensures !readyToRun ==> mDiscoveredList == old(mDiscoveredList) && AtFixpoint(mDiscoveredList, installed, Cap())
    {
      hide Consistent, AllWarranted, Recorded, Order, Ready, Batch, Part, Mark, Waiting, SameDrivers, IsChain, Distinct;
      ghost var ds, queue, db := mDiscoveredList, mScheduledQueue, installed;
      SearchWarranted(mDiscoveredList, searched, Cap(), installed);
      ConsistentDistinct(mDiscoveredList, mScheduledQueue, started);
      BatchNone(ds, db, Cap());
      searched := searched + [installed];
      readyToRun := false;
      var k := 0;
      while k < |mDiscoveredList|
        invariant k <= |mDiscoveredList| == |ds|
        invariant Valid() && Cap() == old(Cap()) && (evaluator.stack == old(evaluator.stack) || fresh(evaluator.stack))
        invariant searched == old(searched) + [installed] && SameDrivers(ds, mDiscoveredList)
        invariant mDiscoveredList == Mark(ds, Batch(ds, db, Cap(), k))
        invariant mScheduledQueue == queue + Batch(ds, db, Cap(), k)
        invariant readyToRun <==> Batch(ds, db, Cap(), k) != []
        invariant readyToRun ==> Waiting(mDiscoveredList) < Waiting(ds)
        invariant !readyToRun ==> mDiscoveredList == ds
      {
        BatchStep(ds, db, Cap(), k);
        ghost var es := mDiscoveredList;
        if mDiscoveredList[k].dependent {
          var ready := IsSchedulable(k);
          if ready {
            ScheduleRoot(k);
            SameDriversTwice(ds, es, mDiscoveredList);
            readyToRun := true;
          }
        }
        NothingMore(es, queue + Batch(ds, db, Cap(), k));
        k := k + 1;
      }
      if !readyToRun {
        BatchEmpty(ds, db, Cap());
      }
    }

    /** Schedules a driver just found ready. */
    method ScheduleRoot(i: nat)
      requires Valid() && i < |mDiscoveredList| && mDiscoveredList[i].dependent
      requires Ready(mDiscoveredList[i].driver, installed, Cap())
      requires searched != [] && searched[|searched| - 1] == installed
      modifies this`mDiscoveredList, this`mScheduledQueue
      ensures Valid() && SameDrivers(old(mDiscoveredList), mDiscoveredList)
      ensures Distinct(old(mDiscoveredList)) && IsChain(old(mDiscoveredList), [i])
      ensures mDiscoveredList == Mark(old(mDiscoveredList), Order(old(mDiscoveredList), [i]))
      ensures mScheduledQueue == old(mScheduledQueue) + Order(old(mDiscoveredList), [i])
      ensures Waiting(mDiscoveredList) < old(Waiting(mDiscoveredList))
    {
      hide Consistent, AllWarranted, Recorded, Order, SameDrivers, Waiting, IsChain, Distinct, Exclusive, Mark, Insert;
      ScheduleRootKeeps(mDiscoveredList, mScheduledQueue, started, searched, Cap(), i);
      LastOfOne(i);
      InsertIsOrder(mDiscoveredList, [i], |mDiscoveredList|);
      MarkRecorded(mDiscoveredList, events, started, Order(mDiscoveredList, [i]));
      MmInsertOnScheduledQueueWhileProcessingBeforeAndAfter(i, |mDiscoveredList|);
    }

    /** Whether some driver is not done. */
    method AnyPending() returns (pending: bool)
      ensures pending <==> exists j :: 0 <= j < |mDiscoveredList| && !mDiscoveredList[j].initialized
    {
      pending := false;
      var k := 0;
      while k < |mDiscoveredList|
        invariant k <= |mDiscoveredList| && !pending
        invariant forall j :: 0 <= j < k ==> mDiscoveredList[j].initialized
      {
        if !mDiscoveredList[k].initialized {
          pending := true;
          break;
        }
        k := k + 1;
      }
    }

    /** One run of the dispatcher. It ends; no driver is ever started twice, over all runs; when
        it reports success no waiting driver can be scheduled with what is then installed, and
        another dispatch is requested exactly when some driver is not done. */
    method MmDispatcher() returns (status: Status)
      requires Valid()
      modifies this, evaluator, evaluator.stack
      ensures Valid() && Cap() == old(Cap()) && (evaluator.stack == old(evaluator.stack) || fresh(evaluator.stack))
      ensures SameDrivers(old(mDiscoveredList), mDiscoveredList) && old(events) <= events && old(started) <= started
      ensures status == NotFound <==> !old(gRequestDispatch)
      ensures status == AlreadyStarted <==> old(gRequestDispatch && gDispatcherRunning)
      ensures status == NotFound || status == AlreadyStarted ==>
        && mDiscoveredList == old(mDiscoveredList) && mScheduledQueue == old(mScheduledQueue)
        && events == old(events) && started == old(started) && gRequestDispatch == old(gRequestDispatch)
        && gDispatcherRunning == old(gDispatcherRunning) && installed == old(installed)
      ensures status == NotReady ==>
        && restart && mMmEntryPointRegistered && gRequestDispatch && !gDispatcherRunning
        && |old(events)| < |events| && events[|events| - 1].Started? && events[|events| - 1].registers
      ensures restart ==>
        NoneRegisters(if status == NotReady then events[|old(events)|..|events| - 1] else events[|old(events)|..])
      ensures status == Success ==>
        && !gDispatcherRunning && mScheduledQueue == [] && AtFixpoint(mDiscoveredList, installed, Cap())
        && (forall j :: 0 <= j < |mDiscoveredList| ==> mDiscoveredList[j].dependent != mDiscoveredList[j].initialized)
        && (gRequestDispatch <==> exists j :: 0 <= j < |mDiscoveredList| && mDiscoveredList[j].dependent)
    {
      hide Consistent, AllWarranted, Recorded, Ready, Batch, Work, Begun, Done, Mark, Distinct, Waiting, SameDrivers,
        NoneRegisters, Registers;
      SameDriversRefl(mDiscoveredList);
      NothingRegisters(events);
      if !gRequestDispatch {
        return NotFound;
      }
      if gDispatcherRunning {
        return AlreadyStarted;
      }
      gDispatcherRunning := true;
      var readyToRun := true;
      while readyToRun
        invariant Valid() && Cap() == old(Cap()) && (evaluator.stack == old(evaluator.stack) || fresh(evaluator.stack))
        invariant SameDrivers(old(mDiscoveredList), mDiscoveredList)
        invariant old(events) <= events && old(started) <= started
        invariant restart ==> NoneRegisters(events[|old(events)|..])
        invariant !readyToRun ==> mScheduledQueue == [] && AtFixpoint(mDiscoveredList, installed, Cap())
        decreases Waiting(mDiscoveredList), readyToRun
      {
        ghost var ds, q, ev := mDiscoveredList, mScheduledQueue, events;
        ghost var oks, regs;
        var restarted;
        restarted, oks, regs := DrainQueue();
        SameDriversTwice(old(mDiscoveredList), ds, mDiscoveredList);
        if restart {
          WorkRegisters(q, oks, regs);
          RegistersMore(old(events), ev, Work(q, oks, regs));
        }
        if restarted {
          gRequestDispatch := true;
          gDispatcherRunning := false;
          return NotReady;
        }
        ds := mDiscoveredList;
        readyToRun := SearchDrivers();
        SameDriversTwice(old(mDiscoveredList), ds, mDiscoveredList);
      }
      NoneQueued(mDiscoveredList, started);
      gRequestDispatch := AnyPending();
      gDispatcherRunning := false;
      return Success;
    }
  }

  lemma {:induction false} Begin(ds: seq<DriverEntry>, q: seq<nat>)
    ensures Done(ds, q[..0]) == ds && Work(q, [], []) == [] && Begun(q, []) == [] && q[0..] == q
    ensures SameDrivers(ds, ds)
  {
  }

  lemma {:induction false} RoundIs(events: seq<Event>, i: nat, reg: bool)
    ensures events + Round(i, true, reg) == events + [Loaded(i, true)] + [Started(i, reg)]
    ensures events + Round(i, false, reg) == events + [Loaded(i, false)]
  {
  }

  lemma {:induction false} DrainStep(ds0: seq<DriverEntry>, q: seq<nat>, oks: seq<bool>, regs: seq<bool>, ok: bool,
                                     reg: bool, events: seq<Event>, started: seq<nat>)
    requires |regs| == |oks| < |q| && q[|oks|] < |ds0|
    ensures var i := q[|oks|]; var es := Done(ds0, q[..|oks|]);
      Done(ds0, q[..|oks| + 1]) == es[i := es[i].(scheduled := false, initialized := true)]
    ensures events + Work(q, oks, regs) + Round(q[|oks|], ok, reg) == events + Work(q, oks + [ok], regs + [reg])
    ensures started + Begun(q, oks) + (if ok then [q[|oks|]] else []) == started + Begun(q, oks + [ok])
    ensures q[|oks|..][0] == q[|oks|] && q[|oks|..][1..] == q[|oks| + 1..]
  {
    hide Work, Begun, Done, Round;
    DoneStep(ds0, q, |oks|);
    WorkStep(q, oks, regs, ok, reg);
  }

  lemma {:induction false} SameDriversTwice(ds: seq<DriverEntry>, es: seq<DriverEntry>, fs: seq<DriverEntry>)
    requires SameDrivers(ds, es) && SameDrivers(es, fs)
    ensures SameDrivers(ds, fs) && |ds| == |es| == |fs|
  {
  }

  lemma {:induction false} SameDriversRefl(ds: seq<DriverEntry>)
    ensures SameDrivers(ds, ds)
  {
  }

  lemma {:induction false} ConsistentDistinct(ds: seq<DriverEntry>, queue: seq<nat>, started: seq<nat>)
    requires Consistent(ds, queue, started)
    ensures Distinct(ds)
  {
  }

  lemma {:induction false} BatchNone(ds: seq<DriverEntry>, db: set<Guid>, cap: nat)
    requires Distinct(ds)
    ensures Batch(ds, db, cap, 0) == [] && Mark(ds, []) == ds && SameDrivers(ds, ds)
  {
  }

  lemma {:induction false} NothingMore(ds: seq<DriverEntry>, queue: seq<nat>)
    ensures Mark(ds, []) == ds && queue + [] == queue
  {
  }

  /** A search that schedules nothing finds nothing ready. */
  lemma {:induction false} BatchEmpty(ds: seq<DriverEntry>, db: set<Guid>, cap: nat)
    requires Distinct(ds) && Batch(ds, db, cap, |ds|) == []
    ensures AtFixpoint(ds, db, cap)
  {
    hide Batch;
    forall j: nat | j < |ds| && ds[j].dependent ensures !Ready(ds[j].driver, db, cap) {
      if Ready(ds[j].driver, db, cap) {
        ReadyRoot(ds, db, cap, j);
        assert Due(ds, db, cap, [j], j) && [j][0] < |ds|;
        BatchIsExact(ds, db, cap, |ds|, j);
      }
    }
  }

  lemma {:induction false} MarkRecorded(ds: seq<DriverEntry>, events: seq<Event>, started: seq<nat>, s: seq<nat>)
    requires Recorded(ds, events, started)
    ensures Recorded(Mark(ds, s), events, started)
  {
    hide LoadedOnce, WasLoaded, WasStarted;
  }

  lemma {:induction false} NoneQueued(ds: seq<DriverEntry>, started: seq<nat>)
    requires Consistent(ds, [], started)
    ensures forall j :: 0 <= j < |ds| ==> ds[j].dependent != ds[j].initialized
  {
    forall j | 0 <= j < |ds| ensures ds[j].dependent != ds[j].initialized {
      assert OneState(ds[j]);
    }
  }
}
