/** The thread library's own procedures, over its globals. Each call is one step of the state machine,
    so whatever the client threads do is a run of it. */
module ThreadLibrary {
  import opened LinkedQueue
  import opened ThreadState
  import opened ThreadInvariant
  import opened ThreadRuns
  import opened ThreadLaws

  lemma SamePriorities(threads: map<Tid, Thread>, t: Tid, th: Thread)
    requires t in threads && th.priority == threads[t].priority
    ensures Priorities(threads[t := th]) == Priorities(threads)
  {
  }

  class Library {
    var status: Status
    var running: Tid
    const run: Queue
    var threads: map<Tid, Thread>
    var mutexes: map<Mid, Mutex>
    var nextId: Tid
    var nextMutex: Mid
    var nSchedulings: nat

    /** What is in the run queue. */
    ghost var queue: seq<Tid>
    /** The run so far. */
    ghost var born: nat
    ghost var states: seq<State>
    ghost var actions: seq<Action>

    ghost function Now(): State
      reads this
    {
      State(status, running, queue, threads, mutexes, nextId, nextMutex, nSchedulings)
    }

    /** The list refines the queue. The quantifier keeps this folded. */
    ghost predicate Linked()
      reads this`queue, run, run.spine
    {
      forall u :: IsLinked(u)
    }

    ghost predicate IsLinked(u: Unit)
      reads this`queue, run, run.spine
    {
      run.Valid() && queue == run.Contents()
    }

    ghost predicate Valid()
      reads this, run, run.spine
    {
      Linked() && RunFrom(born, states, actions) && states[|actions|] == Now()
    }

    /** The call that just returned took step `a`. */
    ghost method Record(a: Action, s: State)
      requires Linked() && RunFrom(born, states, actions) && states[|actions|] == s
      requires Enabled(s, a) && Now() == Next(s, a)
      modifies this`states, this`actions
      ensures Valid() && actions == old(actions) + [a] && states == old(states) + [Now()]
    {
      states, actions := states + [Now()], actions + [a];
      assert IsStep(s, a, Now());
      forall i | 0 <= i < |actions| ensures IsStep(states[i], actions[i], states[i + 1]) {
        assert i < |actions| - 1 ==> IsStep(old(states)[i], old(actions)[i], old(states)[i + 1]);
      }
    }

    /** The main thread exists and is running. */
    constructor (time: nat)
      ensures Valid() && actions == [] && born == time
    {
      status, running, mutexes, nextId, nextMutex, nSchedulings := Active, 1, map[], 2, 0, 0;
      threads := map[1 := Thread(User, {}, 0, time, false, [])];
      run := new Queue();
      queue := [];
      born, states, actions := time, [Start(time)], [];
    }

    method RunIsEmpty() returns (b: bool)
      requires Linked()
      ensures b == (queue == [])
    {
      assert IsLinked(Unit);
      b := run.Empty();
    }

    /** Take the front of the run queue. */
    method PopRun() returns (t: Tid)
      requires Linked() && queue != []
      modifies this`queue, run
      ensures Linked() && t == old(queue)[0] && queue == old(queue)[1..]
      ensures forall i :: 0 <= i < |run.spine| ==> run.spine[i] in old(run.spine)
    {
      assert IsLinked(Unit);
      t := run.Pop();
      queue := queue[1..];
    }

    /** Put a thread into the run queue by its priority. */
    method PushRun(t: Tid)
      requires Linked()
      modifies this`queue, run, run.spine
      ensures forall i :: 0 <= i < |run.spine| ==> run.spine[i] in old(run.spine) || fresh(run.spine[i])
      ensures Linked() && queue == Inserted(old(queue), Priorities(threads), t)
    {
      assert IsLinked(Unit);
      run.PushOrdered(0, t, Priorities(threads), BirthTimes(threads));
      queue := Inserted(queue, Priorities(threads), t);
    }

    /** Order the run queue by age. */
    method OrderRun()
      requires Linked()
      modifies this`queue, run
      ensures forall i :: 0 <= i < |run.spine| ==> fresh(run.spine[i])
      ensures Linked() && queue == Reordered(old(queue), BirthTimes(threads), [])
    {
      assert IsLinked(Unit);
      run.OrderByOldest(Priorities(threads), BirthTimes(threads));
      queue := Reordered(queue, BirthTimes(threads), []);
    }

    /** Hand the processor to the front of the run queue; without one, stop. */
    method GiveUp(otherwise: Status)
      requires Linked()
      modifies this`status, this`running, this`queue, run
      ensures Linked() && Now() == SwitchOr(old(Now()), otherwise)
    {
      var empty := RunIsEmpty();
      if !empty {
        running := PopRun();
      } else {
        status := otherwise;
      }
    }

    method MutexInit() returns (m: Mid)
      requires Valid() && Enabled(Now(), InitMutex)
      modifies this
      ensures Valid() && actions == old(actions) + [InitMutex] && m in mutexes && !mutexes[m].locked
    {
      ghost var s := Now();
      m := nextMutex;
      mutexes := mutexes[m := Mutex(false, [])];
      nextMutex := nextMutex + 1;
      Record(InitMutex, s);
    }

    method AddThread(time: nat) returns (t: Tid)
      requires Linked()
      modifies this`nextId, this`threads, this`queue, run, run.spine
      ensures Linked() && t == old(nextId) && Now() == CreateStep(old(Now()), time)
    {
      t := nextId;
      nextId := nextId + 1;
      threads := threads[t := Thread(User, {}, 0, time, false, [])];
      PushRun(t);
    }

    method CreateThread(time: nat) returns (t: Tid)
      requires Valid() && Enabled(Now(), Create(time))
      modifies this, run, run.spine
      ensures Valid() && actions == old(actions) + [Create(time)] && t !in old(threads) && t in threads && t in queue
      ensures threads[t].born == time && Pushed(old(queue), Priorities(threads), t, queue)
    {
      ghost var s := Now();
      assert s.nextId !in s.threads by {
        InvAlways(born, states, actions, |actions|);
        assert Obeys(s, NamesRule);
      }
      t := AddThread(time);
      InsertedMembers(s.run, Priorities(threads), t);
      Record(Create(time), s);
      RunQueueChanges(s, Create(time), Now());
    }

    /** Move the first thread that waits for the running one to the run queue. */
    method WakeJoiner()
      requires Linked() && running in threads && threads[running].joiners != []
      modifies this`threads, this`queue, run, run.spine
      ensures forall i :: 0 <= i < |run.spine| ==> run.spine[i] in old(run.spine) || fresh(run.spine[i])
      ensures threads == old(threads)[running := old(threads)[running].(joiners := old(threads)[running].joiners[1..])]
      ensures Priorities(threads) == Priorities(old(threads)) && Linked()
      ensures queue == Inserted(old(queue), Priorities(old(threads)), old(threads)[running].joiners[0])
    {
      var th := threads[running];
      SamePriorities(threads, running, th.(joiners := th.joiners[1..]));
      threads := threads[running := th.(joiners := th.joiners[1..])];
      PushRun(th.joiners[0]);
    }

    /** Wake everyone waiting for the running thread. */
    method DrainJoiners()
      requires Linked() && running in threads
      modifies this`threads, this`queue, run, run.spine
      ensures Linked() && threads == old(threads)[running := old(threads)[running].(joiners := [])]
      ensures queue == Reordered(old(threads)[running].joiners, Priorities(old(threads)), old(queue))
    {
      ghost var key, ths := Priorities(threads), threads;
      ghost var r := Reordered(threads[running].joiners, key, queue);
      while threads[running].joiners != []
        invariant forall i :: 0 <= i < |run.spine| ==> run.spine[i] in old(run.spine) || fresh(run.spine[i])
        invariant Linked() && running in threads && Priorities(threads) == key
        invariant threads == ths[running := ths[running].(joiners := threads[running].joiners)]
        invariant Yields(threads[running].joiners, key, queue, r)
        decreases |threads[running].joiners|
      {
        YieldsStep(threads[running].joiners, key, queue, r);
        WakeJoiner();
      }
      YieldsStep([], key, queue, r);
    }

    /** exit: finish, wake the joiners and give up the processor. */
    method Finish()
      requires Linked() && running in threads
      modifies this`threads, this`status, this`running, this`queue, run, run.spine
      ensures Linked() && Now() == ExitStep(old(Now()))
    {
      SamePriorities(threads, running, threads[running].(finished := true));
      threads := threads[running := threads[running].(finished := true)];
      DrainJoiners();
      GiveUp(Ended);
    }

    method ThreadExit()
      requires Valid() && Enabled(Now(), Exit)
      modifies this, run, run.spine
      ensures Valid() && actions == old(actions) + [Exit]
      ensures running == NextToRun(old(Now()), Exit) && Th(Now(), old(running)).finished
      ensures status.Ended? <==> old(queue) == [] && old(threads[running].joiners) == []
      ensures forall t :: t in old(threads[running].joiners) ==> Runnable(Now(), t)
    {
      ghost var s := Now();
      Finish();
      Record(Exit, s);
      NextThread(s, Exit, Now());
      EndsExactly(s, Exit, Now());
      ExitReleasesJoiners(born, states, actions, |actions| - 1);
    }

    /** The running thread goes to the run queue, and the front of the queue runs. */
    method Rotate()
      requires Linked() && queue != []
      modifies this`running, this`queue, run, run.spine
      ensures Linked() && running == old(queue)[0] && queue == Inserted(old(queue)[1..], Priorities(threads), old(running))
    {
      var next := PopRun();
      PushRun(running);
      running := next;
    }

    /** Count the round; after 150 of them order the run queue by age. */
    method AgeRun()
      requires Linked()
      modifies this`nSchedulings, this`queue, run
      ensures forall i :: 0 <= i < |run.spine| ==> run.spine[i] in old(run.spine) || fresh(run.spine[i])
      ensures Linked() && queue == Aged(old(Now()))
      ensures nSchedulings == if old(nSchedulings) + 1 > MAX_SCHEDULINGS then 0 else old(nSchedulings) + 1
    {
      nSchedulings := nSchedulings + 1;
      if nSchedulings > MAX_SCHEDULINGS {
        OrderRun();
        nSchedulings := 0;
      }
    }

    method BeginRound()
      requires Linked() && running in threads
      modifies this`threads, this`nSchedulings, this`queue, run
      ensures forall i :: 0 <= i < |run.spine| ==> run.spine[i] in old(run.spine) || fresh(run.spine[i])
      ensures Linked() && Now() == RoundBegun(old(Now()))
    {
      AgeRun();
      threads := threads[running := threads[running].(priority := threads[running].priority + 1)];
    }

    /** One round of the scheduler, from its start to the switch. */
    method Schedule()
      requires Linked() && running in threads
      modifies this`threads, this`running, this`nSchedulings, this`queue, run, run.spine
      ensures Linked() && Now() == ScheduleStep(old(Now()))
    {
      BeginRound();
      var empty := RunIsEmpty();
      if !empty {
        Rotate();
      }
    }

    method Interrupt()
      requires Valid() && Enabled(Now(), Preempt)
      modifies this, run, run.spine
      ensures Valid() && actions == old(actions) + [Preempt]
      ensures running == NextToRun(old(Now()), Preempt) && (running != old(running) ==> old(running) in queue)
    {
      ghost var s := Now();
      Schedule();
      Record(Preempt, s);
      NextThread(s, Preempt, Now());
      SchedulerSwitches(born, states, actions, |actions| - 1);
    }

    /** Take back one interrupt, then a round of the scheduler. */
    method YieldRound()
      requires Linked() && running in threads
      modifies this`threads, this`running, this`nSchedulings, this`queue, run, run.spine
      ensures Linked() && Now() == YieldStep(old(Now()))
    {
      var th := threads[running];
      threads := threads[running := if th.priority > 0 then th.(priority := th.priority - 1) else th];
      Schedule();
    }

    method YieldProcessor()
      requires Valid() && Enabled(Now(), Yield)
      modifies this, run, run.spine
      ensures Valid() && actions == old(actions) + [Yield]
      ensures running == NextToRun(old(Now()), Yield) && (running != old(running) ==> old(running) in queue)
    {
      ghost var s := Now();
      YieldRound();
      Record(Yield, s);
      NextThread(s, Yield, Now());
      SchedulerSwitches(born, states, actions, |actions| - 1);
    }

    /** Queue the running thread up for `u` and give up the processor. */
    method WaitFor(u: Tid)
      requires Linked() && running in threads && u in threads && !threads[u].finished
      modifies this`threads, this`status, this`running, this`queue, run
      ensures Linked() && Now() == JoinStep(old(Now()), u)
    {
      var key := Priorities(threads);
      threads := threads[running := threads[running].(pc := Joining(u))];
      threads := threads[u := threads[u].(joiners := Inserted(threads[u].joiners, key, running))];
      GiveUp(Ended);
    }

    /** `done` if the target had finished; otherwise the caller is now in the target's queue. */
    method JoinThread(u: Tid) returns (done: bool)
      requires Valid() && Enabled(Now(), Join(u))
      modifies this, run, run.spine
      ensures Valid() && actions == old(actions) + [Join(u)]
      ensures done == old(threads[u].finished) && (!done ==> u in threads && old(running) in threads[u].joiners)
      ensures running == NextToRun(old(Now()), Join(u)) && (status.Ended? <==> !done && old(queue) == [])
    {
      ghost var s := Now();
      done := threads[u].finished;
      if !done {
        WaitFor(u);
        InsertedMembers(s.threads[u].joiners, Priorities(s.threads), s.running);
      }
      Record(Join(u), s);
      NextThread(s, Join(u), Now());
      EndsExactly(s, Join(u), Now());
    }

    method ReturnFromJoin()
      requires Valid() && Enabled(Now(), JoinReturn)
      modifies this
      ensures Valid() && actions == old(actions) + [JoinReturn]
      ensures var u := old(threads[running].pc.u); u in threads && threads[u].finished
    {
      ghost var s, t := Now(), running;
      JoinSafety(born, states, actions, |actions|, t, threads[t].pc.u);
      assert Runnable(s, t);
      threads := threads[running := threads[running].(pc := User)];
      Record(JoinReturn, s);
    }

    method EnterLock(m: Mid)
      requires Valid() && Enabled(Now(), CallLock(m))
      modifies this
      ensures Valid() && actions == old(actions) + [CallLock(m)]
      ensures running == old(running) && running in threads && threads[running].pc == TryLock(m)
    {
      ghost var s := Now();
      threads := threads[running := threads[running].(pc := TryLock(m))];
      Record(CallLock(m), s);
    }

    /** The value the mutex had; it is locked afterwards. If it was free, the caller now is the one
        thread inside it. */
    method TestAndSetMutex(m: Mid) returns (wasLocked: bool)
      requires Valid() && Enabled(Now(), TestAndSet) && threads[running].pc.m == m
      modifies this
      ensures Valid() && actions == old(actions) + [TestAndSet]
      ensures wasLocked == old(mutexes[m].locked) && m in mutexes && mutexes[m].locked
      ensures running == old(running) && Th(Now(), running).pc == if wasLocked then Failed(m) else User
      ensures !wasLocked ==> forall t :: Inside(states, actions, |actions|, t, m) <==> t == running
    {
      ghost var s := Now();
      wasLocked := mutexes[m].locked;
      mutexes := mutexes[m := mutexes[m].(locked := true)];
      var th := threads[running];
      threads := threads[running := if wasLocked then th.(pc := Failed(m)) else th.(pc := User, held := th.held + {m})];
      Record(TestAndSet, s);
      if !wasLocked { OnlyInside(m); }
    }

    ghost method OnlyInside(m: Mid)
      requires Valid() && running in threads && m in threads[running].held
      ensures forall t :: Inside(states, actions, |actions|, t, m) <==> t == running
    {
      forall t ensures Inside(states, actions, |actions|, t, m) <==> t == running {
        InsideIsHeld(born, states, actions, |actions|, running, m);
        if Inside(states, actions, |actions|, t, m) {
          MutualExclusion(born, states, actions, |actions|, m, t, running);
        }
      }
    }

    /** The masked part of lock, after a failed test-and-set. The caller stays inside the call: it waits at the end of
        the queue of the mutex, or is about to test the mutex again. */
    method BlockIfLocked(m: Mid)
      requires Valid() && Enabled(Now(), Recheck) && threads[running].pc.m == m
      modifies this, run, run.spine
      ensures Valid() && actions == old(actions) + [Recheck]
      ensures Th(Now(), old(running)).pc == if old(mutexes[m].locked) then LockWait(m) else TryLock(m)
      ensures Mx(Now(), m).wait == old(mutexes[m].wait) + if old(mutexes[m].locked) then [old(running)] else []
      ensures running == NextToRun(old(Now()), Recheck)
    {
      ghost var s := Now();
      if mutexes[m].locked {
        mutexes := mutexes[m := mutexes[m].(wait := mutexes[m].wait + [running])];
        threads := threads[running := threads[running].(pc := LockWait(m))];
        GiveUp(Faulted);
      } else {
        threads := threads[running := threads[running].(pc := TryLock(m))];
      }
      Record(Recheck, s);
      InvAlways(born, states, actions, |actions| - 1);
      PcChanges(s, Recheck, Now(), s.running);
      WaitChanges(s, Recheck, Now(), m);
      NextThread(s, Recheck, Now());
    }

    /** Wake the first thread that waits for the mutex, then clear it. */
    method Release(m: Mid)
      requires Linked() && running in threads && m in mutexes
      modifies this`threads, this`mutexes, this`queue, run, run.spine
      ensures Linked() && Now() == UnlockStep(old(Now()), m)
    {
      var th := threads[running];
      SamePriorities(threads, running, th.(held := th.held - {m}));
      threads := threads[running := th.(held := th.held - {m})];
      if mutexes[m].wait != [] {
        var t := mutexes[m].wait[0];
        mutexes := mutexes[m := mutexes[m].(wait := mutexes[m].wait[1..])];
        PushRun(t);
      }
      mutexes := mutexes[m := mutexes[m].(locked := false)];
      assert mutexes == old(mutexes)[m := Mutex(false, mutexes[m].wait)];
    }

    method UnlockMutex(m: Mid)
      requires Valid() && Enabled(Now(), Unlock(m))
      modifies this, run, run.spine
      ensures Valid() && actions == old(actions) + [Unlock(m)]
      ensures forall t :: !Inside(states, actions, |actions|, t, m)
      ensures Mx(Now(), m).wait == Popped(old(mutexes[m].wait))
      ensures old(mutexes[m].wait) != [] ==> Runnable(Now(), old(mutexes[m].wait)[0])
    {
      ghost var s := Now();
      Release(m);
      Record(Unlock(m), s);
      LockedIffInside(born, states, actions, |actions|, m);
      InvAlways(born, states, actions, |actions| - 1);
      WaitChanges(s, Unlock(m), Now(), m);
    }
  }
}
