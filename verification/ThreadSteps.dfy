/** Each step of the thread library keeps the invariant. The proofs go through what the invariant can
    see of a state: who is runnable, and each thread and mutex. */
module ThreadSteps {
  import opened LinkedQueue
  import opened ThreadState
  import opened ThreadInvariant

  /** The two threads differ at most in priority and age. */
  ghost predicate Alike(a: Thread, b: Thread) {
    a.pc == b.pc && a.held == b.held && a.finished == b.finished && a.joiners == b.joiners
  }

  /** `w` looks like `s`, except for the order of the run queue, who has the processor, and unused mutexes. */
  ghost predicate SameView(s: State, w: State) {
    && w.threads.Keys == s.threads.Keys && s.mutexes.Keys <= w.mutexes.Keys
    && (forall m :: Mx(w, m) == Mx(s, m))
    && (forall t :: Runnable(w, t) == Runnable(s, t))
    && (forall t :: Alike(Th(w, t), Th(s, t)))
  }

  lemma SameViewQueues(s: State, w: State)
    requires SameView(s, w) && WaitOk(s) && JoinOk(s)
    ensures WaitOk(w) && JoinOk(w)
  {
  }

  lemma SameViewBlocked(s: State, w: State)
    requires SameView(s, w) && BlockedOk(s) && ResumedOk(s)
    ensures BlockedOk(w) && ResumedOk(w)
  {
    forall t | Blocked(w, t) ensures InItsQueue(w, t) { assert InItsQueue(s, t); }
    forall t | Runnable(w, t) && Th(w, t).pc.Joining? ensures Resumed(w, t) { assert Resumed(s, t); }
  }

  lemma SameViewMutexes(s: State, w: State)
    requires SameView(s, w) && HeldOk(s) && WakeOk(s)
    ensures HeldOk(w) && WakeOk(w)
  {
    assert forall t :: Th(w, t).held == Th(s, t).held;
    assert forall t, m :: Contender(w, t, m) == Contender(s, t, m);
  }

  lemma SameViewKeeps(s: State, w: State)
    requires Inv(s) && SameView(s, w) && Distinct(w.run) && (w.status.Active? ==> w.running !in w.run)
    requires s.nextId <= w.nextId && forall m :: m in w.mutexes ==> m < w.nextMutex
    ensures Inv(w)
  {
    AllRules(s);
    SameViewQueues(s, w);
    SameViewBlocked(s, w);
    SameViewMutexes(s, w);
  }

  // ---------------------------------------------------------------- handing over the processor

  /** With nobody on the processor, the front of the run queue gets it. */
  lemma SwitchKeeps(s: State, status: Status)
    requires Inv(s.(status := Ended)) && !status.Active? && s.status.Active?
    ensures Inv(SwitchOr(s, status))
  {
    var idle, w := s.(status := Ended), SwitchOr(s, status);
    assert Obeys(idle, RunRule);
    if s.run != [] { PoppedMembers(s.run); }
    assert forall t :: Runnable(w, t) == Runnable(idle, t);
    assert Obeys(idle, NamesRule);
    SameViewKeeps(idle, w);
  }

  /** The run queue `scheduler` takes the next thread from. */
  lemma AgedMembers(s: State)
    requires Distinct(s.run)
    ensures var run := Aged(s); Distinct(run) && forall t :: t in run <==> t in s.run
  {
    ReorderedMembers(s.run, BirthTimes(s.threads), []);
  }

  lemma RequeuedMembers(run: seq<Tid>, key: Keys, t: Tid)
    requires run != [] && Distinct(run) && t !in run
    ensures var q := Inserted(run[1..], key, t);
            Distinct(q) && run[0] !in q && forall u :: u in q || u == run[0] <==> u in run || u == t
  {
    PoppedMembers(run);
    InsertedMembers(run[1..], key, t);
  }

  lemma ScheduledQueue(s: State, w: State)
    requires s.status.Active? && s.running in s.threads && Distinct(s.run) && s.running !in s.run && w == ScheduleStep(s)
    ensures Distinct(w.run) && w.running !in w.run && forall t :: Runnable(w, t) == Runnable(s, t)
  {
    AgedMembers(s);
    if Aged(s) != [] { RequeuedMembers(Aged(s), Priorities(w.threads), s.running); }
  }

  /** What a scheduler round leaves alone. */
  lemma ScheduledFields(s: State, w: State)
    requires s.running in s.threads && w == ScheduleStep(s)
    ensures w.status == s.status && w.nextId == s.nextId && w.nextMutex == s.nextMutex && w.mutexes == s.mutexes
    ensures var t := s.threads[s.running]; w.threads == s.threads[s.running := t.(priority := t.priority + 1)]
  {
  }

  lemma SameViewUpTo(s: State, w: State, priority: nat)
    requires s.running in s.threads && w.mutexes == s.mutexes && forall t :: Runnable(w, t) == Runnable(s, t)
    requires w.threads == s.threads[s.running := s.threads[s.running].(priority := priority)]
    ensures SameView(s, w)
  {
  }

  lemma ScheduleKeeps(s: State)
    requires Inv(s) && s.status.Active? && s.running in s.threads
    ensures Inv(ScheduleStep(s))
  {
    var w := ScheduleStep(s);
    assert Distinct(s.run) && s.running !in s.run by { assert Obeys(s, RunRule); }
    ScheduledQueue(s, w);
    ScheduledFields(s, w);
    SameViewUpTo(s, w, s.threads[s.running].priority + 1);
    assert forall m :: m in s.mutexes ==> m < s.nextMutex by { assert Obeys(s, NamesRule); }
    SameViewKeeps(s, w);
  }

  lemma YieldKeeps(s: State)
    requires Inv(s) && s.status.Active? && s.running in s.threads
    ensures Inv(YieldStep(s))
  {
    var t := s.threads[s.running];
    var s' := WithThread(s, s.running, if t.priority > 0 then t.(priority := t.priority - 1) else t);
    assert Obeys(s, RunRule) && Obeys(s, NamesRule);
    SameViewKeeps(s, s');
    ScheduleKeeps(s');
  }

  // ---------------------------------------------------------------- the running thread works alone

  /** Between `s` and `w` the running thread changed its program counter or the mutexes it holds, and
      mutexes were locked or unlocked. */
  ghost predicate Local(s: State, w: State) {
    && w == s.(threads := w.threads, mutexes := w.mutexes) && w.threads.Keys == s.threads.Keys
       && w.mutexes.Keys == s.mutexes.Keys
    && (forall t :: t != s.running ==> Th(w, t) == Th(s, t))
    && Th(w, s.running).finished == Th(s, s.running).finished && Th(w, s.running).joiners == Th(s, s.running).joiners
    && (forall m :: Mx(w, m).wait == Mx(s, m).wait)
  }

  lemma LocalWait(s: State, w: State)
    requires Local(s, w) && s.status.Active? && RunOk(s) && WaitOk(s)
    ensures RunOk(w) && WaitOk(w)
  {
    assert forall t :: Runnable(w, t) == Runnable(s, t);
    assert Runnable(s, s.running);
    forall m, t | t in Mx(w, m).wait ensures WaiterOk(w, m, t) {
      assert t in Mx(s, m).wait;
    }
  }

  lemma LocalJoin(s: State, w: State)
    requires Local(s, w) && s.status.Active? && JoinOk(s)
    ensures JoinOk(w)
  {
    assert forall t :: Runnable(w, t) == Runnable(s, t);
    assert Runnable(s, s.running);
    forall u ensures Th(w, u).joiners == Th(s, u).joiners && Th(w, u).finished == Th(s, u).finished {}
    forall u, t | t in Th(w, u).joiners ensures JoinerOk(w, u, t) {
      assert t in Th(s, u).joiners;
    }
  }

  lemma LocalBlocked(s: State, w: State)
    requires Local(s, w) && s.status.Active? && BlockedOk(s) && ResumedOk(s) && !Th(w, s.running).pc.Joining?
    ensures BlockedOk(w) && ResumedOk(w)
  {
    assert forall t :: Runnable(w, t) == Runnable(s, t);
    assert forall t :: Th(w, t).finished == Th(s, t).finished && Th(w, t).joiners == Th(s, t).joiners;
    forall t | Blocked(w, t) ensures InItsQueue(w, t) { assert InItsQueue(s, t); }
    forall t | Runnable(w, t) && Th(w, t).pc.Joining? ensures Resumed(w, t) { assert Resumed(s, t); }
  }

  ghost predicate NamesFit(s: State, th: Thread) {
    && (!th.pc.User? && !th.pc.Joining? ==> th.pc.m in s.mutexes)
    && (forall m :: m in th.held ==> m in s.mutexes)
  }

  lemma LocalKeeps(s: State, w: State)
    requires Inv(s) && Local(s, w) && s.status.Active?
    requires !Th(w, s.running).pc.Joining? && NamesFit(s, Th(w, s.running)) && HeldOk(w) && WakeOk(w)
    ensures Inv(w)
  {
    AllRules(s);
    LocalWait(s, w);
    LocalJoin(s, w);
    LocalBlocked(s, w);
    assert NamesOk(w);
  }

  /** The program counter moves: no contender is lost unless the mutex is locked. */
  lemma MovedMutexes(s: State, w: State)
    requires Local(s, w) && w.mutexes == s.mutexes && Th(w, s.running).held == Th(s, s.running).held
    requires HeldOk(s) && WakeOk(s)
    requires forall m :: Contender(s, s.running, m) && !Mx(s, m).locked ==> Contender(w, s.running, m)
    ensures HeldOk(w) && WakeOk(w)
  {
    assert forall m :: Mx(w, m) == Mx(s, m);
    assert forall t :: Th(w, t).held == Th(s, t).held;
    forall m | Mx(w, m).wait != [] && !Mx(w, m).locked ensures exists t :: Contender(w, t, m) {
      var t :| Contender(s, t, m);
      assert Contender(w, t, m);
    }
  }

  lemma MoveKeeps(s: State, pc: Pc)
    requires Inv(s) && s.status.Active? && s.running in s.threads && !pc.Joining? && (pc.User? || pc.m in s.mutexes)
    requires forall m :: Contender(s, s.running, m) && !Mx(s, m).locked ==> pc == TryLock(m)
    ensures Inv(MoveTo(s, pc))
  {
    var w := MoveTo(s, pc);
    assert Obeys(s, NamesRule) && Obeys(s, HeldRule) && Obeys(s, WakeRule);
    MovedMutexes(s, w);
    LocalKeeps(s, w);
  }

  /** testAndSet takes a free mutex: then the running thread is its one holder. */
  lemma AcquireHeld(s: State, m: Mid, w: State)
    requires HeldOk(s) && s.running in s.threads && m in s.mutexes && !s.mutexes[m].locked && w == TestAndSetStep(s, m)
    ensures HeldOk(w)
  {
    assert forall t :: Th(w, t).held == if t == s.running then Th(s, t).held + {m} else Th(s, t).held;
    assert forall n :: Mx(w, n).locked == (n == m || Mx(s, n).locked);
    assert !Mx(s, m).locked;
    forall n | Mx(w, n).locked ensures exists t :: n in Th(w, t).held {
      if n == m { assert m in Th(w, s.running).held; } else {
        var t :| n in Th(s, t).held;
        assert n in Th(w, t).held;
      }
    }
  }

  lemma AcquireWake(s: State, m: Mid, w: State)
    requires WakeOk(s) && s.running in s.threads && m in s.mutexes && !s.mutexes[m].locked && w == TestAndSetStep(s, m)
    requires s.threads[s.running].pc == TryLock(m) || s.threads[s.running].pc == LockWait(m)
    ensures WakeOk(w)
  {
    assert forall n :: Mx(w, n) == if n == m then Mx(s, m).(locked := true) else Mx(s, n);
    forall n | Mx(w, n).wait != [] && !Mx(w, n).locked ensures exists t :: Contender(w, t, n) {
      var t :| Contender(s, t, n);
      assert Contender(w, t, n);
    }
  }

  lemma TestAndSetKeeps(s: State, m: Mid)
    requires Inv(s) && s.status.Active? && s.running in s.threads && m in s.mutexes
    requires s.threads[s.running].pc == TryLock(m) || s.threads[s.running].pc == LockWait(m)
    ensures Inv(TestAndSetStep(s, m))
  {
    var w := TestAndSetStep(s, m);
    if s.mutexes[m].locked {
      assert s.mutexes[m := s.mutexes[m].(locked := true)] == s.mutexes;
      MoveKeeps(s, Failed(m));
    } else {
      assert Obeys(s, HeldRule) && Obeys(s, WakeRule) && Obeys(s, NamesRule);
      AcquireHeld(s, m, w);
      AcquireWake(s, m, w);
      LocalKeeps(s, w);
    }
  }

  // ---------------------------------------------------------------- unlock

  /** unlock wakes a waiter: it moves from the mutex queue to the run queue. */
  ghost predicate Woken(s: State, m: Mid, w: State) {
    && m in s.mutexes && s.mutexes[m].wait != [] && s.mutexes[m].wait[0] in s.threads
    && w == s.(run := w.run, mutexes := s.mutexes[m := s.mutexes[m].(wait := s.mutexes[m].wait[1..])])
    && w.run == Inserted(s.run, Priorities(s.threads), s.mutexes[m].wait[0])
  }

  lemma WokenMembers(s: State, m: Mid, w: State)
    requires Woken(s, m, w) && Distinct(Mx(s, m).wait) && Distinct(s.run) && s.mutexes[m].wait[0] !in s.run
    ensures Distinct(w.run) && forall t :: t in w.run <==> t in s.run || t == s.mutexes[m].wait[0]
    ensures forall t :: Runnable(w, t) <==> Runnable(s, t) || t == s.mutexes[m].wait[0]
    ensures forall n :: Mx(w, n).locked == Mx(s, n).locked && (n != m ==> Mx(w, n) == Mx(s, n))
    ensures Distinct(Mx(w, m).wait) && forall t :: t in Mx(w, m).wait <==> t in Mx(s, m).wait && t != s.mutexes[m].wait[0]
  {
    PoppedMembers(s.mutexes[m].wait);
    InsertedMembers(s.run, Priorities(s.threads), s.mutexes[m].wait[0]);
  }

  lemma WokenWait(s: State, m: Mid, w: State)
    requires Woken(s, m, w) && RunOk(s) && WaitOk(s)
    ensures RunOk(w) && WaitOk(w)
  {
    var h := s.mutexes[m].wait[0];
    assert h in Mx(s, m).wait;
    WokenMembers(s, m, w);
    assert forall t :: Th(w, t) == Th(s, t);
    forall n, t | t in Mx(w, n).wait ensures WaiterOk(w, n, t) {
      assert t in Mx(s, n).wait && (n == m ==> t != h) && Th(s, h).pc == LockWait(m);
    }
  }

  lemma WokenJoin(s: State, m: Mid, w: State)
    requires Woken(s, m, w) && RunOk(s) && WaitOk(s) && JoinOk(s)
    ensures JoinOk(w)
  {
    var h := s.mutexes[m].wait[0];
    assert Th(s, h).pc == LockWait(m) && h !in s.run by { assert h in Mx(s, m).wait; }
    WokenMembers(s, m, w);
    assert forall t :: Th(w, t) == Th(s, t);
  }

  lemma WokenBlocked(s: State, m: Mid, w: State)
    requires Woken(s, m, w) && RunOk(s) && WaitOk(s) && BlockedOk(s) && ResumedOk(s)
    ensures BlockedOk(w) && ResumedOk(w)
  {
    assert s.mutexes[m].wait[0] in Mx(s, m).wait;
    WokenMembers(s, m, w);
    assert forall t :: Th(w, t) == Th(s, t);
    forall t | Blocked(w, t) ensures InItsQueue(w, t) { assert InItsQueue(s, t); }
    forall t | Runnable(w, t) && Th(w, t).pc.Joining? ensures Resumed(w, t) { assert Resumed(s, t); }
  }

  lemma WokenMutexes(s: State, m: Mid, w: State)
    requires Woken(s, m, w) && RunOk(s) && WaitOk(s) && NamesOk(s) && HeldOk(s) && WakeOk(s)
    ensures NamesOk(w) && HeldOk(w) && WakeOk(w)
  {
    assert s.mutexes[m].wait[0] in Mx(s, m).wait;
    WokenMembers(s, m, w);
    assert forall t :: Th(w, t) == Th(s, t);
    forall n | Mx(w, n).wait != [] && !Mx(w, n).locked ensures exists t :: Contender(w, t, n) {
      assert Mx(s, n).wait != [];
      var t :| Contender(s, t, n);
      assert Contender(w, t, n);
    }
  }

  lemma WokenKeeps(s: State, m: Mid, w: State)
    requires Inv(s) && Woken(s, m, w)
    ensures Inv(w) && Contender(w, s.mutexes[m].wait[0], m)
  {
    AllRules(s);
    assert s.mutexes[m].wait[0] in Mx(s, m).wait;
    WokenMembers(s, m, w);
    WokenWait(s, m, w);
    WokenJoin(s, m, w);
    WokenBlocked(s, m, w);
    WokenMutexes(s, m, w);
  }

  /** The holder lets go of `m`; anyone still waiting has a contender to be woken by. */
  function Released(s: State, m: Mid): State
    requires s.running in s.threads && m in s.mutexes
  {
    WithThread(s, s.running, s.threads[s.running].(held := s.threads[s.running].held - {m}))
      .(mutexes := s.mutexes[m := s.mutexes[m].(locked := false)])
  }

  lemma ReleasedMutexes(s: State, m: Mid, w: State)
    requires s.running in s.threads && m in s.mutexes && w == Released(s, m) && m in Th(s, s.running).held
    requires HeldOk(s) && WakeOk(s) && (s.mutexes[m].wait == [] || exists t :: Contender(s, t, m))
    ensures HeldOk(w) && WakeOk(w)
  {
    assert forall n :: Mx(w, n) == if n == m then Mx(s, m).(locked := false) else Mx(s, n);
    assert forall t :: Th(w, t).held == if t == s.running then Th(s, t).held - {m} else Th(s, t).held;
    forall n | Mx(w, n).locked ensures exists t :: n in Th(w, t).held {
      var t :| n in Th(s, t).held;
      assert n in Th(w, t).held;
    }
    forall n | Mx(w, n).wait != [] && !Mx(w, n).locked ensures exists t :: Contender(w, t, n) {
      var t :| Contender(s, t, n);
      assert Contender(w, t, n);
    }
  }

  lemma ReleaseKeeps(s: State, m: Mid)
    requires Inv(s) && s.status.Active? && s.running in s.threads && m in s.mutexes && s.threads[s.running].pc.User?
    requires m in s.threads[s.running].held && (s.mutexes[m].wait == [] || exists t :: Contender(s, t, m))
    ensures Inv(Released(s, m))
  {
    var w := Released(s, m);
    assert Obeys(s, HeldRule) && Obeys(s, WakeRule) && Obeys(s, NamesRule);
    ReleasedMutexes(s, m, w);
    LocalKeeps(s, w);
  }

  lemma UnlockKeeps(s: State, m: Mid)
    requires Inv(s) && s.status.Active? && s.running in s.threads && m in s.mutexes && s.threads[s.running].pc.User?
    requires m in s.threads[s.running].held
    ensures Inv(UnlockStep(s, m))
  {
    var x := s.mutexes[m];
    if x.wait == [] {
      ReleaseKeeps(s, m);
    } else {
      assert x.wait[0] in s.threads by { assert Obeys(s, WaitRule) && x.wait[0] in Mx(s, m).wait; }
      var w := s.(run := Inserted(s.run, Priorities(s.threads), x.wait[0]), mutexes := s.mutexes[m := x.(wait := x.wait[1..])]);
      WokenKeeps(s, m, w);
      ReleaseKeeps(w, m);
      assert w.mutexes[m := w.mutexes[m].(locked := false)] == s.mutexes[m := Mutex(false, x.wait[1..])];
      assert Priorities(Released(w, m).threads) == Priorities(s.threads);
      assert UnlockStep(s, m) == Released(w, m);
    }
  }

  // ---------------------------------------------------------------- blocking in lock

  /** The running thread leaves the processor for the queue of `m`. */
  function ToWait(s: State, m: Mid): State
    requires s.running in s.threads && m in s.mutexes
  {
    MoveTo(s.(mutexes := s.mutexes[m := s.mutexes[m].(wait := s.mutexes[m].wait + [s.running])]), LockWait(m)).(status := Ended)
  }

  /** What the rules see of a thread that left the processor for a queue. */
  ghost predicate Left(s: State, pc: Pc, w: State) {
    && s.status.Active? && s.running !in s.run && s.running in s.threads && w.threads.Keys == s.threads.Keys
    && w.run == s.run && !w.status.Active? && Th(w, s.running).pc == pc
    && (forall t :: Runnable(w, t) <==> Runnable(s, t) && t != s.running)
    && (forall t :: t != s.running ==> Th(w, t).pc == Th(s, t).pc)
    && (forall t :: Th(w, t).held == Th(s, t).held && Th(w, t).finished == Th(s, t).finished)
  }

  lemma ToWaitView(s: State, m: Mid, w: State)
    requires RunOk(s) && s.status.Active? && s.running in s.threads && m in s.mutexes && w == ToWait(s, m)
    ensures Left(s, LockWait(m), w) && forall t :: Th(w, t).joiners == Th(s, t).joiners
    ensures forall n :: Mx(w, n) == if n == m then Mx(s, m).(wait := Mx(s, m).wait + [s.running]) else Mx(s, n)
  {
  }

  lemma ToWaitQueues(s: State, m: Mid, w: State)
    requires RunOk(s) && WaitOk(s) && JoinOk(s) && s.status.Active? && s.running in s.threads && m in s.mutexes
            && w == ToWait(s, m)
    ensures RunOk(w) && WaitOk(w) && JoinOk(w)
  {
    ToWaitView(s, m, w);
    assert Runnable(s, s.running);
    assert s.running !in Mx(s, m).wait;
  }

  lemma ToWaitBlocked(s: State, m: Mid, w: State)
    requires RunOk(s) && BlockedOk(s) && ResumedOk(s) && s.status.Active? && s.running in s.threads
            && m in s.mutexes && w == ToWait(s, m)
    ensures BlockedOk(w) && ResumedOk(w)
  {
    ToWaitView(s, m, w);
    assert s.running in Mx(w, m).wait;
    forall t | Blocked(w, t) ensures InItsQueue(w, t) { assert t != s.running ==> InItsQueue(s, t); }
    forall t | Runnable(w, t) && Th(w, t).pc.Joining? ensures Resumed(w, t) { assert Resumed(s, t); }
  }

  lemma ToWaitMutexes(s: State, m: Mid, w: State)
    requires RunOk(s) && NamesOk(s) && HeldOk(s) && WakeOk(s) && s.status.Active? && s.running in s.threads
            && m in s.mutexes
    requires w == ToWait(s, m) && s.mutexes[m].locked && s.threads[s.running].pc == Failed(m)
    ensures NamesOk(w) && HeldOk(w) && WakeOk(w)
  {
    ToWaitView(s, m, w);
    assert w.mutexes.Keys == s.mutexes.Keys;
    forall n | Mx(w, n).wait != [] && !Mx(w, n).locked ensures exists t :: Contender(w, t, n) {
      var t :| Contender(s, t, n);
      assert Contender(w, t, n);
    }
  }

  lemma RecheckKeeps(s: State, m: Mid)
    requires Inv(s) && s.status.Active? && s.running in s.threads && m in s.mutexes
            && s.threads[s.running].pc == Failed(m)
    ensures Inv(RecheckStep(s, m))
  {
    if s.mutexes[m].locked {
      var w := ToWait(s, m);
      AllRules(s);
      ToWaitQueues(s, m, w);
      ToWaitBlocked(s, m, w);
      ToWaitMutexes(s, m, w);
      SwitchKeeps(w.(status := Active), Faulted);
    } else {
      MoveKeeps(s, TryLock(m));
    }
  }

  // ---------------------------------------------------------------- blocking in join

  function ToJoin(s: State, u: Tid): State
    requires s.running in s.threads && u in s.threads
  {
    var s' := MoveTo(s, Joining(u));
    var t := s'.threads[u];
    WithThread(s', u, t.(joiners := Inserted(t.joiners, Priorities(s.threads), s.running))).(status := Ended)
  }

  /** The queue of `u` gained the thread that was running; other queues are as before. */
  ghost predicate JoinQueued(s: State, u: Tid, w: State) {
    && w.mutexes == s.mutexes && u in s.threads
    && (forall t :: t != u ==> Th(w, t).joiners == Th(s, t).joiners)
    && Distinct(Th(w, u).joiners)
    && (forall t :: t in Th(w, u).joiners <==> t in Th(s, u).joiners || t == s.running)
  }

  lemma ToJoinLeft(s: State, u: Tid, w: State)
    requires s.status.Active? && s.running in s.threads && s.running !in s.run && u in s.threads && w == ToJoin(s, u)
    ensures Left(s, Joining(u), w)
  {
  }

  lemma ToJoinQueued(s: State, u: Tid, w: State)
    requires s.running in s.threads && u in s.threads && w == ToJoin(s, u)
    requires Distinct(Th(s, u).joiners) && s.running !in Th(s, u).joiners
    ensures JoinQueued(s, u, w)
  {
    InsertedMembers(Th(s, u).joiners, Priorities(s.threads), s.running);
  }

  lemma ToJoinView(s: State, u: Tid, w: State)
    requires RunOk(s) && JoinOk(s) && s.status.Active? && s.running in s.threads && u in s.threads && w == ToJoin(s, u)
    ensures Left(s, Joining(u), w) && JoinQueued(s, u, w)
  {
    assert Runnable(s, s.running);
    assert s.running !in Th(s, u).joiners;
    ToJoinLeft(s, u, w);
    ToJoinQueued(s, u, w);
  }

  /** Whoever leaves the processor is in no other queue. */
  lemma LeftWait(s: State, pc: Pc, w: State)
    requires Left(s, pc, w) && w.mutexes == s.mutexes && RunOk(s) && WaitOk(s)
    ensures RunOk(w) && WaitOk(w)
  {
    assert forall n :: Mx(w, n) == Mx(s, n);
    assert Runnable(s, s.running);
  }

  lemma LeftJoin(s: State, u: Tid, w: State)
    requires Left(s, Joining(u), w) && JoinQueued(s, u, w) && JoinOk(s) && RunOk(s) && !Th(s, u).finished
    ensures JoinOk(w)
  {
    assert Runnable(s, s.running) && !Runnable(w, s.running);
    forall v ensures Distinct(Th(w, v).joiners) { assert v != u ==> Th(w, v).joiners == Th(s, v).joiners; }
    forall v, t | t in Th(w, v).joiners ensures JoinerOk(w, v, t) {
      assert t == s.running || t in Th(s, v).joiners;
    }
  }

  lemma LeftBlocked(s: State, u: Tid, w: State)
    requires Left(s, Joining(u), w) && JoinQueued(s, u, w) && BlockedOk(s) && ResumedOk(s)
    ensures BlockedOk(w) && ResumedOk(w)
  {
    assert forall n :: Mx(w, n) == Mx(s, n);
    assert s.running in Th(w, u).joiners;
    forall t | Blocked(w, t) ensures InItsQueue(w, t) { assert t != s.running ==> InItsQueue(s, t); }
    forall t | Runnable(w, t) && Th(w, t).pc.Joining? ensures Resumed(w, t) { assert Resumed(s, t); }
  }

  /** A thread that leaves from user code was nobody's contender. */
  lemma LeftMutexes(s: State, pc: Pc, w: State)
    requires Left(s, pc, w) && w.mutexes == s.mutexes && w.nextId == s.nextId && w.nextMutex == s.nextMutex
    requires NamesOk(s) && HeldOk(s) && WakeOk(s) && s.threads[s.running].pc.User? && (pc.User? || pc.Joining?)
    ensures NamesOk(w) && HeldOk(w) && WakeOk(w)
  {
    assert forall n :: Mx(w, n) == Mx(s, n);
    forall n | Mx(w, n).wait != [] && !Mx(w, n).locked ensures exists t :: Contender(w, t, n) {
      var t :| Contender(s, t, n);
      assert Contender(w, t, n);
    }
  }

  lemma JoinKeeps(s: State, u: Tid)
    requires Inv(s) && s.status.Active? && s.running in s.threads && u in s.threads && s.threads[s.running].pc.User?
    ensures Inv(JoinStep(s, u))
  {
    if !s.threads[u].finished {
      var w := ToJoin(s, u);
      AllRules(s);
      ToJoinView(s, u, w);
      LeftWait(s, Joining(u), w);
      LeftJoin(s, u, w);
      LeftBlocked(s, u, w);
      LeftMutexes(s, Joining(u), w);
      SwitchKeeps(w.(status := Active), Ended);
    }
  }

  // ---------------------------------------------------------------- exit

  function Finish(s: State): State
    requires s.running in s.threads
  {
    var t := s.threads[s.running];
    WithThread(s, s.running, t.(finished := true, joiners := []))
      .(run := Reordered(t.joiners, Priorities(s.threads), s.run), status := Ended)
  }

  /** The running thread is finished, and everyone who waited for it can run. */
  ghost predicate Finished(s: State, w: State) {
    && s.status.Active? && s.running in s.threads && w.threads.Keys == s.threads.Keys && w.mutexes == s.mutexes
    && !w.status.Active? && Distinct(w.run) && w.nextId == s.nextId && w.nextMutex == s.nextMutex
    && (forall t :: Runnable(w, t) <==> (Runnable(s, t) && t != s.running) || t in Th(s, s.running).joiners)
    && (forall t :: t != s.running ==> Th(w, t) == Th(s, t))
    && Th(w, s.running) == Th(s, s.running).(finished := true, joiners := [])
  }

  lemma FinishView(s: State, w: State)
    requires RunOk(s) && JoinOk(s) && s.status.Active? && s.running in s.threads && w == Finish(s)
    ensures Finished(s, w)
  {
    var joiners := Th(s, s.running).joiners;
    assert Distinct(joiners) && (forall t :: t in joiners ==> !Runnable(s, t)) && s.running !in s.run;
    FinishMembers(s, w);
  }

  lemma FinishMembers(s: State, w: State)
    requires s.status.Active? && s.running in s.threads && w == Finish(s) && Distinct(s.run) && s.running !in s.run
    requires Distinct(Th(s, s.running).joiners) && forall t :: t in Th(s, s.running).joiners ==> !Runnable(s, t)
    ensures Finished(s, w)
  {
    ReorderedMembers(Th(s, s.running).joiners, Priorities(s.threads), s.run);
  }

  lemma FinishedRun(s: State, w: State)
    requires Finished(s, w) && RunOk(s) && JoinOk(s)
    ensures RunOk(w)
  {
    assert Runnable(s, s.running);
    forall t | Runnable(w, t) ensures t in w.threads && !Th(w, t).finished {
      assert t != s.running;
    }
  }

  lemma FinishedWait(s: State, w: State)
    requires Finished(s, w) && WaitOk(s) && JoinOk(s)
    ensures WaitOk(w)
  {
    assert forall n :: Mx(w, n) == Mx(s, n);
    assert Runnable(s, s.running);
    forall m, t | t in Mx(w, m).wait ensures WaiterOk(w, m, t) {
      assert t in Mx(s, m).wait && Th(s, t).pc == LockWait(m) && !Runnable(s, t);
      assert t in Th(s, s.running).joiners ==> Th(s, t).pc == Joining(s.running);
    }
  }

  lemma FinishedJoin(s: State, w: State)
    requires Finished(s, w) && JoinOk(s)
    ensures JoinOk(w)
  {
    assert Runnable(s, s.running);
    forall u ensures Distinct(Th(w, u).joiners) { assert u != s.running ==> Th(w, u) == Th(s, u); }
    forall u, t | t in Th(w, u).joiners ensures JoinerOk(w, u, t) {
      assert u != s.running && t in Th(s, u).joiners;
      assert Th(s, t).pc == Joining(u) && t != s.running;
    }
  }

  lemma FinishedBlocked(s: State, w: State)
    requires Finished(s, w) && BlockedOk(s) && ResumedOk(s) && JoinOk(s)
    ensures BlockedOk(w) && ResumedOk(w)
  {
    assert forall n :: Mx(w, n) == Mx(s, n);
    assert Runnable(s, s.running);
    forall t | Blocked(w, t) ensures InItsQueue(w, t) {
      assert t != s.running && InItsQueue(s, t);
    }
    forall t | Runnable(w, t) && Th(w, t).pc.Joining? ensures Resumed(w, t) {
      assert t != s.running;
      if Runnable(s, t) { assert Resumed(s, t); } else { assert t in Th(s, s.running).joiners; }
    }
  }

  lemma FinishedMutexes(s: State, w: State)
    requires Finished(s, w) && NamesOk(s) && HeldOk(s) && WakeOk(s) && s.threads[s.running].pc.User?
    ensures NamesOk(w) && HeldOk(w) && WakeOk(w)
  {
    assert forall n :: Mx(w, n) == Mx(s, n);
    assert forall t :: Th(w, t).held == Th(s, t).held && Th(w, t).pc == Th(s, t).pc;
    forall n | Mx(w, n).wait != [] && !Mx(w, n).locked ensures exists t :: Contender(w, t, n) {
      var t :| Contender(s, t, n);
      assert Contender(w, t, n);
    }
  }

  lemma ExitKeeps(s: State)
    requires Inv(s) && s.status.Active? && s.running in s.threads && s.threads[s.running].pc.User?
    ensures Inv(ExitStep(s))
  {
    var w := Finish(s);
    AllRules(s);
    FinishView(s, w);
    FinishedRun(s, w);
    FinishedWait(s, w);
    FinishedJoin(s, w);
    FinishedBlocked(s, w);
    FinishedMutexes(s, w);
    SwitchKeeps(w.(status := Active), Ended);
  }

  // ---------------------------------------------------------------- creation

  /** A new thread is in the run queue; nothing else changed. */
  ghost predicate Created(s: State, w: State) {
    && s.nextId !in s.threads && w.threads.Keys == s.threads.Keys + {s.nextId} && w.mutexes == s.mutexes
    && w.nextId == s.nextId + 1 && w.nextMutex == s.nextMutex && w.status == s.status && w.running == s.running
       && Distinct(w.run)
    && (forall t :: t in w.run <==> t in s.run || t == s.nextId)
    && (forall t :: t != s.nextId ==> Th(w, t) == Th(s, t))
    && Alike(Th(w, s.nextId), Thread(User, {}, 0, 0, false, []))
  }

  lemma CreatedRun(s: State, w: State)
    requires Created(s, w) && RunOk(s) && WaitOk(s) && s.running in s.threads
    ensures RunOk(w) && WaitOk(w)
  {
    assert forall n :: Mx(w, n) == Mx(s, n);
    assert forall t :: t != s.nextId ==> Runnable(w, t) == Runnable(s, t);
  }

  lemma CreatedJoin(s: State, w: State)
    requires Created(s, w) && JoinOk(s)
    ensures JoinOk(w)
  {
    assert forall t :: t != s.nextId ==> Runnable(w, t) == Runnable(s, t);
    forall u ensures Distinct(Th(w, u).joiners) { assert u != s.nextId ==> Th(w, u) == Th(s, u); }
    forall u, t | t in Th(w, u).joiners ensures JoinerOk(w, u, t) {
      assert u != s.nextId && t in Th(s, u).joiners;
    }
  }

  lemma CreatedBlocked(s: State, w: State)
    requires Created(s, w) && RunOk(s) && BlockedOk(s) && ResumedOk(s) && s.running in s.threads
    ensures BlockedOk(w) && ResumedOk(w)
  {
    assert forall n :: Mx(w, n) == Mx(s, n);
    assert forall t :: t != s.nextId ==> Runnable(w, t) == Runnable(s, t);
    assert Th(s, s.nextId).joiners == [];
    forall t | Blocked(w, t) ensures InItsQueue(w, t) {
      assert t != s.nextId && InItsQueue(s, t);
    }
    forall t | Runnable(w, t) && Th(w, t).pc.Joining? ensures Resumed(w, t) { assert Resumed(s, t); }
  }

  lemma CreatedMutexes(s: State, w: State)
    requires Created(s, w) && NamesOk(s) && HeldOk(s) && WakeOk(s)
    ensures NamesOk(w) && HeldOk(w) && WakeOk(w)
  {
    assert forall n :: Mx(w, n) == Mx(s, n);
    assert forall t :: Th(w, t).held == Th(s, t).held;
    forall n | Mx(w, n).wait != [] && !Mx(w, n).locked ensures exists t :: Contender(w, t, n) {
      var t :| Contender(s, t, n);
      assert Contender(w, t, n);
    }
  }

  lemma CreateKeeps(s: State, born: nat)
    requires Inv(s) && s.status.Active? && s.running in s.threads
    ensures Inv(CreateStep(s, born))
  {
    var w := CreateStep(s, born);
    AllRules(s);
    assert s.nextId !in s.threads;
    InsertedMembers(s.run, Priorities(w.threads), s.nextId);
    assert Created(s, w);
    CreatedRun(s, w);
    CreatedJoin(s, w);
    CreatedBlocked(s, w);
    CreatedMutexes(s, w);
  }

  lemma InitMutexKeeps(s: State)
    requires Inv(s)
    ensures Inv(InitMutexStep(s))
  {
    var w := InitMutexStep(s);
    assert s.nextMutex !in s.mutexes by { assert Obeys(s, NamesRule); }
    assert forall m :: Mx(w, m) == Mx(s, m);
    assert Obeys(s, RunRule) && Obeys(s, NamesRule);
    SameViewKeeps(s, w);
  }

  // ---------------------------------------------------------------- any step

  lemma StepKeeps(s: State, a: Action, w: State)
    requires Inv(s) && IsStep(s, a, w)
    ensures Inv(w)
  {
    OpenStep(s, a, w);
    match a
    case Create(born) => CreateKeeps(s, born);
    case InitMutex => InitMutexKeeps(s);
    case CallLock(m) => MoveKeeps(s, TryLock(m));
    case TestAndSet => TestAndSetKeeps(s, s.threads[s.running].pc.m);
    case Recheck => RecheckKeeps(s, s.threads[s.running].pc.m);
    case Unlock(m) => UnlockKeeps(s, m);
    case Join(u) => JoinKeeps(s, u);
    case JoinReturn => MoveKeeps(s, User);
    case Exit => ExitKeeps(s);
    case Yield => YieldKeeps(s);
    case Preempt => ScheduleKeeps(s);
  }
}
