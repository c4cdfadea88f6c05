/** What holds in every run of the thread library, with any number of threads and mutexes and with
    preemption between any two steps. */
module ThreadRuns {
  import opened LinkedQueue
  import opened ThreadState
  import opened ThreadInvariant
  import opened ThreadSteps

  ghost predicate RunFrom(born: nat, states: seq<State>, actions: seq<Action>) {
    IsRun(states, actions) && states[0] == Start(born)
  }

  lemma {:induction false} InvAlways(born: nat, states: seq<State>, actions: seq<Action>, k: nat)
    requires RunFrom(born, states, actions) && k <= |actions|
    ensures Inv(states[k])
  {
    if k == 0 {
      StartOk(born);
    } else {
      InvAlways(born, states, actions, k - 1);
      StepKeeps(states[k - 1], actions[k - 1], states[k]);
    }
  }

  // ---------------------------------------------------------------- mutual exclusion

  /** With action `a`, whatever it is, thread `t` comes back to user code from anywhere inside its call to lock `m`. */
  ghost predicate ReturnsFromLock(s: State, a: Action, w: State, t: Tid, m: Mid) {
    && s.running == t && Th(w, t).pc.User?
    && (Th(s, t).pc == TryLock(m) || Th(s, t).pc == Failed(m) || Th(s, t).pc == LockWait(m))
  }

  ghost predicate Unlocks(s: State, a: Action, t: Tid, m: Mid) { a == Unlock(m) && s.running == t }

  /** Step `i` is a return of `t` from locking `m`, and `t` has not unlocked it up to step `k`. */
  ghost predicate InsideSince(states: seq<State>, actions: seq<Action>, i: nat, k: nat, t: Tid, m: Mid)
    requires |states| == |actions| + 1 && k <= |actions|
  {
    && i < k && ReturnsFromLock(states[i], actions[i], states[i + 1], t, m)
    && forall j :: i < j < k ==> !Unlocks(states[j], actions[j], t, m)
  }

  /** Before step `k`, thread `t` has returned from locking `m` and has not unlocked it since. */
  ghost predicate Inside(states: seq<State>, actions: seq<Action>, k: nat, t: Tid, m: Mid)
    requires |states| == |actions| + 1 && k <= |actions|
  {
    exists i :: InsideSince(states, actions, i, k, t, m)
  }

  lemma RoundKeepsThread(s: State, w: State, t: Tid)
    requires s.running in s.threads && w == ScheduleStep(s)
    ensures Th(w, t) == Th(s, t).(priority := Th(w, t).priority)
  {
  }

  lemma YieldKeepsThread(s: State, w: State, t: Tid)
    requires s.running in s.threads && w == YieldStep(s)
    ensures Th(w, t) == Th(s, t).(priority := Th(w, t).priority)
  {
    var th := s.threads[s.running];
    RoundKeepsThread(WithThread(s, s.running, if th.priority > 0 then th.(priority := th.priority - 1) else th), w, t);
  }

  /** A round of the scheduler changes nothing about a thread but its priority. */
  lemma RoundKeeps(s: State, a: Action, w: State, t: Tid)
    requires IsStep(s, a, w) && (a.Preempt? || a.Yield?)
    ensures Th(w, t) == Th(s, t).(priority := Th(w, t).priority)
  {
    OpenStep(s, a, w);
    if a.Yield? { YieldKeepsThread(s, w, t); } else { RoundKeepsThread(s, w, t); }
  }

  /** The program counter of every thread after a step. Only the running thread moves. */
  lemma PcChanges(s: State, a: Action, w: State, t: Tid)
    requires Inv(s) && IsStep(s, a, w)
    ensures t in s.threads && t != s.running ==> Th(w, t).pc == Th(s, t).pc
    ensures var pc, next := Th(s, s.running).pc, Th(w, s.running).pc;
            match a
            case CallLock(m) => pc == User && next == TryLock(m)
            case TestAndSet =>
              (pc.TryLock? || pc.LockWait?) && next == if Mx(s, pc.m).locked then Failed(pc.m) else User
            case Recheck => pc.Failed? && next == if Mx(s, pc.m).locked then LockWait(pc.m) else TryLock(pc.m)
            case Join(u) => pc == User && next == if Th(s, u).finished then User else Joining(u)
            case JoinReturn => pc.Joining? && next == User
            case Preempt => next == pc
            case _ => pc == User && next == User
  {
    if a.Preempt? || a.Yield? {
      RoundKeeps(s, a, w, t);
      RoundKeeps(s, a, w, s.running);
      assert Enabled(s, a) by { OpenStep(s, a, w); }
    } else {
      PcMoves(s, a, w, t);
    }
  }

  lemma PcMoves(s: State, a: Action, w: State, t: Tid)
    requires Inv(s) && IsStep(s, a, w) && !a.Preempt? && !a.Yield?
    ensures t in s.threads && t != s.running ==> Th(w, t).pc == Th(s, t).pc
    ensures var pc, next := Th(s, s.running).pc, Th(w, s.running).pc;
            match a
            case CallLock(m) => pc == User && next == TryLock(m)
            case TestAndSet =>
              (pc.TryLock? || pc.LockWait?) && next == if Mx(s, pc.m).locked then Failed(pc.m) else User
            case Recheck => pc.Failed? && next == if Mx(s, pc.m).locked then LockWait(pc.m) else TryLock(pc.m)
            case Join(u) => pc == User && next == if Th(s, u).finished then User else Joining(u)
            case JoinReturn => pc.Joining? && next == User
            case _ => pc == User && next == User
  {
    OpenStep(s, a, w);
    if a.Create? { assert s.nextId !in s.threads by { assert Obeys(s, NamesRule); } }
  }

  /** A lock call returns only by a test-and-set that finds the mutex free, and leaves it locked and held by the
      caller. */
  lemma LockReturns(s: State, a: Action, w: State, t: Tid, m: Mid)
    requires Inv(s) && IsStep(s, a, w) && ReturnsFromLock(s, a, w, t, m)
    ensures a.TestAndSet? && !Mx(s, m).locked && Mx(w, m).locked && m in Th(w, t).held
  {
    PcChanges(s, a, w, t);
    OpenStep(s, a, w);
  }

  lemma HeldChanges(s: State, a: Action, w: State, t: Tid, m: Mid)
    requires Inv(s) && IsStep(s, a, w)
    ensures m in Th(w, t).held <==> ReturnsFromLock(s, a, w, t, m) || (m in Th(s, t).held && !Unlocks(s, a, t, m))
  {
    if ReturnsFromLock(s, a, w, t, m) { LockReturns(s, a, w, t, m); }
    if a.TestAndSet? || a.Unlock? { OpenStep(s, a, w); } else { HeldStays(s, a, w, t); }
  }

  lemma HeldStays(s: State, a: Action, w: State, t: Tid)
    requires Inv(s) && IsStep(s, a, w) && !a.TestAndSet? && !a.Unlock?
    ensures Th(w, t).held == Th(s, t).held
  {
    if a.Preempt? || a.Yield? {
      RoundKeeps(s, a, w, t);
    } else {
      OpenStep(s, a, w);
      if a.Create? { assert s.nextId !in s.threads by { assert Obeys(s, NamesRule); } }
    }
  }

  lemma InsideChanges(states: seq<State>, actions: seq<Action>, k: nat, t: Tid, m: Mid)
    requires |states| == |actions| + 1 && k < |actions|
    ensures Inside(states, actions, k + 1, t, m) <==>
              ReturnsFromLock(states[k], actions[k], states[k + 1], t, m)
              || (Inside(states, actions, k, t, m) && !Unlocks(states[k], actions[k], t, m))
  {
    if Inside(states, actions, k + 1, t, m) {
      var i: nat :| InsideSince(states, actions, i, k + 1, t, m);
      if i < k { assert InsideSince(states, actions, i, k, t, m); }
    }
    if ReturnsFromLock(states[k], actions[k], states[k + 1], t, m) {
      assert InsideSince(states, actions, k, k + 1, t, m);
    } else if Inside(states, actions, k, t, m) && !Unlocks(states[k], actions[k], t, m) {
      var i: nat :| InsideSince(states, actions, i, k, t, m);
      assert InsideSince(states, actions, i, k + 1, t, m);
    }
  }

  lemma {:induction false} InsideIsHeld(born: nat, states: seq<State>, actions: seq<Action>, k: nat, t: Tid, m: Mid)
    requires RunFrom(born, states, actions) && k <= |actions|
    ensures Inside(states, actions, k, t, m) <==> m in Th(states[k], t).held
  {
    if k > 0 {
      InvAlways(born, states, actions, k - 1);
      InsideIsHeld(born, states, actions, k - 1, t, m);
      InsideChanges(states, actions, k - 1, t, m);
      HeldChanges(states[k - 1], actions[k - 1], states[k], t, m);
    }
  }

  /** At most one thread is between a returned lock and its unlock. */
  lemma MutualExclusion(born: nat, states: seq<State>, actions: seq<Action>, k: nat, m: Mid, t: Tid, u: Tid)
    requires RunFrom(born, states, actions) && k <= |actions|
    requires Inside(states, actions, k, t, m) && Inside(states, actions, k, u, m)
    ensures t == u
  {
    InvAlways(born, states, actions, k);
    InsideIsHeld(born, states, actions, k, t, m);
    InsideIsHeld(born, states, actions, k, u, m);
    assert Obeys(states[k], HeldRule);
  }

  /** Whatever step returns from a lock call, nobody was inside the mutex before it, and the caller alone is after it. */
  lemma LockReturnsInside(born: nat, states: seq<State>, actions: seq<Action>, k: nat, t: Tid, m: Mid, u: Tid)
    requires RunFrom(born, states, actions) && k < |actions|
    requires ReturnsFromLock(states[k], actions[k], states[k + 1], t, m)
    ensures !Inside(states, actions, k, u, m) && (Inside(states, actions, k + 1, u, m) <==> u == t)
  {
    InvAlways(born, states, actions, k);
    LockReturns(states[k], actions[k], states[k + 1], t, m);
    LockedIffInside(born, states, actions, k, m);
    InsideChanges(states, actions, k, u, m);
  }

  /** A mutex is marked locked exactly while some thread is inside it. */
  lemma LockedIffInside(born: nat, states: seq<State>, actions: seq<Action>, k: nat, m: Mid)
    requires RunFrom(born, states, actions) && k <= |actions|
    ensures Mx(states[k], m).locked <==> exists t :: Inside(states, actions, k, t, m)
  {
    InvAlways(born, states, actions, k);
    assert Obeys(states[k], HeldRule);
    forall t ensures Inside(states, actions, k, t, m) <==> m in Th(states[k], t).held {
      InsideIsHeld(born, states, actions, k, t, m);
    }
  }

  /** While someone waits for a mutex, a thread is inside it, or a thread that will try again is runnable. */
  lemma NoLostWakeup(born: nat, states: seq<State>, actions: seq<Action>, k: nat, m: Mid)
    requires RunFrom(born, states, actions) && k <= |actions| && Mx(states[k], m).wait != []
    ensures (exists t :: Inside(states, actions, k, t, m)) || exists t :: Contender(states[k], t, m)
  {
    InvAlways(born, states, actions, k);
    LockedIffInside(born, states, actions, k, m);
    assert Obeys(states[k], WakeRule);
  }

  // ---------------------------------------------------------------- conservation

  datatype Place = Processor | RunQueue(i: nat) | JoinQueue(u: Tid, i: nat) | WaitQueue(m: Mid, i: nat) | Done

  ghost predicate Sits(s: State, t: Tid, p: Place) {
    match p
    case Processor => OnCpu(s, t)
    case RunQueue(i) => i < |s.run| && s.run[i] == t
    case JoinQueue(u, i) => i < |Th(s, u).joiners| && Th(s, u).joiners[i] == t
    case WaitQueue(m, i) => i < |Mx(s, m).wait| && Mx(s, m).wait[i] == t
    case Done => t in s.threads && Th(s, t).finished
  }

  /** Where a thread sits shows in its program counter, in being finished and in being runnable. */
  lemma PlaceShows(s: State, t: Tid, p: Place)
    requires Inv(s) && Sits(s, t, p)
    ensures t in s.threads && Th(s, t).finished == p.Done? && (Runnable(s, t) <==> p.Processor? || p.RunQueue?)
    ensures (p.JoinQueue? ==> Th(s, t).pc == Joining(p.u)) && (p.WaitQueue? ==> Th(s, t).pc == LockWait(p.m))
  {
    assert Obeys(s, RunRule) && Obeys(s, WaitRule) && Obeys(s, JoinRule);
    match p
    case JoinQueue(u, i) => assert t in Th(s, u).joiners;
    case WaitQueue(m, i) => assert t in Mx(s, m).wait;
    case _ =>
  }

  lemma OnePlaceAtMost(s: State, t: Tid, p: Place, q: Place)
    requires Inv(s) && Sits(s, t, p) && Sits(s, t, q)
    ensures p == q && t in s.threads
  {
    PlaceShows(s, t, p);
    PlaceShows(s, t, q);
    assert Obeys(s, RunRule) && Obeys(s, WaitRule) && Obeys(s, JoinRule);
    if p.JoinQueue? && q.JoinQueue? {
      assert Distinct(Th(s, p.u).joiners);
    } else if p.WaitQueue? && q.WaitQueue? {
      assert Distinct(Mx(s, p.m).wait);
    }
  }

  lemma SomePlace(s: State, t: Tid) returns (p: Place)
    requires Inv(s) && t in s.threads
    ensures Sits(s, t, p)
  {
    if Th(s, t).finished { return Done; }
    if OnCpu(s, t) { return Processor; }
    if t in s.run {
      var i :| 0 <= i < |s.run| && s.run[i] == t;
      return RunQueue(i);
    }
    assert Obeys(s, BlockedRule);
    assert InItsQueue(s, t);
    var pc := Th(s, t).pc;
    if pc.LockWait? {
      var wait := Mx(s, pc.m).wait;
      var i :| 0 <= i < |wait| && wait[i] == t;
      return WaitQueue(pc.m, i);
    } else {
      var joiners := Th(s, pc.u).joiners;
      var i :| 0 <= i < |joiners| && joiners[i] == t;
      return JoinQueue(pc.u, i);
    }
  }

  lemma ThreadsStay(s: State, a: Action, w: State)
    requires IsStep(s, a, w)
    ensures s.threads.Keys <= w.threads.Keys
  {
    OpenStep(s, a, w);
  }

  /** In every state of every run, also the last one, every thread ever created is in exactly one
      place, and nothing else is in any place. */
  lemma ThreadsAreConserved(born: nat, states: seq<State>, actions: seq<Action>, j: nat, k: nat, t: Tid)
    requires RunFrom(born, states, actions) && j <= k <= |actions|
    ensures t in states[j].threads ==> exists p :: Sits(states[k], t, p)
    ensures forall p, q :: Sits(states[k], t, p) && Sits(states[k], t, q) ==> p == q
    ensures (exists p :: Sits(states[k], t, p)) ==> t in states[k].threads
  {
    InvAlways(born, states, actions, k);
    forall p, q | Sits(states[k], t, p) && Sits(states[k], t, q) ensures p == q && t in states[k].threads {
      OnePlaceAtMost(states[k], t, p, q);
    }
    if t in states[j].threads {
      CreatedStays(states, actions, j, k);
      var p := SomePlace(states[k], t);
    }
  }

  lemma {:induction false} CreatedStays(states: seq<State>, actions: seq<Action>, j: nat, k: nat)
    requires IsRun(states, actions) && j <= k <= |actions|
    ensures states[j].threads.Keys <= states[k].threads.Keys
    decreases k
  {
    if j < k {
      CreatedStays(states, actions, j, k - 1);
      ThreadsStay(states[k - 1], actions[k - 1], states[k]);
    }
  }

  // ---------------------------------------------------------------- join

  /** Nobody waits for a finished thread, and a blocked join resumes only when its target has finished. */
  lemma JoinSafety(born: nat, states: seq<State>, actions: seq<Action>, k: nat, t: Tid, u: Tid)
    requires RunFrom(born, states, actions) && k <= |actions|
    ensures t in Th(states[k], u).joiners ==>
              u in states[k].threads && !Th(states[k], u).finished && Th(states[k], t).pc == Joining(u)
    ensures Runnable(states[k], t) && Th(states[k], t).pc == Joining(u) ==>
              u in states[k].threads && Th(states[k], u).finished
    ensures t in states[k].threads && Th(states[k], t).pc == Joining(u) && !Th(states[k], t).finished ==>
            (Runnable(states[k], t) || t in Th(states[k], u).joiners)
  {
    InvAlways(born, states, actions, k);
    assert Obeys(states[k], JoinRule) && Obeys(states[k], ResumedRule) && Obeys(states[k], BlockedRule);
    if Runnable(states[k], t) && Th(states[k], t).pc == Joining(u) { assert Resumed(states[k], t); }
    assert InItsQueue(states[k], t) ==> Th(states[k], t).pc == Joining(u) ==> t in Th(states[k], u).joiners;
  }

  /** exit marks the running thread finished, empties its join queue and makes everyone in it runnable. */
  lemma ExitReleasesJoiners(born: nat, states: seq<State>, actions: seq<Action>, k: nat)
    requires RunFrom(born, states, actions) && k < |actions| && actions[k].Exit?
    ensures var s, w := states[k], states[k + 1];
            && Th(w, s.running).finished && Th(w, s.running).joiners == []
            && forall t :: t in Th(s, s.running).joiners ==> Runnable(w, t)
  {
    var s, w := states[k], states[k + 1];
    OpenStep(s, Exit, w);
    ReorderedMembers(Th(s, s.running).joiners, Priorities(s.threads), s.run);
    assert w == ExitStep(s);
  }

  // ---------------------------------------------------------------- the pop in lock

  /** With action `a` the running thread stops being runnable. */
  ghost predicate Leaves(s: State, a: Action) {
    match a
    case Recheck => Th(s, s.running).pc.Failed? && Mx(s, Th(s, s.running).pc.m).locked
    case Join(u) => !Th(s, u).finished
    case Exit => true
    case _ => false
  }

  /** Threads stop being runnable only by their own call. */
  lemma OthersStayRunnable(s: State, a: Action, w: State, t: Tid)
    requires IsStep(s, a, w) && Runnable(s, t) && (t == s.running ==> !Leaves(s, a))
    ensures Runnable(w, t)
  {
    OpenStep(s, a, w);
    match a
    case Create(born) => InsertedMembers(s.run, Priorities(w.threads), s.nextId);
    case Unlock(m) => UnlockStays(s, m, t);
    case Exit => ReorderedMembers(s.threads[s.running].joiners, Priorities(s.threads), s.run);
    case Yield =>
      var th := s.threads[s.running];
      ScheduleStays(WithThread(s, s.running, if th.priority > 0 then th.(priority := th.priority - 1) else th), t);
    case Preempt => ScheduleStays(s, t);
    case _ =>
  }

  lemma UnlockStays(s: State, m: Mid, t: Tid)
    requires s.running in s.threads && m in s.mutexes && Runnable(s, t)
    ensures Runnable(UnlockStep(s, m), t)
  {
    if s.mutexes[m].wait != [] { InsertedMembers(s.run, Priorities(UnlockStep(s, m).threads), s.mutexes[m].wait[0]); }
  }

  lemma ScheduleStays(s: State, t: Tid)
    requires s.running in s.threads && s.status.Active? && Runnable(s, t)
    ensures Runnable(ScheduleStep(s), t)
  {
    ReorderedMembers(s.run, BirthTimes(s.threads), []);
    var run := Aged(s);
    if run != [] {
      InsertedMembers(run[1..], Priorities(ScheduleStep(s).threads), s.running);
      if t in run { FrontOrRest(run, t); }
    }
  }

  lemma FrontOrRest(q: seq<Tid>, t: Tid)
    requires q != [] && t in q
    ensures t == q[0] || t in q[1..]
  {
    assert q == [q[0]] + q[1..];
  }

  /** Clients that never block or exit while they hold a mutex; relocking one's own mutex is such a block. */
  ghost predicate Disciplined(states: seq<State>, actions: seq<Action>)
    requires |states| == |actions| + 1
  {
    forall k :: 0 <= k < |actions| && Leaves(states[k], actions[k]) ==> Th(states[k], states[k].running).held == {}
  }

  ghost predicate HoldersRunnable(s: State) { forall t :: Th(s, t).held != {} ==> Runnable(s, t) }

  lemma {:induction false} HoldersStayRunnable(born: nat, states: seq<State>, actions: seq<Action>, k: nat)
    requires RunFrom(born, states, actions) && Disciplined(states, actions) && k <= |actions|
    ensures HoldersRunnable(states[k])
  {
    if k > 0 {
      var s, a, w := states[k - 1], actions[k - 1], states[k];
      InvAlways(born, states, actions, k - 1);
      HoldersStayRunnable(born, states, actions, k - 1);
      assert s.status.Active? by { OpenStep(s, a, w); }
      forall t | Th(w, t).held != {} ensures Runnable(w, t) {
        var m :| m in Th(w, t).held;
        HeldChanges(s, a, w, t, m);
        assert Runnable(s, t);
        if ReturnsFromLock(s, a, w, t, m) { LockReturns(s, a, w, t, m); }
        OthersStayRunnable(s, a, w, t);
      }
    }
  }

  /** When a lock call of a disciplined run blocks, the holder of the mutex is in the run queue. */
  lemma HolderIsQueued(born: nat, states: seq<State>, actions: seq<Action>, k: nat)
    requires RunFrom(born, states, actions) && Disciplined(states, actions) && k < |actions|
    requires actions[k].Recheck? && Leaves(states[k], actions[k])
    ensures exists t :: t in states[k].run && Inside(states, actions, k, t, states[k].threads[states[k].running].pc.m)
  {
    var s := states[k];
    var m := s.threads[s.running].pc.m;
    HoldersStayRunnable(born, states, actions, k);
    LockedIffInside(born, states, actions, k, m);
    assert Mx(s, m).locked;
    var t :| Inside(states, actions, k, t, m);
    InsideIsHeld(born, states, actions, k, t, m);
    assert Th(s, s.running).held == {};
  }

  /** The library faults exactly when a lock call blocks with nobody in the run queue. */
  lemma FaultsExactly(s: State, a: Action, w: State)
    requires IsStep(s, a, w)
    ensures w.status.Faulted? <==> a.Recheck? && Leaves(s, a) && s.run == []
  {
    OpenStep(s, a, w);
  }

  /** So the run queue is never popped while empty. */
  lemma LockNeverPopsEmpty(born: nat, states: seq<State>, actions: seq<Action>, k: nat)
    requires RunFrom(born, states, actions) && Disciplined(states, actions) && k <= |actions|
    ensures !states[k].status.Faulted?
  {
    if k > 0 {
      FaultsExactly(states[k - 1], actions[k - 1], states[k]);
      if actions[k - 1].Recheck? && Leaves(states[k - 1], actions[k - 1]) {
        HolderIsQueued(born, states, actions, k - 1);
      }
    }
  }

  /** Without the discipline it can happen: one thread locks its own mutex again. */
  lemma RelockFaults(born: nat)
    ensures exists states: seq<State>, actions: seq<Action> ::
              RunFrom(born, states, actions) && states[|actions|].status.Faulted?
  {
    var s0 := Start(born);
    var s1 := Next(s0, InitMutex);
    var s2 := Next(s1, CallLock(0));
    var s3 := Next(s2, TestAndSet);
    var s4 := Next(s3, CallLock(0));
    var s5 := Next(s4, TestAndSet);
    var s6 := Next(s5, Recheck);
    assert s6.status.Faulted?;
    var states := [s0, s1, s2, s3, s4, s5, s6];
    var actions := [InitMutex, CallLock(0), TestAndSet, CallLock(0), TestAndSet, Recheck];
    assert RunFrom(born, states, actions);
  }

  // ---------------------------------------------------------------- who waits and who runs next

  /** With action `a` the running thread queues up for `m`. */
  ghost predicate QueuesUp(s: State, a: Action, m: Mid) { a.Recheck? && Th(s, s.running).pc == Failed(m)
      && Mx(s, m).locked }

  /** With action `a` the front of the queue of `m` is woken. */
  ghost predicate WakesOne(s: State, a: Action, m: Mid) { a == Unlock(m) && Mx(s, m).wait != [] }

  /** The threads that have queued up for `m` in the first `k` steps, in order. */
  ghost function Arrivals(states: seq<State>, actions: seq<Action>, k: nat, m: Mid): seq<Tid>
    requires |states| == |actions| + 1 && k <= |actions|
  {
    if k == 0 then []
    else Arrivals(states, actions, k - 1, m) + if QueuesUp(states[k - 1], actions[k - 1], m)
        then [states[k - 1].running] else []
  }

  ghost function Wakeups(states: seq<State>, actions: seq<Action>, k: nat, m: Mid): nat
    requires |states| == |actions| + 1 && k <= |actions|
  {
    if k == 0 then 0
    else Wakeups(states, actions, k - 1, m) + if WakesOne(states[k - 1], actions[k - 1], m) then 1 else 0
  }

  lemma WaitChanges(s: State, a: Action, w: State, m: Mid)
    requires Inv(s) && IsStep(s, a, w)
    ensures Mx(w, m).wait == if QueuesUp(s, a, m) then Mx(s, m).wait + [s.running]
                             else if WakesOne(s, a, m) then Mx(s, m).wait[1..] else Mx(s, m).wait
    ensures WakesOne(s, a, m) ==> Runnable(w, Mx(s, m).wait[0])
  {
    OpenStep(s, a, w);
    match a
    case InitMutex => assert s.nextMutex !in s.mutexes by { assert Obeys(s, NamesRule); }
    case Unlock(n) => WaitWhenUnlocked(s, n, w, m);
    case Recheck => WaitWhenRechecked(s, Th(s, s.running).pc.m, w, m);
    case _ => assert w.mutexes == s.mutexes || a.TestAndSet?;
  }

  lemma WaitWhenUnlocked(s: State, n: Mid, w: State, m: Mid)
    requires s.running in s.threads && s.status.Active? && n in s.mutexes && w == UnlockStep(s, n)
    ensures Mx(w, m).wait == if n == m && Mx(s, m).wait != [] then Mx(s, m).wait[1..] else Mx(s, m).wait
    ensures n == m && Mx(s, m).wait != [] ==> Runnable(w, Mx(s, m).wait[0])
  {
    if Mx(s, n).wait != [] { InsertedMembers(s.run, Priorities(w.threads), Mx(s, n).wait[0]); }
  }

  lemma WaitWhenRechecked(s: State, n: Mid, w: State, m: Mid)
    requires s.running in s.threads && n in s.mutexes && w == RecheckStep(s, n)
    ensures Mx(w, m).wait == if n == m && Mx(s, m).locked then Mx(s, m).wait + [s.running] else Mx(s, m).wait
  {
  }

  /** What is left of a queue after some have joined it or gone. */
  lemma Dequeued(a: seq<Tid>, d: nat, joined: seq<Tid>, gone: nat)
    requires d + gone <= |a|
    ensures (a + joined)[d + gone..] == a[d..][gone..] + joined
  {
  }

  /** Threads are woken from a mutex in the order in which they queued up for it: the queue is always the
      arrivals so far without as many as have been woken. */
  lemma {:induction false} WaitersInOrderOfArrival(born: nat, states: seq<State>, actions: seq<Action>, k: nat, m: Mid)
    requires RunFrom(born, states, actions) && k <= |actions|
    ensures var a, d := Arrivals(states, actions, k, m), Wakeups(states, actions, k, m);
            d <= |a| && Mx(states[k], m).wait == a[d..]
  {
    if k > 0 {
      InvAlways(born, states, actions, k - 1);
      WaitersInOrderOfArrival(born, states, actions, k - 1, m);
      var s, a := states[k - 1], actions[k - 1];
      assert IsStep(s, a, states[k]);
      WaitChanges(s, a, states[k], m);
      var joined, gone := if QueuesUp(s, a, m) then [s.running] else [], if WakesOne(s, a, m) then 1 else 0;
      Dequeued(Arrivals(states, actions, k - 1, m), Wakeups(states, actions, k - 1, m), joined, gone);
    }
  }

  /** An interrupted or yielding thread gives way to another one whenever there is one. */
  lemma SchedulerSwitches(born: nat, states: seq<State>, actions: seq<Action>, k: nat)
    requires RunFrom(born, states, actions) && k < |actions| && (actions[k].Preempt? || actions[k].Yield?)
    ensures var s, w := states[k], states[k + 1];
            if s.run == [] then w.running == s.running && w.run == []
            else w.running in s.run && s.running in w.run && w.running != s.running
  {
    InvAlways(born, states, actions, k);
    StepSwitches(states[k], actions[k], states[k + 1]);
  }

  lemma StepSwitches(s: State, a: Action, w: State)
    requires Inv(s) && IsStep(s, a, w) && (a.Preempt? || a.Yield?)
    ensures if s.run == [] then w.running == s.running && w.run == []
            else w.running in s.run && s.running in w.run && w.running != s.running
  {
    OpenStep(s, a, w);
    assert s.running !in s.run && Distinct(s.run) by { assert Obeys(s, RunRule); }
    if a.Preempt? { SwitchesFrom(s); } else { YieldSwitches(s); }
  }

  lemma YieldSwitches(s: State)
    requires s.running in s.threads && s.status.Active? && s.running !in s.run && Distinct(s.run)
    ensures var w := YieldStep(s);
            if s.run == [] then w.running == s.running && w.run == []
            else w.running in s.run && s.running in w.run && w.running != s.running
  {
    var th := s.threads[s.running];
    SwitchesFrom(WithThread(s, s.running, if th.priority > 0 then th.(priority := th.priority - 1) else th));
  }

  lemma SwitchesFrom(s: State)
    requires s.running in s.threads && s.status.Active? && s.running !in s.run && Distinct(s.run)
    ensures var w := ScheduleStep(s);
            if s.run == [] then w.running == s.running && w.run == []
            else w.running in s.run && s.running in w.run && w.running != s.running
  {
    var w := ScheduleStep(s);
    AgedMembers(s);
    assert s.run != [] ==> s.run[0] in Aged(s);
    if Aged(s) != [] {
      assert Aged(s)[0] in s.run;
      InsertedMembers(Aged(s)[1..], Priorities(w.threads), s.running);
    }
  }

  // ---------------------------------------------------------------- priorities and rounds

  /** With action `a` the priority number of `t` goes up: it is interrupted, or it yields at 0. */
  ghost predicate Ages(s: State, a: Action, t: Tid) {
    s.running == t && (a.Preempt? || (a.Yield? && Th(s, t).priority == 0))
  }

  ghost function TimesAged(states: seq<State>, actions: seq<Action>, k: nat, t: Tid): nat
    requires |states| == |actions| + 1 && k <= |actions|
  {
    if k == 0 then 0 else TimesAged(states, actions, k - 1, t) + if Ages(states[k - 1], actions[k - 1], t) then 1 else 0
  }

  ghost function Rounds(actions: seq<Action>, k: nat): nat
    requires k <= |actions|
  {
    if k == 0 then 0 else Rounds(actions, k - 1) + if actions[k - 1].Preempt? || actions[k - 1].Yield? then 1 else 0
  }

  lemma PriorityChanges(s: State, a: Action, w: State, t: Tid)
    requires Inv(s) && IsStep(s, a, w)
    ensures Th(w, t).priority == Th(s, t).priority + if Ages(s, a, t) then 1 else 0
  {
    OpenStep(s, a, w);
    match a
    case Create(_) => assert s.nextId !in s.threads by { assert Obeys(s, NamesRule); }
    case Yield => PriorityWhenYielding(s, w, t);
    case Preempt => PriorityWhenScheduled(s, w, t);
    case Exit => PriorityWhenExiting(s, w, t);
    case Join(u) => PriorityWhenJoining(s, u, w, t);
    case _ =>
  }

  lemma PriorityWhenExiting(s: State, w: State, t: Tid)
    requires s.running in s.threads && w == ExitStep(s)
    ensures Th(w, t).priority == Th(s, t).priority
  {
  }

  lemma PriorityWhenJoining(s: State, u: Tid, w: State, t: Tid)
    requires s.running in s.threads && u in s.threads && w == JoinStep(s, u)
    ensures Th(w, t).priority == Th(s, t).priority
  {
  }

  lemma PriorityWhenScheduled(s: State, w: State, t: Tid)
    requires s.running in s.threads && w == ScheduleStep(s)
    ensures Th(w, t).priority == if t == s.running then Th(s, t).priority + 1 else Th(s, t).priority
  {
  }

  lemma PriorityWhenYielding(s: State, w: State, t: Tid)
    requires s.running in s.threads && w == YieldStep(s)
    ensures Th(w, t).priority == if t == s.running && Th(s, t).priority == 0 then 1 else Th(s, t).priority
  {
    var th := s.threads[s.running];
    PriorityWhenScheduled(WithThread(s, s.running, if th.priority > 0 then th.(priority := th.priority - 1)
        else th), w, t);
  }

  /** A thread's priority number is how often it was interrupted or yielded at 0; the run queue is
      ordered by age in every 151st round of the scheduler. */
  lemma {:induction false} PriorityCountsInterrupts(born: nat, states: seq<State>, actions: seq<Action>, k: nat, t: Tid)
    requires RunFrom(born, states, actions) && k <= |actions|
    ensures Th(states[k], t).priority == TimesAged(states, actions, k, t)
    ensures states[k].nSchedulings == Rounds(actions, k) % 151
  {
    if k > 0 {
      InvAlways(born, states, actions, k - 1);
      PriorityCountsInterrupts(born, states, actions, k - 1, t);
      PriorityChanges(states[k - 1], actions[k - 1], states[k], t);
      RoundsChange(states[k - 1], actions[k - 1], states[k]);
    }
  }

  lemma RoundsChange(s: State, a: Action, w: State)
    requires IsStep(s, a, w)
    ensures w.nSchedulings == if !(a.Preempt? || a.Yield?) then s.nSchedulings
            else if s.nSchedulings >= 150 then 0 else s.nSchedulings + 1
  {
    OpenStep(s, a, w);
  }
}
