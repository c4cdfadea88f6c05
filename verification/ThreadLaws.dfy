/** What a step does to each part of the state: who runs next, how the queues change, and what stays recorded about a
    thread. Nothing here speaks of how a step is computed. */
module ThreadLaws {
  import opened LinkedQueue
  import opened ThreadState
  import opened ThreadInvariant
  import opened ThreadRuns

  // ---------------------------------------------------------------- the end, and who runs next

  /** The library ends exactly with an exit, or a join that blocks, after which no thread is runnable: the run queue
      was empty, and nobody waited for the exiting thread. */
  lemma EndsExactly(s: State, a: Action, w: State)
    requires IsStep(s, a, w)
    ensures w.status.Ended? <==> (a.Exit? || (a.Join? && Leaves(s, a))) && forall t :: !Runnable(w, t)
    ensures w.status.Ended? <==>
              s.run == [] && ((a.Exit? && Th(s, s.running).joiners == []) || (a.Join? && Leaves(s, a)))
    ensures !w.status.Active? ==> w.run == []
  {
    OpenStep(s, a, w);
    if a.Exit? { ExitEnds(s, w); }
    assert w.status.Active? ==> Runnable(w, w.running);
  }

  lemma ExitEnds(s: State, w: State)
    requires s.running in s.threads && s.status.Active? && w == ExitStep(s)
    ensures w.status == if s.run == [] && s.threads[s.running].joiners == [] then Ended else Active
    ensures w.status.Ended? ==> w.run == []
    ensures w.running == NextToRun(s, Exit)
  {
    var joiners, key := s.threads[s.running].joiners, Priorities(s.threads);
    if s.run != [] {
      HeadStays(joiners, key, s.run);
    } else if joiners != [] {
      HeadOfReordered(joiners, key);
    }
  }

  /** With action `a` the running thread gives up the processor. */
  ghost predicate GivesUp(s: State, a: Action) { Leaves(s, a) || a.Preempt? || a.Yield? }

  /** Who runs after action `a`: the front of the run queue if the running thread gives up the processor; after an
      exit with an empty run queue, the first thread that waited for it. */
  ghost function NextToRun(s: State, a: Action): Tid {
    if !GivesUp(s, a) then s.running
    else if s.run != [] then s.run[0]
    else if a.Exit? && Th(s, s.running).joiners != [] then Th(s, s.running).joiners[0]
    else s.running
  }

  lemma NextThread(s: State, a: Action, w: State)
    requires IsStep(s, a, w)
    ensures w.running == NextToRun(s, a)
  {
    OpenStep(s, a, w);
    match a
    case Exit => ExitEnds(s, w);
    case Preempt => FrontRuns(s, w);
    case Yield =>
      var th := s.threads[s.running];
      FrontRuns(WithThread(s, s.running, if th.priority > 0 then th.(priority := th.priority - 1) else th), w);
    case _ =>
  }

  lemma FrontRuns(s: State, w: State)
    requires s.running in s.threads && w == ScheduleStep(s)
    ensures w.running == if s.run == [] then s.running else s.run[0]
  {
    if s.run != [] { HeadOfReordered(s.run, BirthTimes(s.threads)); }
  }

  // ---------------------------------------------------------------- the order of the queues

  /** The queues are ordered by what is recorded in the threads. */
  lemma KeysAreRecorded(s: State, t: Tid)
    ensures At(Priorities(s.threads), t) == Th(s, t).priority && At(BirthTimes(s.threads), t) == Th(s, t).born
  {
  }

  lemma SameKeys(s: State, w: State)
    requires w.threads.Keys == s.threads.Keys && forall t :: Th(w, t).priority == Th(s, t).priority
    ensures Priorities(w.threads) == Priorities(s.threads)
  {
    forall t | t in s.threads ensures w.threads[t].priority == s.threads[t].priority {
      assert Th(w, t).priority == Th(s, t).priority;
    }
  }

  /** How a step changes the run queue. Threads leave it at the front only. Newly created, woken and interrupted
      threads are pushed by the priorities recorded after the step; an exit pushes everyone who waited for it. In
      every 151st round the queue is first ordered by age. */
  lemma RunQueueChanges(s: State, a: Action, w: State)
    requires IsStep(s, a, w)
    ensures var key := Priorities(w.threads);
            match a
            case Create(_) => Pushed(s.run, key, s.nextId, w.run)
            case Unlock(m) =>
              if Mx(s, m).wait == [] then w.run == s.run else Pushed(s.run, key, Mx(s, m).wait[0], w.run)
            case Exit => exists q :: AllPushed(s.run, key, Th(s, s.running).joiners, q) && w.run == Popped(q)
            case Preempt => exists q :: Counted(s, q) && RoundEnds(s, key, q, w.run)
            case Yield => exists q :: Counted(s, q) && RoundEnds(s, key, q, w.run)
            case _ => w.run == if Leaves(s, a) then Popped(s.run) else s.run
  {
    match a
    case Create(_) => CreatePushes(s, a, w);
    case Unlock(m) => UnlockPushes(s, m, w);
    case Exit => ExitPushes(s, w);
    case Preempt => PreemptPushes(s, w);
    case Yield => YieldPushes(s, w);
    case _ => OthersPop(s, a, w);
  }

  function Popped(q: seq<Tid>): seq<Tid> { if q == [] then [] else q[1..] }

  /** The run queue when the scheduler has counted the round. */
  ghost predicate Counted(s: State, q: seq<Tid>) {
    if s.nSchedulings < 150 then q == s.run else OrderedByAge(s.run, BirthTimes(s.threads), q)
  }

  /** The front of `q` is taken to run, and the thread that was running is pushed. */
  ghost predicate RoundEnds(s: State, key: Keys, q: seq<Tid>, r: seq<Tid>) {
    if q == [] then r == [] else Pushed(q[1..], key, s.running, r)
  }

  lemma CreatePushes(s: State, a: Action, w: State)
    requires IsStep(s, a, w) && a.Create?
    ensures Pushed(s.run, Priorities(w.threads), s.nextId, w.run)
  {
    OpenStep(s, a, w);
    PushedExactly(s.run, Priorities(w.threads), s.nextId, w.run);
  }

  lemma UnlockPushes(s: State, m: Mid, w: State)
    requires IsStep(s, Unlock(m), w)
    ensures if Mx(s, m).wait == [] then w.run == s.run
            else Pushed(s.run, Priorities(w.threads), Mx(s, m).wait[0], w.run)
  {
    OpenStep(s, Unlock(m), w);
    if Mx(s, m).wait != [] { PushedExactly(s.run, Priorities(w.threads), Mx(s, m).wait[0], w.run); }
  }

  lemma OthersPop(s: State, a: Action, w: State)
    requires IsStep(s, a, w) && !a.Create? && !a.Unlock? && !a.Exit? && !a.Preempt? && !a.Yield?
    ensures w.run == if Leaves(s, a) then Popped(s.run) else s.run
  {
    OpenStep(s, a, w);
  }

  lemma ExitPushes(s: State, w: State)
    requires IsStep(s, Exit, w)
    ensures exists q :: AllPushed(s.run, Priorities(w.threads), Th(s, s.running).joiners, q) && w.run == Popped(q)
  {
    OpenStep(s, Exit, w);
    var joiners, key := s.threads[s.running].joiners, Priorities(w.threads);
    var q := Reordered(joiners, key, s.run);
    SameKeys(s, w);
    AllPushedExactly(s.run, key, joiners, q);
    assert AllPushed(s.run, key, Th(s, s.running).joiners, q) && w.run == Popped(q);
  }

  lemma PreemptPushes(s: State, w: State)
    requires IsStep(s, Preempt, w)
    ensures exists q :: Counted(s, q) && RoundEnds(s, Priorities(w.threads), q, w.run)
  {
    OpenStep(s, Preempt, w);
    RoundPushes(s, w);
  }

  lemma YieldPushes(s: State, w: State)
    requires IsStep(s, Yield, w)
    ensures exists q :: Counted(s, q) && RoundEnds(s, Priorities(w.threads), q, w.run)
  {
    OpenStep(s, Yield, w);
    var th := s.threads[s.running];
    var s' := WithThread(s, s.running, if th.priority > 0 then th.(priority := th.priority - 1) else th);
    RoundPushes(s', w);
    assert BirthTimes(s'.threads) == BirthTimes(s.threads);
    var q :| Counted(s', q) && RoundEnds(s', Priorities(w.threads), q, w.run);
    assert Counted(s, q) && RoundEnds(s, Priorities(w.threads), q, w.run);
  }

  lemma RoundPushes(s: State, w: State)
    requires s.running in s.threads && w == ScheduleStep(s)
    ensures exists q :: Counted(s, q) && RoundEnds(s, Priorities(w.threads), q, w.run)
  {
    OrderIsExactly(s.run, BirthTimes(s.threads));
    var q := Aged(s);
    assert Counted(s, q);
    if q != [] { PushedExactly(q[1..], Priorities(w.threads), s.running, w.run); }
  }

  /** The queue for a thread: a join that blocks pushes the caller by its priority, and exit empties it. */
  lemma JoinersChange(s: State, a: Action, w: State, u: Tid)
    requires Inv(s) && IsStep(s, a, w)
    ensures if a == Join(u) && !Th(s, u).finished then
              Pushed(Th(s, u).joiners, Priorities(w.threads), s.running, Th(w, u).joiners)
            else Th(w, u).joiners == if a.Exit? && u == s.running then [] else Th(s, u).joiners
  {
    if a.Preempt? || a.Yield? {
      RoundKeeps(s, a, w, u);
    } else if a.Join? {
      JoinPushes(s, a.u, w, u);
    } else {
      OpenStep(s, a, w);
      if a.Create? { assert s.nextId !in s.threads by { assert Obeys(s, NamesRule); } }
    }
  }

  lemma JoinPushes(s: State, v: Tid, w: State, u: Tid)
    requires IsStep(s, Join(v), w)
    ensures if v == u && !Th(s, u).finished then
              Pushed(Th(s, u).joiners, Priorities(w.threads), s.running, Th(w, u).joiners)
            else Th(w, u).joiners == Th(s, u).joiners
  {
    OpenStep(s, Join(v), w);
    if v == u && !Th(s, u).finished {
      SameKeys(s, w);
      PushedExactly(s.threads[u].joiners, Priorities(w.threads), s.running, w.threads[u].joiners);
    }
  }

  // ---------------------------------------------------------------- what is recorded about a thread

  /** A thread finishes by its own exit only, and its birth time never changes. */
  lemma RecordStays(s: State, a: Action, w: State, t: Tid)
    requires Inv(s) && IsStep(s, a, w) && t in s.threads
    ensures Th(w, t).born == Th(s, t).born
    ensures Th(w, t).finished <==> Th(s, t).finished || (a.Exit? && t == s.running)
  {
    if a.Preempt? || a.Yield? {
      RoundKeeps(s, a, w, t);
    } else {
      OpenStep(s, a, w);
      if a.Create? { assert s.nextId !in s.threads by { assert Obeys(s, NamesRule); } }
    }
  }

  /** Only create makes a thread. It is new, in user code, holds nothing, nobody waits for it, and its recorded birth
      is the time of the call. */
  lemma CreatedThread(s: State, a: Action, w: State, t: Tid)
    requires Inv(s) && IsStep(s, a, w) && t !in s.threads
    ensures t in w.threads <==> a.Create? && t == s.nextId
    ensures t in w.threads ==> w.threads[t] == Thread(User, {}, 0, a.born, false, [])
  {
    OpenStep(s, a, w);
  }

  /** Only mutex_init makes a mutex, and none goes away. */
  lemma CreatedMutex(s: State, a: Action, w: State, m: Mid)
    requires Inv(s) && IsStep(s, a, w)
    ensures m in w.mutexes <==> m in s.mutexes || (a.InitMutex? && m == s.nextMutex)
    ensures m in w.mutexes && m !in s.mutexes ==> w.mutexes[m] == Mutex(false, [])
  {
    OpenStep(s, a, w);
  }

  /** In every run a thread keeps the birth time it was created with, and stays finished. */
  lemma {:induction false} BirthAlways(born: nat, states: seq<State>, actions: seq<Action>, j: nat, k: nat, t: Tid)
    requires RunFrom(born, states, actions) && j <= k <= |actions| && t in states[j].threads
    ensures t in states[k].threads && Th(states[k], t).born == Th(states[j], t).born
    ensures Th(states[j], t).finished ==> Th(states[k], t).finished
    decreases k
  {
    if j < k {
      BirthAlways(born, states, actions, j, k - 1, t);
      InvAlways(born, states, actions, k - 1);
      ThreadsStay(states[k - 1], actions[k - 1], states[k]);
      RecordStays(states[k - 1], actions[k - 1], states[k], t);
    }
  }
}
