/** The thread library as a state machine. A step is one region that the code runs with the timer
    signal masked, or one test-and-set; between steps the running thread can be preempted. */
module ThreadState {
  import opened LinkedQueue

  type Mid = nat

  /** Where a thread is in the library: in user code; about to test-and-set; between a failed
      test-and-set and the masked re-check; blocked in lock, or resumed there; blocked in join, or
      resumed there. */
  datatype Pc = User | TryLock(m: Mid) | Failed(m: Mid) | LockWait(m: Mid) | Joining(u: Tid)

  /** `held` records the mutexes whose lock has returned and which this thread has not unlocked. */
  datatype Thread = Thread(pc: Pc, held: set<Mid>, priority: nat, born: nat, finished: bool, joiners: seq<Tid>)

  datatype Mutex = Mutex(locked: bool, wait: seq<Tid>)

  /** Ended: exit or join found the run queue empty. Faulted: lock popped an empty run queue. */
  datatype Status = Active | Ended | Faulted

  datatype State = State(status: Status, running: Tid, run: seq<Tid>, threads: map<Tid, Thread>,
                         mutexes: map<Mid, Mutex>, nextId: Tid, nextMutex: Mid, nSchedulings: nat)

  datatype Action =
    | Create(born: nat) | InitMutex
    | CallLock(m: Mid) | TestAndSet | Recheck | Unlock(m: Mid)
    | Join(u: Tid) | JoinReturn | Exit
    | Yield | Preempt

  function Priorities(threads: map<Tid, Thread>): Keys { map t | t in threads :: threads[t].priority }

  function BirthTimes(threads: map<Tid, Thread>): Keys { map t | t in threads :: threads[t].born }

  const MAX_SCHEDULINGS := 150

  function Start(born: nat): State {
    State(Active, 1, [], map[1 := Thread(User, {}, 0, born, false, [])], map[], 2, 0, 0)
  }

  // ---------------------------------------------------------------- the steps

  /** What a client may do: a thread in user code calls the library on things that exist, and only
      the thread that holds a mutex unlocks it. */
  ghost predicate Enabled(s: State, a: Action) {
    && s.status.Active? && s.running in s.threads
    && var t := s.threads[s.running];
       match a
       case Create(_) => t.pc.User?
       case InitMutex => t.pc.User?
       case CallLock(m) => t.pc.User? && m in s.mutexes
       case TestAndSet => (t.pc.TryLock? || t.pc.LockWait?) && t.pc.m in s.mutexes
       case Recheck => t.pc.Failed? && t.pc.m in s.mutexes
       case Unlock(m) => t.pc.User? && m in s.mutexes && m in t.held
       case Join(u) => t.pc.User? && u in s.threads
       case JoinReturn => t.pc.Joining?
       case Exit => t.pc.User?
       case Yield => t.pc.User?
       case Preempt => true
  }

  function WithThread(s: State, t: Tid, th: Thread): State { s.(threads := s.threads[t := th]) }

  /** Give the processor to the front of the run queue; without one, stop with `status`. */
  function SwitchOr(s: State, status: Status): State {
    if s.run == [] then s.(status := status) else s.(running := s.run[0], run := s.run[1..])
  }

  function Enqueue(s: State, t: Tid): State { s.(run := Inserted(s.run, Priorities(s.threads), t)) }

  function CreateStep(s: State, born: nat): State {
    Enqueue(WithThread(s, s.nextId, Thread(User, {}, 0, born, false, [])).(nextId := s.nextId + 1), s.nextId)
  }

  function InitMutexStep(s: State): State {
    s.(mutexes := s.mutexes[s.nextMutex := Mutex(false, [])], nextMutex := s.nextMutex + 1)
  }

  function MoveTo(s: State, pc: Pc): State
    requires s.running in s.threads
  {
    WithThread(s, s.running, s.threads[s.running].(pc := pc))
  }

  /** testAndSet: the mutex is locked afterwards in any case; the lock call returns if it was not. */
  function TestAndSetStep(s: State, m: Mid): State
    requires s.running in s.threads && m in s.mutexes
  {
    var t := s.threads[s.running];
    var s' := s.(mutexes := s.mutexes[m := s.mutexes[m].(locked := true)]);
    if s.mutexes[m].locked then MoveTo(s', Failed(m))
    else WithThread(s', s.running, t.(pc := User, held := t.held + {m}))
  }

  /** The masked part of lock: wait if the mutex is still locked, else try again. */
  function RecheckStep(s: State, m: Mid): State
    requires s.running in s.threads && m in s.mutexes
  {
    if s.mutexes[m].locked then
      var s' := s.(mutexes := s.mutexes[m := s.mutexes[m].(wait := s.mutexes[m].wait + [s.running])]);
      SwitchOr(MoveTo(s', LockWait(m)), Faulted)
    else MoveTo(s, TryLock(m))
  }

  /** unlock: wake the first waiter, then clear the mutex. */
  function UnlockStep(s: State, m: Mid): State
    requires s.running in s.threads && m in s.mutexes
  {
    var t, x := s.threads[s.running], s.mutexes[m];
    var s' := WithThread(s, s.running, t.(held := t.held - {m}));
    if x.wait == [] then s'.(mutexes := s.mutexes[m := Mutex(false, [])])
    else Enqueue(s'.(mutexes := s.mutexes[m := Mutex(false, x.wait[1..])]), x.wait[0])
  }

  function JoinStep(s: State, u: Tid): State
    requires s.running in s.threads && u in s.threads
  {
    if s.threads[u].finished then s
    else
      var s' := MoveTo(s, Joining(u));
      var t := s'.threads[u];
      SwitchOr(WithThread(s', u, t.(joiners := Inserted(t.joiners, Priorities(s.threads), s.running))), Ended)
  }

  /** exit: move everyone waiting for this thread to the run queue, in order, and give up the processor. */
  function ExitStep(s: State): State
    requires s.running in s.threads
  {
    var t := s.threads[s.running];
    var s' := WithThread(s, s.running, t.(finished := true, joiners := []));
    SwitchOr(s'.(run := Reordered(t.joiners, Priorities(s.threads), s.run)), Ended)
  }

  /** After 150 rounds the run queue is reordered by age. */
  function Aged(s: State): seq<Tid> {
    if s.nSchedulings + 1 > MAX_SCHEDULINGS then Reordered(s.run, BirthTimes(s.threads), []) else s.run
  }

  /** scheduler up to the choice of the next thread: the round is counted and the running thread ages. */
  function RoundBegun(s: State): State
    requires s.running in s.threads
  {
    var t := s.threads[s.running];
    var rounds := if s.nSchedulings + 1 > MAX_SCHEDULINGS then 0 else s.nSchedulings + 1;
    WithThread(s, s.running, t.(priority := t.priority + 1)).(run := Aged(s), nSchedulings := rounds)
  }

  /** scheduler: the running thread goes back to the run queue, and the front of the queue runs. */
  function ScheduleStep(s: State): State
    requires s.running in s.threads
  {
    var s' := RoundBegun(s);
    if s'.run == [] then s' else Enqueue(s'.(run := s'.run[1..]), s.running).(running := s'.run[0])
  }

  function YieldStep(s: State): State
    requires s.running in s.threads
  {
    var t := s.threads[s.running];
    ScheduleStep(WithThread(s, s.running, if t.priority > 0 then t.(priority := t.priority - 1) else t))
  }

  ghost function Next(s: State, a: Action): State
    requires Enabled(s, a)
  {
    var pc := s.threads[s.running].pc;
    match a
    case Create(born) => CreateStep(s, born)
    case InitMutex => InitMutexStep(s)
    case CallLock(m) => MoveTo(s, TryLock(m))
    case TestAndSet => TestAndSetStep(s, pc.m)
    case Recheck => RecheckStep(s, pc.m)
    case Unlock(m) => UnlockStep(s, m)
    case Join(u) => JoinStep(s, u)
    case JoinReturn => MoveTo(s, User)
    case Exit => ExitStep(s)
    case Yield => YieldStep(s)
    case Preempt => ScheduleStep(s)
  }

  ghost predicate Takes(s: State, a: Action, w: State, u: Unit) { Enabled(s, a) && w == Next(s, a) }

  /** Action `a` leads from `s` to `w`. The quantifier keeps the definition of the step folded. */
  ghost predicate IsStep(s: State, a: Action, w: State) { forall u :: Takes(s, a, w, u) }

  lemma OpenStep(s: State, a: Action, w: State)
    requires IsStep(s, a, w)
    ensures Enabled(s, a) && w == Next(s, a)
  {
    assert Takes(s, a, w, Unit);
  }

  /** Every sequence of enabled steps is a run. */
  ghost predicate IsRun(states: seq<State>, actions: seq<Action>) {
    |states| == |actions| + 1 && forall i :: 0 <= i < |actions| ==> IsStep(states[i], actions[i], states[i + 1])
  }
}
