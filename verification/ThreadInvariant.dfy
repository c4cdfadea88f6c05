/** What every step of the thread library keeps. */
module ThreadInvariant {
  import opened LinkedQueue
  import opened ThreadState

  ghost function Th(s: State, t: Tid): Thread {
    if t in s.threads then s.threads[t] else Thread(User, {}, 0, 0, true, [])
  }
  ghost function Mx(s: State, m: Mid): Mutex { if m in s.mutexes then s.mutexes[m] else Mutex(false, []) }

  ghost predicate OnCpu(s: State, t: Tid) { s.status.Active? && s.running == t }

  ghost predicate Runnable(s: State, t: Tid) { OnCpu(s, t) || t in s.run }

  /** Threads on the processor or in the run queue exist and are not finished, and none is there twice. */
  ghost predicate RunOk(s: State) {
    && Distinct(s.run)
    && (s.status.Active? ==> s.running !in s.run)
    && (forall t :: Runnable(s, t) ==> t in s.threads && !Th(s, t).finished)
  }

  /** A thread in a mutex queue is blocked in lock on that mutex, and nowhere else. */
  ghost predicate WaitOk(s: State) {
    && (forall m :: Distinct(Mx(s, m).wait))
    && (forall m, t :: t in Mx(s, m).wait ==> WaiterOk(s, m, t))
  }

  ghost predicate WaiterOk(s: State, m: Mid, t: Tid) { Blocked(s, t) && Th(s, t).pc == LockWait(m) }

  /** Unfinished, but not runnable. */
  ghost predicate Blocked(s: State, t: Tid) { t in s.threads && !Th(s, t).finished && !Runnable(s, t) }

  /** A thread in a join queue is blocked joining that thread, which is unfinished, and nowhere else. */
  ghost predicate JoinOk(s: State) {
    && (forall u :: Distinct(Th(s, u).joiners))
    && (forall u, t :: t in Th(s, u).joiners ==> JoinerOk(s, u, t))
  }

  ghost predicate JoinerOk(s: State, u: Tid, t: Tid) {
    Blocked(s, t) && Th(s, t).pc == Joining(u) && u in s.threads && !Th(s, u).finished
  }

  /** An unfinished thread that cannot run is in the queue its blocking call put it in. */
  ghost predicate BlockedOk(s: State) {
    forall t {:trigger InItsQueue(s, t)} :: Blocked(s, t) ==> InItsQueue(s, t)
  }

  ghost predicate InItsQueue(s: State, t: Tid) {
    var pc := Th(s, t).pc;
    (pc.LockWait? && t in Mx(s, pc.m).wait) || (pc.Joining? && t in Th(s, pc.u).joiners)
  }

  /** A thread that is past its blocked join has a finished target. */
  ghost predicate ResumedOk(s: State) {
    forall t {:trigger Resumed(s, t)} :: Runnable(s, t) && Th(s, t).pc.Joining? ==> Resumed(s, t)
  }

  ghost predicate Resumed(s: State, t: Tid) {
    Th(s, t).pc.Joining? && Th(s, t).pc.u in s.threads && Th(s, Th(s, t).pc.u).finished
  }

  /** Names used by the library exist, and the next ones are unused. */
  ghost predicate NamesOk(s: State) {
    && (forall t :: t in s.threads ==> t < s.nextId)
    && (forall m :: m in s.mutexes ==> m < s.nextMutex)
    && (forall t :: t in s.threads ==> !Th(s, t).pc.User? && !Th(s, t).pc.Joining? ==> Th(s, t).pc.m in s.mutexes)
    && (forall t, m :: m in Th(s, t).held ==> m in s.mutexes)
  }

  /** A mutex is marked locked exactly while some thread holds it, and at most one does. */
  ghost predicate HeldOk(s: State) {
    && (forall m :: Mx(s, m).locked ==> exists t :: m in Th(s, t).held)
    && (forall t, m :: m in Th(s, t).held ==> Mx(s, m).locked)
    && (forall t, u, m :: m in Th(s, t).held && m in Th(s, u).held ==> t == u)
  }

  /** A runnable thread inside lock on `m`: it will test the mutex again. */
  ghost predicate Contender(s: State, t: Tid, m: Mid) {
    Runnable(s, t) && (Th(s, t).pc == TryLock(m) || Th(s, t).pc == Failed(m) || Th(s, t).pc == LockWait(m))
  }

  /** While someone waits for a mutex, it is locked or a contender is runnable. */
  ghost predicate WakeOk(s: State) {
    forall m :: Mx(s, m).wait != [] ==> Mx(s, m).locked || exists t :: Contender(s, t, m)
  }

  datatype Rule = RunRule | WaitRule | JoinRule | BlockedRule | ResumedRule | NamesRule | HeldRule | WakeRule

  ghost predicate Obeys(s: State, rule: Rule) {
    match rule
    case RunRule => RunOk(s)
    case WaitRule => WaitOk(s)
    case JoinRule => JoinOk(s)
    case BlockedRule => BlockedOk(s)
    case ResumedRule => ResumedOk(s)
    case NamesRule => NamesOk(s)
    case HeldRule => HeldOk(s)
    case WakeRule => WakeOk(s)
  }

  ghost predicate Inv(s: State) { forall rule :: Obeys(s, rule) }

  lemma AllRules(s: State)
    requires Inv(s)
    ensures RunOk(s) && WaitOk(s) && JoinOk(s) && BlockedOk(s) && ResumedOk(s) && NamesOk(s) && HeldOk(s) && WakeOk(s)
  {
    assert Obeys(s, RunRule) && Obeys(s, WaitRule) && Obeys(s, JoinRule) && Obeys(s, BlockedRule);
    assert Obeys(s, ResumedRule) && Obeys(s, NamesRule) && Obeys(s, HeldRule) && Obeys(s, WakeRule);
  }

  lemma StartOk(born: nat)
    ensures Inv(Start(born))
  {
    var s := Start(born);
    assert forall t :: Runnable(s, t) <==> t == 1;
  }

  // ---------------------------------------------------------------- queues

  lemma InsertedMembers(q: seq<Tid>, key: Keys, x: Tid)
    ensures forall t :: t in Inserted(q, key, x) <==> t in q || t == x
    ensures Distinct(q) && x !in q ==> Distinct(Inserted(q, key, x))
  {
    InsertedIsPermutation(q, key, x);
    forall t ensures t in Inserted(q, key, x) <==> t in q || t == x {
      assert t in multiset(q) <==> t in q;
      assert t in Inserted(q, key, x) <==> t in multiset(Inserted(q, key, x));
    }
    if Distinct(q) && x !in q { SplicedDistinct(q, Place(q, key, x), x); }
  }

  lemma {:induction false} ReorderedMembers(q: seq<Tid>, key: Keys, acc: seq<Tid>)
    ensures forall t :: t in Reordered(q, key, acc) <==> t in q || t in acc
    ensures Distinct(q) && Distinct(acc) && (forall t :: t in q ==> t !in acc) ==> Distinct(Reordered(q, key, acc))
    decreases |q|
  {
    if q != [] {
      InsertedMembers(acc, key, q[0]);
      ReorderedMembers(q[1..], key, Inserted(acc, key, q[0]));
      assert q == [q[0]] + q[1..];
    }
  }

  lemma PoppedMembers(q: seq<Tid>)
    requires q != [] && Distinct(q)
    ensures Distinct(q[1..]) && forall t :: t in q[1..] <==> t in q && t != q[0]
  {
    forall t ensures t in q[1..] <==> t in q && t != q[0] {
      if t in q && t != q[0] {
        var i :| 0 <= i < |q| && q[i] == t;
        assert q[1..][i - 1] == t;
      }
      if t in q[1..] {
        var i :| 0 <= i < |q[1..]| && q[1..][i] == t;
        assert q[i + 1] == t;
      }
    }
  }
}
