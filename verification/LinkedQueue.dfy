/** The thread queue: a singly linked list with head, tail and count, refining a sequence. */
module LinkedQueue {

  type Tid = nat

  /** The priorities, or the creation times, of the threads. */
  type Keys = map<Tid, nat>

  function At(key: Keys, t: Tid): nat { if t in key then key[t] else 0 }

  // ---------------------------------------------------------------- the sequence it refines

  /** Length of the longest prefix whose keys are at most `k`. */
  function LeadingRun(q: seq<Tid>, key: Keys, k: int): (n: nat)
    ensures n <= |q|
    ensures forall i :: 0 <= i < n ==> At(key, q[i]) <= k
    ensures n < |q| ==> At(key, q[n]) > k
  {
    if q == [] || At(key, q[0]) > k then 0 else 1 + LeadingRun(q[1..], key, k)
  }

  lemma LeadingRunIs(q: seq<Tid>, key: Keys, k: int, n: nat)
    requires n <= |q| && (forall i :: 0 <= i < n ==> At(key, q[i]) <= k) && (n < |q| ==> At(key, q[n]) > k)
    ensures LeadingRun(q, key, k) == n
  {}

  /** Where an ordered push goes: after the leading run, but never in front of the head. */
  function Place(q: seq<Tid>, key: Keys, x: Tid): (n: nat)
    ensures n <= |q|
  {
    var n := LeadingRun(q, key, At(key, x));
    if n == 0 && q != [] then 1 else n
  }

  function Spliced<T>(q: seq<T>, n: nat, x: T): (r: seq<T>)
    requires n <= |q|
    ensures |r| == |q| + 1
    ensures forall i :: 0 <= i < |r| ==> r[i] == if i < n then q[i] else if i == n then x else q[i - 1]
  {
    seq(|q| + 1, i requires 0 <= i <= |q| => if i < n then q[i] else if i == n then x else q[i - 1])
  }

  lemma SplicedSplits<T>(q: seq<T>, n: nat, x: T)
    requires n <= |q|
    ensures Spliced(q, n, x) == q[..n] + [x] + q[n..]
  {
  }

  function Inserted(q: seq<Tid>, key: Keys, x: Tid): seq<Tid> {
    Spliced(q, Place(q, key, x), x)
  }

  /** Push the elements of `q` one by one, in order, onto `acc`. */
  function Reordered(q: seq<Tid>, key: Keys, acc: seq<Tid>): seq<Tid>
    decreases |q|
  {
    if q == [] then acc else Reordered(q[1..], key, Inserted(acc, key, q[0]))
  }

  // ---------------------------------------------------------------- ordered pushes

  datatype Unit = Unit

  ghost predicate IsYield(q: seq<Tid>, key: Keys, acc: seq<Tid>, r: seq<Tid>, u: Unit) { Reordered(q, key, acc) == r }

  /** Pushing `q` onto `acc` gives `r`. The quantifier keeps the definition folded. */
  ghost predicate Yields(q: seq<Tid>, key: Keys, acc: seq<Tid>, r: seq<Tid>) { forall u :: IsYield(q, key, acc, r, u) }

  lemma YieldsStep(q: seq<Tid>, key: Keys, acc: seq<Tid>, r: seq<Tid>)
    requires Yields(q, key, acc, r)
    ensures if q == [] then r == acc else Yields(q[1..], key, Inserted(acc, key, q[0]), r)
  {
    assert IsYield(q, key, acc, r, Unit);
  }

  ghost predicate Sorted(q: seq<Tid>, key: Keys) {
    forall i, j :: 0 <= i < j < |q| ==> At(key, q[i]) <= At(key, q[j])
  }

  /** The elements with a given key, in order. */
  function Peers(q: seq<Tid>, key: Keys, k: int): seq<Tid> {
    if q == [] then [] else (if At(key, q[0]) == k then [q[0]] else []) + Peers(q[1..], key, k)
  }

  lemma {:induction false} PeersConcat(a: seq<Tid>, b: seq<Tid>, key: Keys, k: int)
    ensures Peers(a + b, key, k) == Peers(a, key, k) + Peers(b, key, k)
    decreases |a|
  {
    if a == [] {
      assert a + b == b;
    } else {
      assert (a + b)[1..] == a[1..] + b;
      PeersConcat(a[1..], b, key, k);
      Regroup(if At(key, a[0]) == k then [a[0]] else [], Peers(a[1..], key, k), Peers(b, key, k));
    }
  }

  lemma {:induction false} NoPeers(q: seq<Tid>, key: Keys, k: int)
    requires forall i :: 0 <= i < |q| ==> At(key, q[i]) != k
    ensures Peers(q, key, k) == []
    decreases |q|
  {
    if q != [] { NoPeers(q[1..], key, k); }
  }

  lemma InsertedIsPermutation(q: seq<Tid>, key: Keys, x: Tid)
    ensures multiset(Inserted(q, key, x)) == multiset(q) + multiset{x}
  {
    SplicedIsPermutation(q, Place(q, key, x), x);
  }

  lemma SplicedIsPermutation<T>(q: seq<T>, n: nat, x: T)
    requires n <= |q|
    ensures multiset(Spliced(q, n, x)) == multiset(q) + multiset{x}
  {
    SplicedSplits(q, n, x);
    assert q == q[..n] + q[n..];
  }

  /** Where an ordered push puts `x`: right behind the head if the head has a larger key, else behind all of the
      leading elements whose keys are not larger than its own. */
  ghost predicate PushedAt(q: seq<Tid>, key: Keys, x: Tid, p: nat, r: seq<Tid>) {
    && p <= |q| && r == q[..p] + [x] + q[p..]
    && if q != [] && At(key, q[0]) > At(key, x) then p == 1
       else (forall i :: 0 <= i < p ==> At(key, q[i]) <= At(key, x)) && (p < |q| ==> At(key, q[p]) > At(key, x))
  }

  ghost predicate Pushed(q: seq<Tid>, key: Keys, x: Tid, r: seq<Tid>) { exists p :: PushedAt(q, key, x, p, r) }

  /** The elements of `xs` are pushed one after the other. */
  ghost predicate AllPushed(q: seq<Tid>, key: Keys, xs: seq<Tid>, r: seq<Tid>)
    decreases |xs|
  {
    if xs == [] then r == q else exists q' :: Pushed(q, key, xs[0], q') && AllPushed(q', key, xs[1..], r)
  }

  lemma PlaceIs(q: seq<Tid>, key: Keys, x: Tid, p: nat, r: seq<Tid>)
    requires PushedAt(q, key, x, p, r)
    ensures p == Place(q, key, x)
  {
    if q == [] || At(key, q[0]) <= At(key, x) { LeadingRunIs(q, key, At(key, x), p); }
  }

  /** The place is the one the ordered push uses, and there is no other. */
  lemma PushedExactly(q: seq<Tid>, key: Keys, x: Tid, r: seq<Tid>)
    ensures Pushed(q, key, x, r) <==> r == Inserted(q, key, x)
  {
    var n := Place(q, key, x);
    assert PushedAt(q, key, x, n, Inserted(q, key, x));
    if Pushed(q, key, x, r) {
      var p :| PushedAt(q, key, x, p, r);
      PlaceIs(q, key, x, p, r);
    }
  }

  lemma {:induction false} AllPushedExactly(q: seq<Tid>, key: Keys, xs: seq<Tid>, r: seq<Tid>)
    ensures AllPushed(q, key, xs, r) <==> r == Reordered(xs, key, q)
    decreases |xs|
  {
    if xs != [] {
      forall q' ensures Pushed(q, key, xs[0], q') <==> q' == Inserted(q, key, xs[0]) {
        PushedExactly(q, key, xs[0], q');
      }
      AllPushedExactly(Inserted(q, key, xs[0]), key, xs[1..], r);
    }
  }

  /** A sorted queue stays sorted exactly when the head does not come after the new element. */
  lemma SortedStaysSorted(q: seq<Tid>, key: Keys, x: Tid)
    requires Sorted(q, key)
    ensures Sorted(Inserted(q, key, x), key) <==> q == [] || At(key, q[0]) <= At(key, x)
  {
    var r := Inserted(q, key, x);
    var n := Place(q, key, x);
    if q != [] && At(key, q[0]) > At(key, x) {
      assert r[0] == q[0] && r[1] == x;
    } else {
      forall i, j | 0 <= i < j < |r| ensures At(key, r[i]) <= At(key, r[j]) {
        assert r[i] == (if i < n then q[i] else if i == n then x else q[i - 1]);
        assert r[j] == (if j < n then q[j] else if j == n then x else q[j - 1]);
        if n < |q| && i == n { assert At(key, q[n]) <= At(key, q[j - 1]); }
      }
    }
  }

  /** In a sorted queue the new element comes after all those with the same key. */
  lemma FirstComeFirstServed(q: seq<Tid>, key: Keys, x: Tid, k: int)
    requires Sorted(q, key)
    ensures Peers(Inserted(q, key, x), key, k) == Peers(q, key, k) + if At(key, x) == k then [x] else []
  {
    var n := Place(q, key, x);
    PeersSpliced(q, key, x, n, k);
    PeersSplit(q, key, n, k);
    if At(key, x) == k { NoPeersBehind(q, key, x, n); }
  }

  lemma PeersSplit(q: seq<Tid>, key: Keys, n: nat, k: int)
    requires n <= |q|
    ensures Peers(q, key, k) == Peers(q[..n], key, k) + Peers(q[n..], key, k)
  {
    assert q == q[..n] + q[n..];
    PeersConcat(q[..n], q[n..], key, k);
  }

  lemma PeersSpliced(q: seq<Tid>, key: Keys, x: Tid, n: nat, k: int)
    requires n <= |q|
    ensures var one := if At(key, x) == k then [x] else [];
            Peers(Spliced(q, n, x), key, k) == Peers(q[..n], key, k) + one + Peers(q[n..], key, k)
  {
    SplicedSplits(q, n, x);
    assert [x][1..] == [];
    PeersConcat(q[..n] + [x], q[n..], key, k);
    PeersConcat(q[..n], [x], key, k);
  }

  lemma NoPeersBehind(q: seq<Tid>, key: Keys, x: Tid, n: nat)
    requires Sorted(q, key) && n == Place(q, key, x)
    ensures Peers(q[n..], key, At(key, x)) == []
  {
    forall i | 0 <= i < |q[n..]| ensures At(key, q[n..][i]) != At(key, x) { assert q[n..][i] == q[n + i]; }
    NoPeers(q[n..], key, At(key, x));
  }

  // ---------------------------------------------------------------- orderByOldest

  lemma {:induction false} ReorderedIsPermutation(q: seq<Tid>, key: Keys, acc: seq<Tid>)
    ensures multiset(Reordered(q, key, acc)) == multiset(acc) + multiset(q)
    decreases |q|
  {
    if q != [] {
      InsertedIsPermutation(acc, key, q[0]);
      ReorderedIsPermutation(q[1..], key, Inserted(acc, key, q[0]));
      assert q == [q[0]] + q[1..];
    }
  }

  lemma InsertedHead(q: seq<Tid>, key: Keys, x: Tid)
    ensures Inserted(q, key, x) != [] && Inserted(q, key, x)[0] == if q == [] then x else q[0]
  {}

  /** The first element pushed stays in front. */
  lemma {:induction false} HeadStays(q: seq<Tid>, key: Keys, acc: seq<Tid>)
    requires acc != []
    ensures Reordered(q, key, acc) != [] && Reordered(q, key, acc)[0] == acc[0]
    decreases |q|
  {
    if q != [] {
      InsertedHead(acc, key, q[0]);
      HeadStays(q[1..], key, Inserted(acc, key, q[0]));
    }
  }

  /** No element of `q` has a smaller key than the element that will be the head. */
  ghost predicate HeadIsLeast(q: seq<Tid>, key: Keys, acc: seq<Tid>) {
    forall x :: x in q ==> At(key, if acc == [] then q[0] else acc[0]) <= At(key, x)
  }

  lemma StaysLeast(q: seq<Tid>, key: Keys, acc: seq<Tid>)
    requires q != [] && Sorted(acc, key) && HeadIsLeast(q, key, acc)
    ensures var next := Inserted(acc, key, q[0]); Sorted(next, key) && HeadIsLeast(q[1..], key, next)
  {
    assert q[0] in q;
    SortedStaysSorted(acc, key, q[0]);
    InsertedHead(acc, key, q[0]);
    assert forall x :: x in q[1..] ==> x in q;
  }

  lemma {:induction false} ReorderedSorts(q: seq<Tid>, key: Keys, acc: seq<Tid>)
    requires Sorted(acc, key) && HeadIsLeast(q, key, acc)
    ensures Sorted(Reordered(q, key, acc), key)
    decreases |q|
  {
    if q != [] {
      StaysLeast(q, key, acc);
      ReorderedSorts(q[1..], key, Inserted(acc, key, q[0]));
    }
  }

  lemma {:induction false} ReorderedKeepsTies(q: seq<Tid>, key: Keys, acc: seq<Tid>, k: int)
    requires Sorted(acc, key) && HeadIsLeast(q, key, acc)
    ensures Peers(Reordered(q, key, acc), key, k) == Peers(acc, key, k) + Peers(q, key, k)
    decreases |q|
  {
    if q != [] {
      var next := Inserted(acc, key, q[0]);
      var first, rest := if At(key, q[0]) == k then [q[0]] else [], Peers(q[1..], key, k);
      assert Peers(Reordered(q, key, acc), key, k) == Peers(next, key, k) + rest by {
        StaysLeast(q, key, acc);
        ReorderedKeepsTies(q[1..], key, next, k);
      }
      assert Peers(next, key, k) == Peers(acc, key, k) + first by { FirstComeFirstServed(acc, key, q[0], k); }
      Regroup(Peers(acc, key, k), first, rest);
    }
  }

  lemma Regroup(a: seq<Tid>, b: seq<Tid>, c: seq<Tid>)
    ensures (a + b) + c == a + (b + c)
  {}

  lemma HeadOfReordered(q: seq<Tid>, key: Keys)
    requires q != []
    ensures Reordered(q, key, []) != [] && Reordered(q, key, [])[0] == q[0]
  {
    assert Inserted([], key, q[0]) == [q[0]];
    HeadStays(q[1..], key, [q[0]]);
  }

  lemma MembersReordered(q: seq<Tid>, key: Keys, x: Tid)
    requires x in q
    ensures x in Reordered(q, key, [])
  {
    var r := Reordered(q, key, []);
    assert multiset(r) == multiset(q) by { ReorderedIsPermutation(q, key, []); }
    assert x in multiset(q);
    assert x in multiset(r);
  }

  lemma NotSorted(r: seq<Tid>, key: Keys, x: Tid)
    requires x in r && At(key, r[0]) > At(key, x)
    ensures !Sorted(r, key)
  {
    var i :| 0 <= i < |r| && r[i] == x;
    assert At(key, r[0]) > At(key, r[i]);
  }

  /** An element with a smaller key than the first stays behind it. */
  lemma SmallerStaysBehind(q: seq<Tid>, key: Keys, x: Tid)
    requires x in q && At(key, q[0]) > At(key, x)
    ensures !Sorted(Reordered(q, key, []), key)
  {
    HeadOfReordered(q, key);
    MembersReordered(q, key, x);
    NotSorted(Reordered(q, key, []), key, x);
  }

  /** orderByOldest permutes the queue, and sorts it, keeping ties in order, exactly when the head is already one of
      the oldest; otherwise the head stays in front of something older. */
  lemma OrderSortsExactly(q: seq<Tid>, key: Keys)
    ensures multiset(Reordered(q, key, [])) == multiset(q)
    ensures var r := Reordered(q, key, []);
            HeadIsLeast(q, key, []) <==> Sorted(r, key) && forall k :: Peers(r, key, k) == Peers(q, key, k)
  {
    var r := Reordered(q, key, []);
    ReorderedIsPermutation(q, key, []);
    if HeadIsLeast(q, key, []) {
      forall k ensures Peers(r, key, k) == Peers(q, key, k) { ReorderedKeepsTies(q, key, [], k); }
      ReorderedSorts(q, key, []);
    } else {
      var x :| x in q && At(key, q[0]) > At(key, x);
      SmallerStaysBehind(q, key, x);
    }
  }

  /** The elements with keys below `k`, the last one first. */
  function LastFirst(q: seq<Tid>, key: Keys, k: int): seq<Tid> {
    if q == [] then [] else LastFirst(q[1..], key, k) + if At(key, q[0]) < k then [q[0]] else []
  }

  /** What ordering `q` by age gives in every case: the head stays; behind it come the elements that are older than
      it, in reverse order; then all others, sorted, with ties in the order they had. */
  ghost predicate OrderedByAge(q: seq<Tid>, key: Keys, r: seq<Tid>) {
    if q == [] then r == []
    else exists rest :: r == [q[0]] + LastFirst(q[1..], key, At(key, q[0])) + rest
                        && Sorted(rest, key) && NotBelow(rest, key, q[1..], At(key, q[0]))
  }

  /** `rest` has the elements of `q` with keys from `k` on, ties in the order they have in `q`. */
  ghost predicate NotBelow(rest: seq<Tid>, key: Keys, q: seq<Tid>, k: int) {
    forall j :: Peers(rest, key, j) == if j < k then [] else Peers(q, key, j)
  }

  /** An older element goes right behind the head. */
  lemma OlderInserted(h: Tid, small: seq<Tid>, b: seq<Tid>, key: Keys, x: Tid)
    requires At(key, x) < At(key, h)
    ensures Inserted([h] + small + b, key, x) == [h] + ([x] + small) + b
  {
  }

  lemma SplicedBehind<T>(a: seq<T>, b: seq<T>, n: nat, x: T)
    requires n <= |b|
    ensures Spliced(a + b, |a| + n, x) == a + Spliced(b, n, x)
  {
  }

  lemma YoungerPasses(h: Tid, small: seq<Tid>, b: seq<Tid>, key: Keys, x: Tid, n: nat)
    requires At(key, h) <= At(key, x) && (forall y :: y in small ==> At(key, y) < At(key, h))
    requires n == LeadingRun(b, key, At(key, x))
    ensures LeadingRun([h] + small + b, key, At(key, x)) == 1 + |small| + n
  {
    var q, m := [h] + small + b, 1 + |small| + n;
    forall i | 0 <= i < m ensures At(key, q[i]) <= At(key, x) {
      if 1 <= i < 1 + |small| { assert q[i] == small[i - 1] && small[i - 1] in small; }
    }
    assert n < |b| ==> q[m] == b[n];
    LeadingRunIs(q, key, At(key, x), m);
  }

  /** A younger one passes the head and the older ones. */
  lemma YoungerInserted(h: Tid, small: seq<Tid>, b: seq<Tid>, key: Keys, x: Tid, n: nat)
    requires At(key, h) <= At(key, x) && (forall y :: y in small ==> At(key, y) < At(key, h))
    requires n == LeadingRun(b, key, At(key, x))
    ensures Inserted([h] + small + b, key, x) == [h] + small + Spliced(b, n, x)
  {
    var q := [h] + small + b;
    var m := 1 + |small| + n;
    SplicedBehind([h] + small, b, n, x);
    assert LeadingRun(q, key, At(key, x)) == m by { YoungerPasses(h, small, b, key, x, n); }
  }

  lemma SunkSorted(b: seq<Tid>, key: Keys, x: Tid, n: nat)
    requires Sorted(b, key) && n == LeadingRun(b, key, At(key, x))
    ensures Sorted(Spliced(b, n, x), key)
  {
    var r := Spliced(b, n, x);
    forall i, j | 0 <= i < j < |r| ensures At(key, r[i]) <= At(key, r[j]) {
      if i == n { assert At(key, b[n]) <= At(key, b[j - 1]); }
    }
  }

  lemma SunkPeers(b: seq<Tid>, key: Keys, x: Tid, n: nat, k: int)
    requires Sorted(b, key) && n == LeadingRun(b, key, At(key, x))
    ensures Peers(Spliced(b, n, x), key, k) == Peers(b, key, k) + if At(key, x) == k then [x] else []
  {
    PeersSpliced(b, key, x, n, k);
    PeersSplit(b, key, n, k);
    if At(key, x) == k { NoneEqualBehind(b, key, x, n); }
  }

  lemma NoneEqualBehind(b: seq<Tid>, key: Keys, x: Tid, n: nat)
    requires Sorted(b, key) && n == LeadingRun(b, key, At(key, x))
    ensures Peers(b[n..], key, At(key, x)) == []
  {
    forall i | 0 <= i < |b[n..]| ensures At(key, b[n..][i]) != At(key, x) { assert b[n..][i] == b[n + i]; }
    NoPeers(b[n..], key, At(key, x));
  }

  /** For every key, `c` has what `b` has and then what `q` has, from `k` on. */
  ghost predicate Merges(c: seq<Tid>, b: seq<Tid>, q: seq<Tid>, key: Keys, k: int) {
    forall j :: MergesAt(c, b, q, key, k, j)
  }

  ghost predicate MergesAt(c: seq<Tid>, b: seq<Tid>, q: seq<Tid>, key: Keys, k: int, j: int) {
    Peers(c, key, j) == Peers(b, key, j) + if j < k then [] else Peers(q, key, j)
  }

  lemma MergesOlder(c: seq<Tid>, b: seq<Tid>, q: seq<Tid>, key: Keys, k: int)
    requires q != [] && At(key, q[0]) < k && Merges(c, b, q[1..], key, k)
    ensures Merges(c, b, q, key, k)
  {
    forall j ensures MergesAt(c, b, q, key, k, j) { assert MergesAt(c, b, q[1..], key, k, j); }
  }

  lemma MergesYounger(c: seq<Tid>, b: seq<Tid>, n: nat, q: seq<Tid>, key: Keys, k: int)
    requires q != [] && k <= At(key, q[0]) && Sorted(b, key) && n == LeadingRun(b, key, At(key, q[0]))
    requires Merges(c, Spliced(b, n, q[0]), q[1..], key, k)
    ensures Merges(c, b, q, key, k)
  {
    forall j ensures MergesAt(c, b, q, key, k, j) {
      assert MergesAt(c, Spliced(b, n, q[0]), q[1..], key, k, j);
      SunkPeers(b, key, q[0], n, j);
      Regroup(Peers(b, key, j), if At(key, q[0]) == j then [q[0]] else [], Peers(q[1..], key, j));
    }
  }

  lemma {:induction false} OrderedRest(q: seq<Tid>, key: Keys, h: Tid, small: seq<Tid>, b: seq<Tid>) returns (c: seq<Tid>)
    requires Sorted(b, key) && forall y :: y in small ==> At(key, y) < At(key, h)
    ensures Reordered(q, key, [h] + small + b) == [h] + (LastFirst(q, key, At(key, h)) + small) + c
    ensures Sorted(c, key) && Merges(c, b, q, key, At(key, h))
    decreases |q|
  {
    if q == [] {
      assert [] + small == small;
      c := b;
    } else if At(key, q[0]) < At(key, h) {
      OlderInserted(h, small, b, key, q[0]);
      c := OrderedRest(q[1..], key, h, [q[0]] + small, b);
      Regroup(LastFirst(q[1..], key, At(key, h)), [q[0]], small);
      MergesOlder(c, b, q, key, At(key, h));
    } else {
      c := OrderedYounger(q, key, h, small, b);
    }
  }

  lemma {:induction false} OrderedYounger(q: seq<Tid>, key: Keys, h: Tid, small: seq<Tid>, b: seq<Tid>)
      returns (c: seq<Tid>)
    requires Sorted(b, key) && forall y :: y in small ==> At(key, y) < At(key, h)
    requires q != [] && At(key, h) <= At(key, q[0])
    ensures Reordered(q, key, [h] + small + b) == [h] + (LastFirst(q, key, At(key, h)) + small) + c
    ensures Sorted(c, key) && Merges(c, b, q, key, At(key, h))
    decreases |q|, 0
  {
    var n := LeadingRun(b, key, At(key, q[0]));
    YoungerInserted(h, small, b, key, q[0], n);
    SunkSorted(b, key, q[0], n);
    c := OrderedRest(q[1..], key, h, small, Spliced(b, n, q[0]));
    assert LastFirst(q, key, At(key, h)) == LastFirst(q[1..], key, At(key, h));
    MergesYounger(c, b, n, q, key, At(key, h));
  }

  lemma MergesWithNone(c: seq<Tid>, q: seq<Tid>, key: Keys, k: int)
    requires Merges(c, [], q, key, k)
    ensures NotBelow(c, key, q, k)
  {
    forall j ensures Peers(c, key, j) == if j < k then [] else Peers(q, key, j) {
      assert MergesAt(c, [], q, key, k, j);
    }
  }

  lemma OrderIsExactly(q: seq<Tid>, key: Keys)
    ensures OrderedByAge(q, key, Reordered(q, key, []))
  {
    if q != [] {
      assert Inserted([], key, q[0]) == [q[0]] + [] + [];
      var rest := OrderedRest(q[1..], key, q[0], [], []);
      MergesWithNone(rest, q[1..], key, At(key, q[0]));
      var older := LastFirst(q[1..], key, At(key, q[0]));
      assert older + [] == older;
      assert Reordered(q, key, []) == [q[0]] + older + rest;
    }
  }

  // ---------------------------------------------------------------- the linked list

  class Node {
    const thread: Tid
    var next: Node?

    constructor (t: Tid)
      ensures thread == t && next == null
    {
      thread, next := t, null;
    }
  }

  ghost function NodeAt(spine: seq<Node>, i: nat): Node? {
    if i < |spine| then spine[i] else null
  }

  ghost function Threads(spine: seq<Node>): (s: seq<Tid>)
    ensures |s| == |spine| && forall i :: 0 <= i < |s| ==> s[i] == spine[i].thread
  {
    seq(|spine|, i requires 0 <= i < |spine| => spine[i].thread)
  }

  lemma ThreadsSpliced(spine: seq<Node>, p: nat, n: Node)
    requires p <= |spine|
    ensures Threads(Spliced(spine, p, n)) == Spliced(Threads(spine), p, n.thread)
  {
    var a, b := Threads(Spliced(spine, p, n)), Spliced(Threads(spine), p, n.thread);
    assert |a| == |b| && forall i :: 0 <= i < |a| ==> a[i] == b[i];
  }

  ghost predicate Distinct<T>(s: seq<T>) {
    forall i, j :: 0 <= i < j < |s| ==> s[i] != s[j]
  }

  lemma SplicedDistinct<T>(s: seq<T>, p: nat, x: T)
    requires p <= |s| && Distinct(s) && x !in s
    ensures Distinct(Spliced(s, p, x))
  {}

  /** The two lists have no node in common. */
  ghost predicate Apart(s: seq<Node>, r: seq<Node>) {
    forall i :: 0 <= i < |s| ==> s[i] !in r
  }

  /** Each node points to the one after it, the last to null. */
  ghost predicate Chained(s: seq<Node>)
    reads s
  {
    forall i {:trigger s[i].next} :: 0 <= i < |s| ==> s[i].next == NodeAt(s, i + 1)
  }

  lemma NodeAtSpliced(s: seq<Node>, p: nat, n: Node, i: nat)
    requires p <= |s|
    ensures NodeAt(Spliced(s, p, n), i) == if i < p then NodeAt(s, i) else if i == p then n else NodeAt(s, i - 1)
  {}

  /** Put node `n` behind the node at `p - 1`. */
  method LinkNodes(last: Node, n: Node, ghost s: seq<Node>, ghost p: nat)
    requires Chained(s) && Distinct(s) && 1 <= p <= |s| && last == s[p - 1] && n !in s
    modifies last, n
    ensures Chained(Spliced(s, p, n)) && n.next == NodeAt(s, p)
  {
    assert s[p - 1].next == NodeAt(s, p);
    n.next := last.next;
    last.next := n;
    ghost var now := Spliced(s, p, n);
    forall i | 0 <= i < |now| ensures now[i].next == NodeAt(now, i + 1) {
      NodeAtSpliced(s, p, n, i);
      NodeAtSpliced(s, p, n, i + 1);
      if i < p - 1 { assert s[i].next == NodeAt(s, i + 1); }
      else if i > p { assert s[i - 1].next == NodeAt(s, i); }
    }
  }

  class Queue {
    var head: Node?
    var tail: Node?
    var nitems: nat
    /** The nodes, from head to tail. */
    ghost var spine: seq<Node>

    ghost predicate Valid()
      reads this, spine
    {
      && Distinct(spine)
      && Chained(spine)
      && head == NodeAt(spine, 0)
      && tail == (if spine == [] then null else spine[|spine| - 1])
      && nitems == |spine|
    }

    ghost predicate IsValid(u: Unit)
      reads this, spine
    {
      Valid()
    }

    /** Valid, with its definition folded. */
    ghost predicate Sealed()
      reads this, spine
    {
      forall u :: IsValid(u)
    }

    lemma Unsealed()
      requires Sealed()
      ensures Valid()
    {
      assert IsValid(Unit);
    }

    lemma SealedHead()
      requires Sealed()
      ensures head == null <==> spine == []
    {
      Unsealed();
    }

    ghost function Contents(): (s: seq<Tid>)
      reads this
      ensures |s| == |spine|
    {
      Threads(spine)
    }

    constructor ()
      ensures Valid() && spine == []
    {
      head, tail, nitems, spine := null, null, 0, [];
    }

    predicate Empty()
      requires Valid()
      reads this, spine
      ensures Empty() <==> Contents() == []
    {
      head == null
    }

    method PushFirst(n: Node)
      requires Valid() && spine == [] && n.next == null
      modifies this
      ensures Valid() && spine == [n]
    {
      nitems, head, tail, spine := 1, n, n, [n];
    }

    method AppendNode(n: Node)
      requires Valid() && spine != [] && n !in spine && n.next == null
      modifies this, tail
      ensures Valid() && spine == old(spine) + [n]
    {
      ghost var s, last := spine, |spine| - 1;
      tail.next := n;
      tail := n;
      nitems := nitems + 1;
      spine := spine + [n];
      assert Chained(spine) by {
        forall i | 0 <= i < |spine| ensures spine[i].next == NodeAt(spine, i + 1) {
          assert i < last ==> s[i] != s[last] && old(s[i].next) == NodeAt(s, i + 1);
        }
      }
    }

    method Push(t: Tid)
      requires Valid()
      modifies this, spine
      ensures Valid() && Contents() == old(Contents()) + [t]
      ensures forall i :: 0 <= i < |spine| ==> spine[i] in old(spine) || fresh(spine[i])
    {
      var n := new Node(t);
      if tail == null {
        PushFirst(n);
      } else {
        AppendNode(n);
      }
    }

    method Pop() returns (t: Tid)
      requires Valid() && Contents() != []
      modifies this
      ensures Valid() && t == old(Contents())[0] && Contents() == old(Contents())[1..] && spine == old(spine)[1..]
    {
      assert spine[0].next == NodeAt(spine, 1);
      t := head.thread;
      head := head.next;
      if head == null {
        tail := null;
      }
      nitems := nitems - 1;
      spine := spine[1..];
    }

    function Front(): Tid
      requires Valid() && Contents() != []
      reads this, spine
      ensures Front() == Contents()[0]
    {
      head.thread
    }

    function NElements(): nat
      requires Valid()
      reads this, spine
      ensures NElements() == |Contents()|
    {
      nitems
    }

    /** Walk past every node whose key is not larger than `k`: the last node passed, or the head. */
    method LastPassed(key: Keys, x: Tid) returns (last: Node, ghost p: nat)
      requires Valid() && Contents() != []
      ensures p == Place(Contents(), key, x) && 1 <= p <= |spine| && last == spine[p - 1]
    {
      ghost var q := Contents();
      var tmp := head;
      last, p := head, 0;
      while tmp != null && At(key, tmp.thread) <= At(key, x)
        invariant 0 <= p <= |spine| && tmp == NodeAt(spine, p) && last == spine[if p == 0 then 0 else p - 1]
        invariant forall j :: 0 <= j < p ==> At(key, q[j]) <= At(key, x)
        decreases |spine| - p
      {
        assert spine[p].next == NodeAt(spine, p + 1) && q[p] == spine[p].thread;
        last := tmp;
        tmp := tmp.next;
        p := p + 1;
      }
      assert p < |spine| ==> q[p] == spine[p].thread;
      LeadingRunIs(q, key, At(key, x), p);
      p := Place(q, key, x);
    }

    /** Link node `n` behind the node at `p - 1`. */
    method LinkAfter(last: Node, n: Node, ghost p: nat)
      requires Valid() && 1 <= p <= |spine| && last == spine[p - 1] && n !in spine && n.next == null
      modifies this, last, n
      ensures Valid() && spine == Spliced(old(spine), p, n)
    {
      SplicedDistinct(spine, p, n);
      LinkNodes(last, n, spine, p);
      if n.next == null {
        tail := n;
      }
      head := if n.next == head then n else head;
      nitems := nitems + 1;
      spine := Spliced(spine, p, n);
    }

    method InsertNode(n: Node, key: Keys)
      requires Valid() && spine != [] && n !in spine && n.next == null
      modifies this, spine, n
      ensures Valid() && Contents() == Inserted(old(Contents()), key, n.thread)
      ensures forall i :: 0 <= i < |spine| ==> spine[i] in old(spine) || spine[i] == n
    {
      var last, p := LastPassed(key, n.thread);
      ThreadsSpliced(spine, p, n);
      LinkAfter(last, n, p);
    }

    /** Push by priority (`order` 0) or by time of creation. */
    method PushOrdered(order: int, t: Tid, priority: Keys, born: Keys)
      requires Valid()
      modifies this, spine
      ensures Valid() && Contents() == Inserted(old(Contents()), if order == 0 then priority else born, t)
      ensures forall i :: 0 <= i < |spine| ==> spine[i] in old(spine) || fresh(spine[i])
    {
      var n := new Node(t);
      if tail == null {
        PushFirst(n);
        return;
      }
      InsertNode(n, if order == 0 then priority else born);
    }

    /** Pop the front and push it, by creation time, onto `dst`. */
    method MoveFront(dst: Queue, priority: Keys, born: Keys)
      requires Sealed() && dst.Sealed() && dst != this && spine != [] && Apart(spine, dst.spine)
      modifies this, dst, dst.spine
      ensures Sealed() && |spine| == |old(spine)| - 1 && Contents() == old(Contents())[1..]
      ensures Apart(spine, dst.spine)
      ensures dst.Sealed() && dst.Contents() == Inserted(old(dst.Contents()), born, old(Contents())[0])
      ensures forall i :: 0 <= i < |dst.spine| ==> dst.spine[i] in old(dst.spine) || fresh(dst.spine[i])
    {
      Unsealed();
      dst.Unsealed();
      ghost var rest, theirs := spine[1..], dst.spine;
      assert Apart(rest, theirs) by { assert forall i :: 0 <= i < |rest| ==> rest[i] == spine[i + 1]; }
      var t := Pop();
      label popped:
      dst.PushOrdered(1, t, priority, born);
      assert forall i :: 0 <= i < |rest| ==> rest[i].next == old@popped(rest[i].next);
      assert Chained(rest);
    }

    /** Move everything, front first, to `dst` by creation time. */
    method Drain(dst: Queue, priority: Keys, born: Keys)
      requires Valid() && dst.Valid() && dst != this && Apart(spine, dst.spine)
      modifies this, dst, dst.spine
      ensures Valid() && spine == []
      ensures dst.Valid() && dst.Contents() == Reordered(old(Contents()), born, old(dst.Contents()))
      ensures forall i :: 0 <= i < |dst.spine| ==> dst.spine[i] in old(dst.spine) || fresh(dst.spine[i])
    {
      ghost var r := Reordered(Contents(), born, dst.Contents());
      while head != null
        invariant Sealed() && dst.Sealed() && Apart(spine, dst.spine)
        invariant forall i :: 0 <= i < |dst.spine| ==> dst.spine[i] in old(dst.spine) || fresh(dst.spine[i])
        invariant Yields(Contents(), born, dst.Contents(), r)
        decreases |spine|
      {
        SealedHead();
        YieldsStep(Contents(), born, dst.Contents(), r);
        MoveFront(dst, priority, born);
      }
      SealedHead();
      Unsealed();
      dst.Unsealed();
      YieldsStep(Contents(), born, dst.Contents(), r);
    }

    /** Drain the queue into a fresh one ordered by creation time, and take over its list. */
    method OrderByOldest(priority: Keys, born: Keys)
      requires Valid()
      modifies this
      ensures Valid() && Contents() == Reordered(old(Contents()), born, [])
      ensures forall i :: 0 <= i < |spine| ==> fresh(spine[i])
    {
      var new_ := new Queue();
      Drain(new_, priority, born);
      head, tail, nitems, spine := new_.head, new_.tail, new_.nitems, new_.spine;
    }
  }
}
