/** What becomes of the bytes in the pages when pages move: blocks in tiled pages survive, data in continuation
    pages does not. */
module PageContents {
  import opened Bytes
  import opened Chunks
  import opened PageTable
  import opened PageRuns
  import opened PageLoading

  /** In a page that has come from frame `from[i]` to frame `i`, with a list that tiles it, every block is found
      at the same offset with the same bytes, size and mark. */
  lemma RearrangedKeepsBlocks(t: Table, r: Table, from: seq<nat>, i: nat, s: nat)
    requires Rearranged(t, r, from) && i < |r| && from[i] < |t| && |t[from[i]].body| > HEADER
    requires Tiled(t[from[i]].body, BaseOf(from[i]), 0) && BaseOf(i) + |t[from[i]].body| <= ADDRESSES
    requires OnList(t[from[i]].body, BaseOf(from[i]), 0, s)
    ensures var a, b := t[from[i]].body, r[i].body;
            && |b| == |a| && Inside(a, s) && ListOk(b, BaseOf(i), 0)
            && ListFrom(b, BaseOf(i), 0) == ListFrom(a, BaseOf(from[i]), 0)
            && SizeOf(b, s) == SizeOf(a, s) && IsFree(b, s) == IsFree(a, s)
            && forall k :: s + HEADER <= k < EndOf(a, s) && k < |a| ==> b[k] == a[k]
  {
    assert Came(t, r, from, i);
    MoveKeepsListExactly(t[from[i]].body, BaseOf(from[i]), BaseOf(i));
    MoveKeepsBlocks(t[from[i]].body, BaseOf(from[i]), BaseOf(i), s);
  }

  /** When a process grows, the page behind its last one makes room for the new page. Of a byte in it that the walk
      takes for a link nothing is left: the result is the same whatever the byte was. */
  lemma GrowthForgets(t: Table, pid: nat, m: nat, join: Join, at: nat, b: Byte)
    requires InOrder(t, pid, m) && m >= 1 && pid != 0 && m < FirstFree(t) < |t|
    requires forall i :: 0 <= i < |t| && t[i].free ==> t[i].pid == 0
    requires at < |t[m].body| && LinkByte(t[m].body, at)
    ensures FirstFree(Stored(t, m, at, b)) == FirstFree(t)
    ensures Reserve(Stored(t, m, at, b), pid, join) == Reserve(t, pid, join)
  {
    var u, n := Stored(t, m, at, b), FirstFree(t);
    FirstFreeIs(u, n);
    var r := GrowthIsContiguous(t, pid, m, join);
    var w := GrowthIsContiguous(u, pid, m, join);
    LinkByteIsLost(t[m].body, BaseOf(n), at, b);
    SameGrowth(t, u, n, pid, m, join, r, w);
  }

  lemma SameGrowth(t: Table, u: Table, n: nat, pid: nat, m: nat, join: Join, r: Table, w: Table)
    requires 1 <= m < n < |t| && |u| == |t| && u == t[m := u[m]] && Moved(u[m], n) == Moved(t[m], n)
    requires GrownTo(t, n, pid, m, join, r) && GrownTo(u, n, pid, m, join, w)
    ensures r == w
  {
    assert u[0] == t[0] && u[n] == t[n];
    forall i | 0 <= i < |t| ensures r[i] == w[i] {}
  }

  /** Any other byte of it is kept, in the frame that was free. */
  lemma GrowthKeepsOthers(t: Table, pid: nat, m: nat, join: Join, at: nat) returns (r: Table)
    requires InOrder(t, pid, m) && m >= 1 && pid != 0 && m < FirstFree(t) < |t|
    requires forall i :: 0 <= i < |t| && t[i].free ==> t[i].pid == 0
    requires at < |t[m].body| && !LinkByte(t[m].body, at)
    ensures Reserve(t, pid, join) == Loaded(r) && |r| == |t|
    ensures var n := FirstFree(t); |r[n].body| == |t[m].body| && r[n].body[at] == t[m].body[at]
  {
    r := GrowthIsContiguous(t, pid, m, join);
    OtherByteIsKept(t[m].body, BaseOf(FirstFree(t)), at);
  }

  // ---------------------------------------------------------------- a run that loses data

  /** A process grows to two pages, the second a continuation of the first, and stores byte `b` there; then another
      process starts and grows. */
  function Requests(p: nat, q: nat, a: Join, c: Join, at: nat, b: Byte): seq<Request> {
    [Start(p), Grow(p, a), Store(p, 2, at, b), Start(q), Grow(q, c)]
  }

  lemma ClaimElsewhere(t: Table, pid: nat, f: nat, at: nat, b: Byte)
    requires 0 < f < FirstFree(t) < |t| && at < |t[f].body|
    ensures FirstFree(Stored(t, f, at, b)) == FirstFree(t) && |Claim(t, pid)| == |t| && Claim(t, pid)[f] == t[f]
    ensures Claim(Stored(t, f, at, b), pid) == Stored(Claim(t, pid), f, at, b)
  {
    FirstFreeIs(Stored(t, f, at, b), FirstFree(t));
  }

  /** Where the second process has started, the continuation page is in frame 1. */
  lemma SecondStarts(u: Table, p: nat, q: nat, at: nat, b: Byte) returns (v: Table)
    requires |u| >= 4 && Shows(u, [(p, 1), (p, 2)]) && at < |u[1].body|
    ensures FirstFree(u) == 2 && v == Claim(u, q) && |v| == |u| && v[1] == u[1] && Shows(v, [(q, 1), (p, 2), (p, 1)])
    ensures FirstFree(Stored(u, 1, at, b)) == 2 && Claim(Stored(u, 1, at, b), q) == Stored(v, 1, at, b)
  {
    OpenShows(u, [(p, 1), (p, 2)]);
    var head := [(p, 1), (p, 2)];
    Starts(u, head, q);
    v := Claim(u, q);
    ClaimElsewhere(u, q, 1, at, b);
    assert Added(head, (q, 1), 0) == [(q, 1), (p, 2), (p, 1)];
  }

  /** The run up to the point where the second process has started. */
  lemma StoreRun(t: Table, p: nat, q: nat, a: Join, at: nat, b: Byte, u: Table)
    requires |u| >= 4 && p != 0 && q != 0 && p != q && Shows(u, [(p, 1), (p, 2)]) && at < |u[1].body|
    requires RunsTo(t, map[], [Start(p), Grow(p, a)], u, map[p := 2])
    ensures FirstFree(u) == 2 && |Claim(u, q)| == |u| && Claim(u, q)[1] == u[1]
    ensures var v := Stored(Claim(u, q), 1, at, b);
            RunsTo(t, map[], [Start(p), Grow(p, a), Store(p, 2, at, b), Start(q)], v, map[p := 2, q := 1])
  {
    OpenShows(u, [(p, 1), (p, 2)]);
    var rs, st := [Start(p), Grow(p, a)], Store(p, 2, at, b);
    assert Is(u[1], p, 2) && forall i :: 0 <= i < |u| && i != 1 ==> !Is(u[i], p, 2);
    FindIs(u, p, 2, 1);
    StoreOn(t, rs, u, map[p := 2], st, 1);
    var v := SecondStarts(u, p, q, at, b);
    StartOn(t, rs + [st], Stored(u, 1, at, b), map[p := 2], q);
    assert map[p := 2][q := 1] == map[p := 2, q := 1];
    assert rs + [st] + [Start(q)] == [Start(p), Grow(p, a), st, Start(q)];
  }

  /** From any blank memory of four frames or more these requests lead to the same table for every byte stored at an
      offset where a header has a link: the byte is lost, although its page is still there. */
  lemma ContinuationLosesData(t: Table, p: nat, q: nat, a: Join, c: Join, at: nat) returns (r: Table)
    requires Blank(t) && |t| >= 4 && (forall i :: 0 <= i < |t| ==> |t[i].body| == PAGE_SIZE)
    requires p != 0 && q != 0 && p != q && !a.Alone? && LinkAt(0, at)
    ensures |r| == |t| && Is(r[3], p, 2) && r[3].shared
    ensures forall b :: RunsTo(t, map[], Requests(p, q, a, c, at, b), r, map[p := 2, q := 2])
  {
    var u := TwoPagesRun(t, p, a);
    SecondPage(t, p, a, u);
    r := Displaced(u, p, q, c, at);
    AllBytes(t, p, q, a, c, at, u, r);
  }

  lemma AllBytes(t: Table, p: nat, q: nat, a: Join, c: Join, at: nat, u: Table, r: Table)
    requires |u| >= 4 && p != 0 && q != 0 && p != q && Shows(u, [(p, 1), (p, 2)]) && |u[1].body| > HEADER && LinkAt(0, at)
    requires RunsTo(t, map[], [Start(p), Grow(p, a)], u, map[p := 2])
    requires FirstFree(u) < |u| && Grew(Claim(u, q), p, q, c, r)
    ensures forall b :: RunsTo(t, map[], Requests(p, q, a, c, at, b), r, map[p := 2, q := 2])
  {
    forall b ensures RunsTo(t, map[], Requests(p, q, a, c, at, b), r, map[p := 2, q := 2]) {
      LastGrowth(t, p, q, a, c, at, b, u, r);
    }
  }

  /** The second process of the two grows from one page to two. */
  ghost predicate Grew(v: Table, p: nat, q: nat, c: Join, r: Table) {
    Served(v, map[p := 2, q := 1], Grow(q, c), r, map[p := 2, q := 2])
  }

  lemma GrewIs(v: Table, p: nat, q: nat, c: Join, r: Table)
    requires p != q && ReservesTo(v, q, c, r)
    ensures Grew(v, p, q, c, r)
  {
    assert map[p := 2, q := 1][q := 2] == map[p := 2, q := 2];
    GrowServed(v, map[p := 2, q := 1], q, c, r, map[p := 2, q := 2]);
  }

  /** When it grows, the continuation page goes to frame 3. */
  lemma Displaced(u: Table, p: nat, q: nat, c: Join, at: nat) returns (r: Table)
    requires |u| >= 4 && Shows(u, [(p, 1), (p, 2)]) && at < |u[1].body| && u[1].shared && q != 0 && p != q
    ensures FirstFree(u) == 2 && |r| == |u| && Is(r[3], p, 2) && r[3].shared && Grew(Claim(u, q), p, q, c, r)
  {
    assert Is(u[1], p, 2) by { OpenShows(u, [(p, 1), (p, 2)]); }
    var v := SecondStarts(u, p, q, at, 0);
    r := Grows(v, [(q, 1), (p, 2), (p, 1)], q, 1, c);
    MakesRoom(v, q, c, r);
    GrewIs(v, p, q, c, r);
  }

  lemma MakesRoom(v: Table, q: nat, c: Join, r: Table)
    requires |v| >= 4 && GrownTo(v, 3, q, 1, c, r)
    ensures |r| == |v| && r[3] == Moved(v[1], 3)
  {
  }

  /** And it is the same page whatever the byte was. */
  lemma DisplacedForgets(v: Table, p: nat, q: nat, c: Join, at: nat, b: Byte, r: Table)
    requires |v| >= 4 && Shows(v, [(q, 1), (p, 2), (p, 1)]) && q != 0 && p != q && |v[1].body| > HEADER && LinkAt(0, at)
    requires Grew(v, p, q, c, r)
    ensures Grew(Stored(v, 1, at, b), p, q, c, r)
  {
    OpenShows(v, [(q, 1), (p, 2), (p, 1)]);
    var head := [(q, 1), (p, 2), (p, 1)];
    ShowsFree(v, head);
    ShownInOrder(v, head, q, 1);
    assert Reserve(v, q, c) == Loaded(r) by {
      OpenServed(v, map[p := 2, q := 1], Grow(q, c), r, map[p := 2, q := 2]);
    }
    FirstLinkBytes(v[1].body, at);
    GrowthForgets(v, q, 1, c, at, b);
    assert ReservesTo(Stored(v, 1, at, b), q, c, r);
    GrewIs(Stored(v, 1, at, b), p, q, c, r);
  }

  lemma SecondPage(t: Table, p: nat, a: Join, u: Table)
    requires Blank(t) && |t| >= 4 && (forall i :: 0 <= i < |t| ==> |t[i].body| == PAGE_SIZE) && !a.Alone?
    requires |Claim(t, p)| == |t| == |u| && GrownTo(Claim(t, p), 1, p, 1, a, u)
    ensures |u[1].body| == PAGE_SIZE && u[1].shared
  {
    FirstFreeIs(t, 0);
    assert Claim(t, p)[1] == t[1];
    assert u[1] == NewPage(Claim(t, p), 1, p, 1, a);
  }

  lemma LastGrowth(t: Table, p: nat, q: nat, a: Join, c: Join, at: nat, b: Byte, u: Table, r: Table)
    requires |u| >= 4 && p != 0 && q != 0 && p != q && Shows(u, [(p, 1), (p, 2)]) && |u[1].body| > HEADER && LinkAt(0, at)
    requires RunsTo(t, map[], [Start(p), Grow(p, a)], u, map[p := 2])
    requires FirstFree(u) < |u| && Grew(Claim(u, q), p, q, c, r)
    ensures RunsTo(t, map[], Requests(p, q, a, c, at, b), r, map[p := 2, q := 2])
  {
    var v := SecondStarts(u, p, q, at, b);
    StoreRun(t, p, q, a, at, b, u);
    DisplacedForgets(v, p, q, c, at, b, r);
    OneMore(t, p, q, a, c, at, b, Stored(v, 1, at, b), r);
  }

  lemma OneMore(t: Table, p: nat, q: nat, a: Join, c: Join, at: nat, b: Byte, w: Table, r: Table)
    requires RunsTo(t, map[], [Start(p), Grow(p, a), Store(p, 2, at, b), Start(q)], w, map[p := 2, q := 1])
    requires Grew(w, p, q, c, r)
    ensures RunsTo(t, map[], Requests(p, q, a, c, at, b), r, map[p := 2, q := 2])
  {
    var rs := [Start(p), Grow(p, a), Store(p, 2, at, b), Start(q)];
    RunsToLast(t, map[], rs, w, map[p := 2, q := 1], Grow(q, c), r, map[p := 2, q := 2]);
    assert rs + [Grow(q, c)] == Requests(p, q, a, c, at, b);
  }
}
