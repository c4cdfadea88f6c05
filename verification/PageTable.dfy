/** The page manager on the level of whole pages: which page is in which frame, and what is in it. */
module PageTable {
  import opened Bytes
  import opened Chunks
  import opened Carving

  const PAGE_SIZE: nat := 4096
  const MEMORY_START: nat := 2097152

  /** The address of the page in frame `i`. */
  function BaseOf(i: nat): (base: nat)
    ensures base > 0
  {
    MEMORY_START + i * PAGE_SIZE
  }

  /** A page with its owner, its place in the owner's memory, and its bytes. `shared` marks a page in which the
      last chunk of the page before it goes on. */
  datatype Page = Page(pid: nat, order: int, free: bool, shared: bool, body: seq<Byte>)

  type Table = seq<Page>

  predicate Is(p: Page, pid: nat, order: int) { p.pid == pid && p.order == order }

  /** The first frame at or after `i` with that page, or the number of frames. */
  function FindFrom(t: Table, pid: nat, order: int, i: nat): (r: nat)
    requires i <= |t|
    ensures i <= r <= |t| && (r < |t| ==> Is(t[r], pid, order)) && forall j :: i <= j < r ==> !Is(t[j], pid, order)
    decreases |t| - i
  {
    if i == |t| || Is(t[i], pid, order) then i else FindFrom(t, pid, order, i + 1)
  }

  function Find(t: Table, pid: nat, order: int): nat { FindFrom(t, pid, order, 0) }

  lemma FindIs(t: Table, pid: nat, order: int, n: nat)
    requires n < |t| && Is(t[n], pid, order) && forall i :: 0 <= i < |t| && i != n ==> !Is(t[i], pid, order)
    ensures Find(t, pid, order) == n
  {
  }

  function FreeFrom(t: Table, i: nat): (r: nat)
    requires i <= |t|
    ensures i <= r <= |t| && (r < |t| ==> t[r].free) && forall j :: i <= j < r ==> !t[j].free
    decreases |t| - i
  {
    if i == |t| || t[i].free then i else FreeFrom(t, i + 1)
  }

  function FirstFree(t: Table): nat { FreeFrom(t, 0) }

  lemma FirstFreeIs(t: Table, n: nat)
    requires n < |t| && t[n].free && forall i :: 0 <= i < n ==> !t[i].free
    ensures FirstFree(t) == n
  {
  }

  /** The page after it has come to frame `i`: the links in it are rebuilt. */
  function Moved(p: Page, i: nat): (r: Page)
    ensures r == p.(body := r.body) && |r.body| == |p.body|
  {
    p.(body := Restored(p.body, BaseOf(i)))
  }

  /** Only the last move counts. */
  lemma MovedAgain(p: Page, i: nat, j: nat)
    ensures Moved(Moved(p, i), j) == Moved(p, j)
  {
    RestoredTwice(p.body, BaseOf(i), BaseOf(j));
  }

  /** swapPages. */
  function Exchange(t: Table, i: nat, j: nat): (r: Table)
    requires i < |t| && j < |t|
    ensures |r| == |t|
  {
    if i == j then t else t[i := Moved(t[j], i)][j := Moved(t[i], j)]
  }

  /** The bytes of the page in frame `i` after initializeSpace. */
  function FreshBody(b: seq<Byte>, i: nat): (r: seq<Byte>)
    ensures |r| == |b|
  {
    if |b| <= HEADER then b else Fresh(b, BaseOf(i))
  }

  /** The page in free frame `n` after it was given to `pid`. */
  function Given(t: Table, n: nat, pid: nat): (p: Page)
    requires n < |t|
  {
    t[n].(free := false, pid := pid, body := FreshBody(t[n].body, n))
  }

  /** A load either places pages or runs off the table. */
  datatype Loading = Loaded(table: Table) | Fault

  ghost predicate Below(t: Table, top: int) { forall i :: 0 <= i < |t| ==> t[i].order <= top }

  /** A bound on the orders: the loops below look for one page after the other and stop above it. */
  ghost function Top(t: Table): (top: int)
    ensures Below(t, top)
  {
    if t == [] then 0
    else
      var rest, last := Top(t[..|t| - 1]), t[|t| - 1].order;
      if last > rest then last else rest
  }

  ghost function Bottom(t: Table): (b: int)
    ensures forall i :: 0 <= i < |t| ==> t[i].order >= b
  {
    if t == [] then 0
    else
      var rest, last := Bottom(t[..|t| - 1]), t[|t| - 1].order;
      if last < rest then last else rest
  }

  /** The loop of loadProcessPages: page `k` goes behind frame `p1`, then the frame it came from is next. */
  ghost function LoadFrom(t: Table, pid: nat, p1: nat, k: int, top: int): Loading
    requires p1 < |t| && Below(t, top)
    decreases top + 1 - k
  {
    var p2 := Find(t, pid, k);
    if p2 == |t| then Loaded(t)
    else if p1 == p2 then LoadFrom(t, pid, p2, k + 1, top)
    else if p1 + 1 == |t| then Fault
    else LoadFrom(Exchange(t, p1 + 1, p2), pid, p2, k + 1, top)
  }

  /** makeContiguous where there is a frame behind `p1`. */
  function Followed(t: Table, p1: nat, p2: nat): Table
    requires p1 < |t| && p2 < |t| && (p1 == p2 || p1 + 1 < |t|)
  {
    if p1 == p2 then t else Exchange(t, p1 + 1, p2)
  }

  ghost predicate Loads(t: Table, pid: nat, p1: nat, k: int, top: int, l: Loading, u: Unit) {
    p1 < |t| && Below(t, top) && LoadFrom(t, pid, p1, k, top) == l
  }

  /** The loop, from this point on, ends in `l`. The quantifier keeps its definition folded. */
  ghost predicate LoadsTo(t: Table, pid: nat, p1: nat, k: int, top: int, l: Loading) {
    forall u :: Loads(t, pid, p1, k, top, l, u)
  }

  lemma LoadsToStep(t: Table, pid: nat, p1: nat, k: int, top: int, l: Loading, p2: nat)
    requires LoadsTo(t, pid, p1, k, top, l) && p2 == Find(t, pid, k) < |t|
    ensures k <= top && p1 < |t|
    ensures p1 != p2 && p1 + 1 == |t| ==> l.Fault?
    ensures p1 == p2 || p1 + 1 < |t| ==> LoadsTo(Followed(t, p1, p2), pid, p2, k + 1, top, l)
  {
    assert Loads(t, pid, p1, k, top, l, Unit);
  }

  lemma LoadsToEnd(t: Table, pid: nat, p1: nat, k: int, top: int, l: Loading)
    requires LoadsTo(t, pid, p1, k, top, l) && Find(t, pid, k) == |t|
    ensures l == Loaded(t)
  {
    assert Loads(t, pid, p1, k, top, l, Unit);
  }

  /** loadProcessPages: the first page goes to the first frame, the others behind it. */
  ghost function Load(t: Table, pid: nat): Loading {
    var n := Find(t, pid, 1);
    if n == |t| then Fault else LoadFrom(Exchange(t, 0, n), pid, 0, 2, Top(t))
  }

  /** getFreePage when a frame is free: it is claimed and put first. */
  function Claim(t: Table, pid: nat): Table
    requires FirstFree(t) < |t|
  {
    var n := FirstFree(t);
    Exchange(t[n := Given(t, n, pid)], 0, n)
  }

  /** The number of pages that are found when asking for page k + 1, k + 2, and so on. */
  ghost function LastFrom(t: Table, pid: nat, k: int, top: int): (r: int)
    requires Below(t, top)
    ensures r >= k
    decreases top + 1 - k
  {
    if Find(t, pid, k + 1) == |t| then k else LastFrom(t, pid, k + 1, top)
  }

  ghost predicate Lasts(t: Table, pid: nat, k: int, top: int, r: int, u: Unit) {
    Below(t, top) && LastFrom(t, pid, k, top) == r
  }

  /** Counting up from page `k` ends at page `r`. The quantifier keeps the definition folded. */
  ghost predicate LastsTo(t: Table, pid: nat, k: int, top: int, r: int) { forall u :: Lasts(t, pid, k, top, r, u) }

  lemma LastsToStep(t: Table, pid: nat, k: int, top: int, r: int)
    requires LastsTo(t, pid, k, top, r)
    ensures if Find(t, pid, k + 1) == |t| then r == k else k + 1 <= top && LastsTo(t, pid, k + 1, top, r)
  {
    assert Lasts(t, pid, k, top, r, Unit);
  }

  /** The new page, first in the table, before it has its place in the order. */
  function Unplaced(t: Table, pid: nat): (r: Table)
    requires FirstFree(t) < |t|
    ensures |r| == |t| > 0
  {
    var claimed := Claim(t, pid);
    claimed[0 := claimed[0].(order := -1)]
  }

  /** What joinFreeSpace does: nothing, or it lets the chunk at offset `at` of the last page, or a chunk in
      another page, go on into the new page. */
  datatype Join = Alone | Into(at: nat) | Elsewhere

  /** The chunk at offset `at` is `more` bytes larger; its size field wraps around. */
  function Enlarged(b: seq<Byte>, at: nat, more: nat): (r: seq<Byte>)
    ensures |r| == |b|
  {
    if Inside(b, at) then Put(b, at + 24, 4, SizeOf(b, at) + more) else b
  }

  /** The page after a chunk of it was enlarged by a page of `more` bytes. */
  function Extended(p: Page, join: Join, more: nat): (r: Page)
    ensures r == p.(body := r.body) && |r.body| == |p.body|
  {
    if join.Into? then p.(body := Enlarged(p.body, join.at, more)) else p
  }

  /** joinFreeSpace for the new page, which is first, and the page in frame `last`. */
  function Joined(t: Table, last: nat, join: Join): (r: Table)
    requires t != [] && last < |t|
    ensures |r| == |t|
  {
    var t' := t[0 := t[0].(shared := t[0].shared || !join.Alone?)];
    t'[last := Extended(t'[last], join, |t[0].body|)]
  }

  /** The first page of the table gets the number behind the last page found of `pid`. */
  ghost function Renumbered(t: Table, pid: nat): (r: Table)
    requires t != []
    ensures |r| == |t|
  {
    t[0 := t[0].(order := LastFrom(t, pid, 1, Top(t)) + 1)]
  }

  /** The frame of the last page found when asking for page 1, 2, and so on. */
  ghost function LastFrame(t: Table, pid: nat): nat { Find(t, pid, LastFrom(t, pid, 1, Top(t))) }

  /** reserveAnotherPage when a frame is free. */
  ghost function Reserve(t: Table, pid: nat, join: Join): Loading
    requires FirstFree(t) < |t|
  {
    var t' := Unplaced(t, pid);
    if LastFrame(t', pid) == |t'| then Fault
    else Load(Renumbered(Joined(t', LastFrame(t', pid), join), pid), pid)
  }

  ghost predicate Reserves(t: Table, pid: nat, join: Join, r: Table, u: Unit) {
    FirstFree(t) < |t| && Reserve(t, pid, join) == Loaded(r)
  }

  /** reserveAnotherPage leads from `t` to `r`. The quantifier keeps its definition folded. */
  ghost predicate ReservesTo(t: Table, pid: nat, join: Join, r: Table) { forall u :: Reserves(t, pid, join, r, u) }

  lemma OpenReserves(t: Table, pid: nat, join: Join, r: Table)
    requires ReservesTo(t, pid, join, r)
    ensures FirstFree(t) < |t| && Reserve(t, pid, join) == Loaded(r)
  {
    assert Reserves(t, pid, join, r, Unit);
  }

  // ---------------------------------------------------------------- pages only move

  ghost predicate InRange(n: nat, swaps: seq<(nat, nat)>) {
    forall i :: 0 <= i < |swaps| ==> swaps[i].0 < n && swaps[i].1 < n
  }

  /** The table after a series of exchanges. */
  ghost function Exchanges(t: Table, swaps: seq<(nat, nat)>): (r: Table)
    requires InRange(|t|, swaps)
    ensures |r| == |t|
    decreases |swaps|
  {
    if swaps == [] then t else Exchanges(Exchange(t, swaps[0].0, swaps[0].1), swaps[1..])
  }

  lemma {:induction false} LoadFromExchanges(t: Table, pid: nat, p1: nat, k: int, top: int, l: Loading)
      returns (swaps: seq<(nat, nat)>)
    requires LoadsTo(t, pid, p1, k, top, l)
    ensures InRange(|t|, swaps) && (l.Loaded? ==> l.table == Exchanges(t, swaps))
    decreases top + 1 - k
  {
    swaps := [];
    var p2 := Find(t, pid, k);
    if p2 == |t| {
      LoadsToEnd(t, pid, p1, k, top, l);
    } else {
      LoadsToStep(t, pid, p1, k, top, l, p2);
      if p1 == p2 {
        swaps := LoadFromExchanges(t, pid, p2, k + 1, top, l);
      } else if p1 + 1 < |t| {
        var rest := LoadFromExchanges(Exchange(t, p1 + 1, p2), pid, p2, k + 1, top, l);
        swaps := [(p1 + 1, p2)] + rest;
        assert swaps[1..] == rest;
      }
    }
  }

  /** Loading a process is a series of exchanges of frames. */
  lemma LoadExchanges(t: Table, pid: nat) returns (swaps: seq<(nat, nat)>)
    ensures InRange(|t|, swaps) && (Load(t, pid).Loaded? ==> Load(t, pid).table == Exchanges(t, swaps))
  {
    swaps := [];
    var n := Find(t, pid, 1);
    if n < |t| {
      var rest := LoadFromExchanges(Exchange(t, 0, n), pid, 0, 2, Top(t), Load(t, pid));
      swaps := [(0, n)] + rest;
      assert swaps[1..] == rest;
    }
  }

  /** The page now in frame `i` was in frame `from[i]`, and has been moved, unless it never was. */
  ghost predicate Came(t: Table, r: Table, from: seq<nat>, i: nat)
    requires i < |r| && i < |from|
  {
    from[i] < |t| && (r[i] == Moved(t[from[i]], i) || (from[i] == i && r[i] == t[i]))
  }

  /** The pages are where they were, or have changed places; those that moved have their links rebuilt. */
  ghost predicate Rearranged(t: Table, r: Table, from: seq<nat>) {
    && |r| == |t| == |from|
    && (forall i, j :: 0 <= i < j < |from| ==> from[i] != from[j])
    && (forall i :: 0 <= i < |from| ==> Came(t, r, from, i))
  }

  function Transposed(n: nat, i: nat, j: nat): (from: seq<nat>)
    ensures |from| == n && forall k :: 0 <= k < n ==> from[k] == if k == i then j else if k == j then i else k
  {
    seq(n, k => if k == i then j else if k == j then i else k)
  }

  lemma ExchangeRearranges(t: Table, i: nat, j: nat)
    requires i < |t| && j < |t|
    ensures Rearranged(t, Exchange(t, i, j), Transposed(|t|, i, j))
  {
  }

  function Composed(a: seq<nat>, b: seq<nat>): (c: seq<nat>)
    requires forall i :: 0 <= i < |b| ==> b[i] < |a|
    ensures |c| == |b| && forall i :: 0 <= i < |b| ==> c[i] == a[b[i]]
  {
    seq(|b|, i requires 0 <= i < |b| => a[b[i]])
  }

  lemma CameTwice(t: Table, u: Table, r: Table, a: seq<nat>, b: seq<nat>, i: nat)
    requires i < |r| && i < |b| && Came(u, r, b, i) && b[i] < |a| && b[i] < |u| && Came(t, u, a, b[i])
    requires forall k :: 0 <= k < |b| ==> b[k] < |a|
    ensures Came(t, r, Composed(a, b), i)
  {
    if u[b[i]] == Moved(t[a[b[i]]], b[i]) { MovedAgain(t[a[b[i]]], b[i], i); }
  }

  lemma RearrangedTwice(t: Table, u: Table, r: Table, a: seq<nat>, b: seq<nat>)
    requires Rearranged(t, u, a) && Rearranged(u, r, b)
    ensures (forall k :: 0 <= k < |b| ==> b[k] < |a|) && Rearranged(t, r, Composed(a, b))
  {
    forall k | 0 <= k < |b| ensures b[k] < |a| { assert Came(u, r, b, k); }
    forall i | 0 <= i < |b| ensures Came(t, r, Composed(a, b), i) {
      assert Came(u, r, b, i);
      assert Came(t, u, a, b[i]);
      CameTwice(t, u, r, a, b, i);
    }
  }

  lemma {:induction false} ExchangesRearrange(t: Table, swaps: seq<(nat, nat)>) returns (from: seq<nat>)
    requires InRange(|t|, swaps)
    ensures Rearranged(t, Exchanges(t, swaps), from)
    decreases |swaps|
  {
    if swaps == [] {
      from := Transposed(|t|, 0, 0);
    } else {
      var u := Exchange(t, swaps[0].0, swaps[0].1);
      var rest := ExchangesRearrange(u, swaps[1..]);
      ExchangeRearranges(t, swaps[0].0, swaps[0].1);
      RearrangedTwice(t, u, Exchanges(t, swaps), Transposed(|t|, swaps[0].0, swaps[0].1), rest);
      from := Composed(Transposed(|t|, swaps[0].0, swaps[0].1), rest);
    }
  }

  /** Loading a process rearranges the pages: none is lost or doubled, and all that changes in a page that has
      moved is its links. */
  lemma LoadRearranges(t: Table, pid: nat) returns (from: seq<nat>)
    ensures Load(t, pid).Loaded? ==> Rearranged(t, Load(t, pid).table, from)
  {
    var swaps := LoadExchanges(t, pid);
    from := ExchangesRearrange(t, swaps);
  }

  /** So every byte of every page is kept, but for the bytes that a move takes for links. */
  lemma RearrangedKeepsBytes(t: Table, r: Table, from: seq<nat>, i: nat, b: nat)
    requires Rearranged(t, r, from) && i < |r| && from[i] < |t| && b < |t[from[i]].body|
    ensures r[i] == t[from[i]].(body := r[i].body) && |r[i].body| == |t[from[i]].body|
    ensures !LinkByte(t[from[i]].body, b) ==> r[i].body[b] == t[from[i]].body[b]
  {
    assert Came(t, r, from, i);
    if !LinkByte(t[from[i]].body, b) { OtherByteIsKept(t[from[i]].body, BaseOf(i), b); }
  }

  // ---------------------------------------------------------------- growth

  /** The pages of `pid` are 1 to `m`, in order in the first frames, and nowhere else. */
  ghost predicate InOrder(t: Table, pid: nat, m: nat) {
    && m <= |t|
    && (forall i :: 0 <= i < m ==> Is(t[i], pid, i + 1) && !t[i].free)
    && (forall i :: m <= i < |t| ==> t[i].pid != pid)
  }

  /** Nothing moves while the pages found are where they should be. */
  lemma {:induction false} LoadInOrder(t: Table, pid: nat, m: nat, n: nat, k: nat, top: int)
    requires Below(t, top) && 1 <= m <= n < |t| && 2 <= k <= m + 1
    requires forall i :: 0 <= i < m ==> Is(t[i], pid, i + 1)
    requires Is(t[n], pid, m + 1) && forall i :: m <= i < |t| && i != n ==> t[i].pid != pid
    ensures LoadFrom(t, pid, k - 2, k, top) == Loaded(Exchange(t, m, n))
    decreases m + 1 - k
  {
    if k <= m {
      FindIs(t, pid, k, k - 1);
      LoadInOrder(t, pid, m, n, k + 1, top);
    } else {
      FindIs(t, pid, k, n);
      NoneBehind(t, pid, m, n);
    }
  }

  lemma NoneBehind(t: Table, pid: nat, m: nat, n: nat)
    requires 1 <= m <= n < |t| && (forall i :: 0 <= i < m ==> Is(t[i], pid, i + 1))
    requires Is(t[n], pid, m + 1) && forall i :: m <= i < |t| && i != n ==> t[i].pid != pid
    ensures Find(Exchange(t, m, n), pid, m + 2) == |t|
  {
    assert forall i :: 0 <= i < |t| ==> !Is(Exchange(t, m, n)[i], pid, m + 2);
  }

  lemma {:induction false} LoadRestInOrder(t: Table, pid: nat, m: nat, k: nat, top: int)
    requires InOrder(t, pid, m) && Below(t, top) && 2 <= k <= m + 1
    ensures LoadFrom(t, pid, k - 2, k, top) == Loaded(t)
    decreases m + 1 - k
  {
    if k <= m {
      FindIs(t, pid, k, k - 1);
      LoadRestInOrder(t, pid, m, k + 1, top);
    } else {
      assert forall i :: 0 <= i < |t| ==> !Is(t[i], pid, k);
    }
  }

  /** Loading a process whose pages are in order changes nothing. */
  lemma LoadKeepsOrder(t: Table, pid: nat, m: nat)
    requires InOrder(t, pid, m) && m >= 1
    ensures Load(t, pid) == Loaded(t)
  {
    FindIs(t, pid, 1, 0);
    LoadRestInOrder(t, pid, m, 2, Top(t));
  }

  lemma {:induction false} LastInOrder(t: Table, pid: nat, m: nat, k: nat, top: int)
    requires Below(t, top) && 1 <= k <= m && FoundUpTo(t, pid, m)
    ensures LastFrom(t, pid, k, top) == m
    decreases m - k
  {
    if k < m { LastInOrder(t, pid, m, k + 1, top); }
  }

  /** The pages of `pid` are found from 1 to `m`. */
  ghost predicate FoundUpTo(t: Table, pid: nat, m: nat) {
    (forall j :: 1 <= j <= m ==> Find(t, pid, j) < |t|) && Find(t, pid, m + 1) == |t|
  }

  ghost predicate SameTags(t: Table, u: Table) {
    |t| == |u| && forall i :: 0 <= i < |t| ==> t[i].pid == u[i].pid && t[i].order == u[i].order
  }

  lemma {:induction false} SameFind(t: Table, u: Table, pid: nat, order: int, i: nat)
    requires SameTags(t, u) && i <= |t|
    ensures FindFrom(t, pid, order, i) == FindFrom(u, pid, order, i)
    decreases |t| - i
  {
    if i < |t| { SameFind(t, u, pid, order, i + 1); }
  }

  lemma {:induction false} SameTop(t: Table, u: Table)
    requires SameTags(t, u)
    ensures Top(t) == Top(u)
  {
    if t != [] { SameTop(t[..|t| - 1], u[..|u| - 1]); }
  }

  lemma {:induction false} SameLast(t: Table, u: Table, pid: nat, k: int, top: int)
    requires SameTags(t, u) && Below(t, top)
    ensures Below(u, top) && LastFrom(t, pid, k, top) == LastFrom(u, pid, k, top)
    decreases top + 1 - k
  {
    SameFind(t, u, pid, k + 1, 0);
    if Find(t, pid, k + 1) < |t| { SameLast(t, u, pid, k + 1, top); }
  }

  lemma SameFound(t: Table, u: Table, pid: nat, m: nat)
    requires SameTags(t, u) && FoundUpTo(t, pid, m)
    ensures FoundUpTo(u, pid, m)
  {
    forall j ensures Find(u, pid, j) == Find(t, pid, j) { SameFind(t, u, pid, j, 0); }
  }

  /** Where the pages are while the new page has no number. */
  lemma UnplacedIs(t: Table, pid: nat)
    requires FirstFree(t) < |t|
    ensures Unplaced(t, pid) == UnplacedAt(t, FirstFree(t), pid)
  {
  }

  /** The table before the load in reserveAnotherPage: the new page, as page m + 1, is first, the page that was
      first is in frame `n`, and the last page, from frame `f`, goes on into the new page. */
  function Grafted(t: Table, n: nat, f: nat, pid: nat, m: nat, join: Join): (g: Table)
    requires n < |t| && f < |t|
    ensures |g| == |t|
  {
    var u := Joined(UnplacedAt(t, n, pid), if f == 0 then n else f, join);
    u[0 := u[0].(order := m + 1)]
  }

  lemma ReserveIsLoad(t: Table, pid: nat, m: nat, join: Join, f: nat)
    requires FirstFree(t) < |t| && m >= 1 && FoundUpTo(Unplaced(t, pid), pid, m) && f < |t| && f != FirstFree(t)
    requires Find(Unplaced(t, pid), pid, m) == if f == 0 then FirstFree(t) else f
    ensures Reserve(t, pid, join) == Load(Grafted(t, FirstFree(t), f, pid, m, join), pid)
  {
    var n, t2 := FirstFree(t), Unplaced(t, pid);
    var last := if f == 0 then n else f;
    UnplacedIs(t, pid);
    assert LastFrame(t2, pid) == last by { LastIs(t2, pid, m); }
    ReserveIs(t, pid, join, last);
    JoinedIsRenumbered(t2, last, pid, m, join);
  }

  lemma ReserveIs(t: Table, pid: nat, join: Join, last: nat)
    requires FirstFree(t) < |t| && LastFrame(Unplaced(t, pid), pid) == last < |t|
    ensures Reserve(t, pid, join) == Load(Renumbered(Joined(Unplaced(t, pid), last, join), pid), pid)
  {
  }

  lemma JoinedIsRenumbered(t: Table, last: nat, pid: nat, m: nat, join: Join)
    requires t != [] && last < |t| && m >= 1 && FoundUpTo(t, pid, m)
    ensures var u := Joined(t, last, join); Renumbered(u, pid) == u[0 := u[0].(order := m + 1)]
  {
    JoinedKeepsTags(t, last, join);
    SameFound(t, Joined(t, last, join), pid, m);
    LastIs(Joined(t, last, join), pid, m);
  }

  lemma LastIs(t: Table, pid: nat, m: nat)
    requires t != [] && m >= 1 && FoundUpTo(t, pid, m)
    ensures LastFrame(t, pid) == Find(t, pid, m) && Renumbered(t, pid) == t[0 := t[0].(order := m + 1)]
  {
    LastInOrder(t, pid, m, 1, Top(t));
  }

  lemma JoinedKeepsTags(t: Table, last: nat, join: Join)
    requires t != [] && last < |t|
    ensures SameTags(t, Joined(t, last, join))
  {
  }

  function UnplacedAt(t: Table, n: nat, pid: nat): (r: Table)
    requires n < |t|
    ensures |r| == |t|
  {
    var p := Given(t, n, pid).(order := -1);
    if n == 0 then t[0 := p] else t[n := Moved(t[0], n)][0 := Moved(p, 0)]
  }

  /** What a page grows to when a process with pages in the first `m` frames grows: the new page, in frame `m`. */
  function NewPage(t: Table, n: nat, pid: nat, m: nat, join: Join): Page
    requires n < |t|
  {
    Moved(Given(t, n, pid).(order := m + 1, shared := t[n].shared || !join.Alone?), m)
  }

  /** Table `r` after a process with pages in the first `m` frames of `t` has grown: the new page is behind them,
      and the page that was there has moved to the frame that was free. The first page has been away and is back.
      The last page has a larger chunk if that goes on into the new page. Every other page is as it was. */
  ghost predicate GrownTo(t: Table, n: nat, pid: nat, m: nat, join: Join, r: Table)
    requires 1 <= m <= n < |t|
  {
    var size := |t[n].body|;
    && |r| == |t| && r[m] == NewPage(t, n, pid, m, join)
    && (n != m ==> r[n] == Moved(t[m], n))
    && (if m == 1 then r[0] == Moved(Extended(Moved(t[0], n), join, size), 0)
        else r[0] == Moved(t[0], 0) && r[m - 1] == Extended(t[m - 1], join, size))
    && forall i :: 0 < i < |t| && i != m - 1 && i != m && i != n ==> r[i] == t[i]
  }

  /** A process whose pages are in order grows in place. */
  lemma GrowthIsContiguous(t: Table, pid: nat, m: nat, join: Join) returns (r: Table)
    requires InOrder(t, pid, m) && m >= 1 && pid != 0 && FirstFree(t) < |t|
    requires forall i :: 0 <= i < |t| && t[i].free ==> t[i].pid == 0
    ensures m <= FirstFree(t) && Reserve(t, pid, join) == Loaded(r) && InOrder(r, pid, m + 1)
    ensures GrownTo(t, FirstFree(t), pid, m, join, r)
  {
    var n := FirstFree(t);
    assert m <= n && t[n].pid != pid;
    var g := Grafted(t, n, m - 1, pid, m, join);
    ReserveInOrder(t, pid, m, join);
    GraftedOrder(t, n, pid, m, join, g);
    var h := Exchange(g, 0, n);
    BackInOrder(g, h, n, pid, m);
    r := Exchange(h, m, n);
    LoadInOrder(h, pid, m, n, 2, Top(g));
    GrownInOrder(h, n, pid, m);
    GraftedGrows(t, n, pid, m, join, g, h, r);
  }

  lemma ReserveInOrder(t: Table, pid: nat, m: nat, join: Join)
    requires InOrder(t, pid, m) && m >= 1 && m <= FirstFree(t) < |t|
    ensures Reserve(t, pid, join) == Load(Grafted(t, FirstFree(t), m - 1, pid, m, join), pid)
  {
    UnplacedIs(t, pid);
    FoundWhileGrowing(t, pid, m, FirstFree(t), Unplaced(t, pid));
    ReserveIsLoad(t, pid, m, join, m - 1);
  }

  /** Before the load, the new page is first and the first page in frame `n`. */
  ghost predicate NewPageFirst(g: Table, n: nat, pid: nat, m: nat) {
    && 1 <= m <= n < |g| && Is(g[0], pid, m + 1) && !g[0].free && Is(g[n], pid, 1) && !g[n].free
    && (forall i :: 0 < i < m ==> Is(g[i], pid, i + 1) && !g[i].free)
    && (forall i :: m <= i < |g| && i != n ==> g[i].pid != pid)
  }

  lemma GraftedOrder(t: Table, n: nat, pid: nat, m: nat, join: Join, g: Table)
    requires InOrder(t, pid, m) && 1 <= m <= n < |t| && t[n].pid != pid && g == Grafted(t, n, m - 1, pid, m, join)
    ensures NewPageFirst(g, n, pid, m)
  {
  }

  /** Then the first page is found and goes back. */
  lemma BackInOrder(g: Table, h: Table, n: nat, pid: nat, m: nat)
    requires NewPageFirst(g, n, pid, m) && n < |g| && h == Exchange(g, 0, n)
    ensures Load(g, pid) == LoadFrom(h, pid, 0, 2, Top(g)) && Below(h, Top(g))
    ensures forall i :: 0 <= i < m ==> Is(h[i], pid, i + 1) && !h[i].free
    ensures Is(h[n], pid, m + 1) && !h[n].free && forall i :: m <= i < |h| && i != n ==> h[i].pid != pid
  {
    FindIs(g, pid, 1, n);
  }

  lemma GraftedGrows(t: Table, n: nat, pid: nat, m: nat, join: Join, g: Table, h: Table, r: Table)
    requires InOrder(t, pid, m) && 1 <= m <= n < |t| && t[n].pid != pid && g == Grafted(t, n, m - 1, pid, m, join)
    requires h == Exchange(g, 0, n) && r == Exchange(h, m, n)
    ensures GrownTo(t, n, pid, m, join, r)
  {
    var p := Given(t, n, pid).(order := m + 1, shared := t[n].shared || !join.Alone?);
    assert g[0] == Moved(p, 0);
    MovedAgain(p, 0, n);
    MovedAgain(p, n, m);
    assert h[n] == Moved(p, n);
    if m > 1 { MovedAgain(t[0], n, 0); }
  }

  lemma GrownInOrder(h: Table, n: nat, pid: nat, m: nat)
    requires 1 <= m <= n < |h| && (forall i :: 0 <= i < m ==> Is(h[i], pid, i + 1) && !h[i].free)
    requires Is(h[n], pid, m + 1) && !h[n].free && forall i :: m <= i < |h| && i != n ==> h[i].pid != pid
    ensures InOrder(Exchange(h, m, n), pid, m + 1)
  {
  }

  lemma FoundWhileGrowing(t: Table, pid: nat, m: nat, n: nat, t2: Table)
    requires InOrder(t, pid, m) && 1 <= m <= n < |t| && |t2| == |t|
    requires t2 == t[n := Moved(t[0], n)][0 := t2[0]] && t2[0].order == -1
    ensures FoundUpTo(t2, pid, m) && Find(t2, pid, m) == if m == 1 then n else m - 1
  {
    forall j | 1 <= j <= m ensures Find(t2, pid, j) < |t2| {
      assert Is(t2[if j == 1 then n else j - 1], pid, j);
    }
    assert forall i :: 0 <= i < |t2| ==> !Is(t2[i], pid, m + 1);
    FindIs(t2, pid, m, if m == 1 then n else m - 1);
  }
}
