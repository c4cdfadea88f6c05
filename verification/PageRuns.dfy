/** Who owns which page, over every run of the page manager without eviction. */
module PageRuns {
  import opened Bytes
  import opened Chunks
  import opened PageTable

  /** How many pages each process has. */
  type Sizes = map<nat, nat>

  ghost predicate FreeOk(t: Table) {
    forall i :: 0 <= i < |t| && t[i].free ==> t[i].pid == 0 && t[i].order == 1
  }

  ghost predicate TakenOk(t: Table, sizes: Sizes) {
    forall i :: 0 <= i < |t| && !t[i].free ==> t[i].pid in sizes && 1 <= t[i].order <= sizes[t[i].pid]
  }

  ghost predicate NoTwins(t: Table) {
    forall i, j :: 0 <= i < j < |t| && !t[i].free && !t[j].free ==> !Is(t[j], t[i].pid, t[i].order)
  }

  ghost predicate Has(t: Table, pid: nat, k: int) { exists i :: 0 <= i < |t| && !t[i].free && Is(t[i], pid, k) }

  ghost predicate AllThere(t: Table, sizes: Sizes) {
    forall pid, k :: pid in sizes && 1 <= k <= sizes[pid] ==> Has(t, pid, k)
  }

  /** Free frames are blank; the pages of each process are numbered 1 to its size, each once. The quantifier keeps
      this folded. */
  ghost predicate Owned(t: Table, sizes: Sizes) { forall u :: IsOwned(t, sizes, u) }

  lemma OpenOwned(t: Table, sizes: Sizes)
    requires Owned(t, sizes)
    ensures FreeOk(t) && TakenOk(t, sizes) && NoTwins(t) && AllThere(t, sizes) && 0 !in sizes
  {
    assert IsOwned(t, sizes, Unit);
  }

  ghost predicate IsOwned(t: Table, sizes: Sizes, u: Unit) {
    FreeOk(t) && TakenOk(t, sizes) && NoTwins(t) && AllThere(t, sizes) && 0 !in sizes
  }

  lemma ExchangeOwned(t: Table, sizes: Sizes, i: nat, j: nat)
    requires Owned(t, sizes) && i < |t| && j < |t|
    ensures Owned(Exchange(t, i, j), sizes)
  {
    OpenOwned(t, sizes);
    var t' := Exchange(t, i, j);
    forall pid, k | pid in sizes && 1 <= k <= sizes[pid] ensures Has(t', pid, k) {
      assert Has(t, pid, k);
      var f :| 0 <= f < |t| && !t[f].free && Is(t[f], pid, k);
      assert Is(t'[if f == i then j else if f == j then i else f], pid, k);
    }
  }

  lemma {:induction false} ExchangesOwned(t: Table, sizes: Sizes, swaps: seq<(nat, nat)>)
    requires Owned(t, sizes) && InRange(|t|, swaps)
    ensures Owned(Exchanges(t, swaps), sizes)
    decreases |swaps|
  {
    if swaps != [] {
      ExchangeOwned(t, sizes, swaps[0].0, swaps[0].1);
      ExchangesOwned(Exchange(t, swaps[0].0, swaps[0].1), sizes, swaps[1..]);
    }
  }

  lemma LoadOwned(t: Table, sizes: Sizes, pid: nat)
    requires Owned(t, sizes)
    ensures var l := Load(t, pid); l.Loaded? ==> Owned(l.table, sizes)
  {
    var swaps := LoadExchanges(t, pid);
    ExchangesOwned(t, sizes, swaps);
  }

  /** A process gets its next page in a free frame. */
  lemma TakeOwned(t: Table, sizes: Sizes, n: nat, p: Page)
    requires Owned(t, sizes) && n < |t| && t[n].free && !p.free && p.pid != 0
    requires p.order == (if p.pid in sizes then sizes[p.pid] else 0) + 1
    ensures Owned(t[n := p], sizes[p.pid := p.order])
  {
    OpenOwned(t, sizes);
    var t' := t[n := p];
    forall pid, k | pid in sizes[p.pid := p.order] && 1 <= k <= sizes[p.pid := p.order][pid] ensures Has(t', pid, k) {
      if pid == p.pid && k == p.order {
        assert Is(t'[n], pid, k);
      } else {
        assert Has(t, pid, k);
        var f :| 0 <= f < |t| && !t[f].free && Is(t[f], pid, k);
        assert t'[f] == t[f];
      }
    }
  }

  lemma ClaimOwned(t: Table, sizes: Sizes, pid: nat)
    requires Owned(t, sizes) && FirstFree(t) < |t| && pid != 0 && pid !in sizes
    ensures Owned(Claim(t, pid), sizes[pid := 1])
  {
    OpenOwned(t, sizes);
    var n := FirstFree(t);
    var p := Given(t, n, pid);
    TakeOwned(t, sizes, n, p);
    ExchangeOwned(t[n := p], sizes[pid := 1], 0, n);
  }

  /** While its new page has no number, the pages of a process are found up to its size. */
  lemma FoundUnplaced(t: Table, sizes: Sizes, pid: nat)
    requires Owned(t, sizes) && FirstFree(t) < |t| && pid in sizes
    ensures FoundUpTo(Unplaced(t, pid), pid, sizes[pid])
  {
    OpenOwned(t, sizes);
    var n, t' := FirstFree(t), Unplaced(t, pid);
    UnplacedIs(t, pid);
    forall j | 1 <= j <= sizes[pid] ensures Find(t', pid, j) < |t'| {
      assert Has(t, pid, j);
      var f :| 0 <= f < |t| && !t[f].free && Is(t[f], pid, j);
      assert Is(t'[if f == 0 then n else f], pid, j);
    }
    assert forall i :: 0 <= i < |t| ==> !Is(t'[i], pid, sizes[pid] + 1);
  }

  lemma LastPageAt(t: Table, sizes: Sizes, pid: nat) returns (f: nat)
    requires Owned(t, sizes) && FirstFree(t) < |t| && pid in sizes && sizes[pid] >= 1
    ensures f < |t| && f != FirstFree(t) && !t[f].free && Is(t[f], pid, sizes[pid])
    ensures Find(Unplaced(t, pid), pid, sizes[pid]) == if f == 0 then FirstFree(t) else f
  {
    OpenOwned(t, sizes);
    var n, m, t' := FirstFree(t), sizes[pid], Unplaced(t, pid);
    UnplacedIs(t, pid);
    assert Has(t, pid, m);
    var g :| 0 <= g < |t| && !t[g].free && Is(t[g], pid, m);
    f := g;
    FindIs(t', pid, m, if f == 0 then n else f);
  }

  /** Ownership does not depend on what is in the pages. */
  lemma SameOwned(t: Table, sizes: Sizes, t': Table)
    requires Owned(t, sizes) && SameTags(t, t') && forall i :: 0 <= i < |t| ==> t'[i].free == t[i].free
    ensures Owned(t', sizes)
  {
    OpenOwned(t, sizes);
    forall pid, k | pid in sizes && 1 <= k <= sizes[pid] ensures Has(t', pid, k) {
      assert Has(t, pid, k);
      var f :| 0 <= f < |t| && !t[f].free && Is(t[f], pid, k);
      assert !t'[f].free && Is(t'[f], pid, k);
    }
  }

  /** The table with the new page in it, before it is loaded. */
  lemma NewPageOwned(t: Table, sizes: Sizes, pid: nat, n: nat, f: nat, join: Join)
    requires Owned(t, sizes) && pid in sizes && n < |t| && f < |t| && n != f && t[n].free
    ensures Owned(Grafted(t, n, f, pid, sizes[pid], join), sizes[pid := sizes[pid] + 1])
  {
    var m, p := sizes[pid], Page(pid, sizes[pid] + 1, false, false, []);
    var u, g := Exchange(t[n := p], 0, n), Grafted(t, n, f, pid, m, join);
    assert Owned(u, sizes[pid := m + 1]) by {
      OpenOwned(t, sizes);
      TakeOwned(t, sizes, n, p);
      ExchangeOwned(t[n := p], sizes[pid := m + 1], 0, n);
    }
    assert SameTags(u, g) && forall i :: 0 <= i < |u| ==> g[i].free == u[i].free by {
      GraftedTags(t, n, f, pid, m, join, p);
    }
    SameOwned(u, sizes[pid := m + 1], g);
  }

  lemma GraftedTags(t: Table, n: nat, f: nat, pid: nat, m: nat, join: Join, p: Page)
    requires n < |t| && f < |t| && n != f && Is(p, pid, m + 1) && !p.free
    ensures var u, g := Exchange(t[n := p], 0, n), Grafted(t, n, f, pid, m, join);
            SameTags(u, g) && forall i :: 0 <= i < |u| ==> g[i].free == u[i].free
  {
  }

  lemma ReserveOwned(t: Table, sizes: Sizes, pid: nat, join: Join)
    requires Owned(t, sizes) && FirstFree(t) < |t| && pid in sizes && sizes[pid] >= 1
    ensures var l := Reserve(t, pid, join); l.Loaded? ==> Owned(l.table, sizes[pid := sizes[pid] + 1])
  {
    var n, m := FirstFree(t), sizes[pid];
    var f := LastPageAt(t, sizes, pid);
    var g := Grafted(t, n, f, pid, m, join);
    assert Reserve(t, pid, join) == Load(g, pid) by {
      FoundUnplaced(t, sizes, pid);
      ReserveIsLoad(t, pid, m, join, f);
    }
    assert Owned(g, sizes[pid := m + 1]) by { NewPageOwned(t, sizes, pid, n, f, join); }
    LoadOwned(g, sizes[pid := m + 1], pid);
  }

  // ---------------------------------------------------------------- runs

  /** A process is started, gets another page, has its pages loaded, or stores a byte in one of them. */
  datatype Request =
    | Start(pid: nat) | Grow(pid: nat, join: Join) | Touch(pid: nat) | Store(pid: nat, order: int, at: nat, byte: Byte)

  ghost predicate Allowed(t: Table, sizes: Sizes, r: Request) {
    match r
    case Start(pid) => pid != 0 && pid !in sizes && FirstFree(t) < |t|
    case Grow(pid, _) => pid in sizes && FirstFree(t) < |t|
    case Touch(pid) => pid in sizes
    case Store(pid, order, at, _) => pid in sizes && Find(t, pid, order) < |t| && at < |t[Find(t, pid, order)].body|
  }

  /** The table after byte `at` of the page in frame `f` was set to `b`. */
  function Stored(t: Table, f: nat, at: nat, b: Byte): (r: Table)
    requires f < |t| && at < |t[f].body|
    ensures |r| == |t|
  {
    t[f := t[f].(body := t[f].body[at := b])]
  }

  ghost function Serve(t: Table, sizes: Sizes, r: Request): Loading
    requires Allowed(t, sizes, r)
  {
    match r
    case Start(pid) => Loaded(Claim(t, pid))
    case Grow(pid, join) => Reserve(t, pid, join)
    case Touch(pid) => Load(t, pid)
    case Store(pid, order, at, b) => Loaded(Stored(t, Find(t, pid, order), at, b))
  }

  function Counted(sizes: Sizes, r: Request): Sizes {
    match r
    case Start(pid) => sizes[pid := 1]
    case Grow(pid, _) => if pid in sizes then sizes[pid := sizes[pid] + 1] else sizes
    case _ => sizes
  }

  /** init: every frame is free. */
  ghost predicate Blank(t: Table) { forall i :: 0 <= i < |t| ==> t[i].free && t[i].pid == 0 && t[i].order == 1 }

  ghost predicate Serves(t: Table, sizes: Sizes, r: Request, t': Table, sizes': Sizes, u: Unit) {
    Allowed(t, sizes, r) && sizes' == Counted(sizes, r) && Serve(t, sizes, r) == Loaded(t')
  }

  /** The request leads from one table to the other. The quantifier keeps the definition folded. */
  ghost predicate Served(t: Table, sizes: Sizes, r: Request, t': Table, sizes': Sizes) {
    forall u :: Serves(t, sizes, r, t', sizes', u)
  }

  lemma OpenServed(t: Table, sizes: Sizes, r: Request, t': Table, sizes': Sizes)
    requires Served(t, sizes, r, t', sizes')
    ensures Allowed(t, sizes, r) && sizes' == Counted(sizes, r) && Serve(t, sizes, r) == Loaded(t')
  {
    assert Serves(t, sizes, r, t', sizes', Unit);
  }

  /** A run of requests, none of which evicts or faults. */
  ghost predicate IsRun(tables: seq<Table>, counts: seq<Sizes>, requests: seq<Request>) {
    && |tables| == |counts| == |requests| + 1
    && Blank(tables[0]) && counts[0] == map[]
    && forall i :: 0 <= i < |requests| ==> Served(tables[i], counts[i], requests[i], tables[i + 1], counts[i + 1])
  }

  /** After every request of every such run, the pages of each process are numbered 1 to its size, each
      once, and every free frame is blank. */
  lemma {:induction false} OwnershipAlways(tables: seq<Table>, counts: seq<Sizes>, requests: seq<Request>, k: nat)
    requires IsRun(tables, counts, requests) && k <= |requests|
    ensures Owned(tables[k], counts[k]) && NoneEmpty(counts[k])
  {
    if k > 0 {
      OwnershipAlways(tables, counts, requests, k - 1);
      ServedOwned(tables[k - 1], counts[k - 1], requests[k - 1], tables[k], counts[k]);
    }
  }

  ghost predicate NoneEmpty(sizes: Sizes) { forall pid :: pid in sizes ==> sizes[pid] >= 1 }

  lemma ServedOwned(t: Table, sizes: Sizes, r: Request, t': Table, sizes': Sizes)
    requires Served(t, sizes, r, t', sizes') && Owned(t, sizes) && NoneEmpty(sizes)
    ensures Owned(t', sizes') && NoneEmpty(sizes')
  {
    assert sizes' == Counted(sizes, r) by { OpenServed(t, sizes, r, t', sizes'); }
    match r
    case Start(_) => StartIsOwned(t, sizes, r, t', sizes');
    case Grow(_, _) => GrowIsOwned(t, sizes, r, t', sizes');
    case Touch(_) => TouchIsOwned(t, sizes, r, t', sizes');
    case Store(_, _, _, _) => StoreIsOwned(t, sizes, r, t', sizes');
  }

  lemma StartIsOwned(t: Table, sizes: Sizes, r: Request, t': Table, sizes': Sizes)
    requires Served(t, sizes, r, t', sizes') && Owned(t, sizes) && r.Start?
    ensures Owned(t', sizes')
  {
    OpenServed(t, sizes, r, t', sizes');
    ClaimOwned(t, sizes, r.pid);
  }

  lemma GrowIsOwned(t: Table, sizes: Sizes, r: Request, t': Table, sizes': Sizes)
    requires Served(t, sizes, r, t', sizes') && Owned(t, sizes) && NoneEmpty(sizes) && r.Grow?
    ensures Owned(t', sizes')
  {
    OpenServed(t, sizes, r, t', sizes');
    ReserveOwned(t, sizes, r.pid, r.join);
  }

  lemma TouchIsOwned(t: Table, sizes: Sizes, r: Request, t': Table, sizes': Sizes)
    requires Served(t, sizes, r, t', sizes') && Owned(t, sizes) && r.Touch?
    ensures Owned(t', sizes')
  {
    OpenServed(t, sizes, r, t', sizes');
    LoadOwned(t, sizes, r.pid);
  }

  lemma StoreIsOwned(t: Table, sizes: Sizes, r: Request, t': Table, sizes': Sizes)
    requires Served(t, sizes, r, t', sizes') && Owned(t, sizes) && r.Store?
    ensures Owned(t', sizes')
  {
    OpenServed(t, sizes, r, t', sizes');
    StoreOwned(t, sizes, Find(t, r.pid, r.order), r.at, r.byte);
  }

  lemma StoreOwned(t: Table, sizes: Sizes, f: nat, at: nat, b: Byte)
    requires Owned(t, sizes) && f < |t| && at < |t[f].body|
    ensures Owned(Stored(t, f, at, b), sizes)
  {
    SameOwned(t, sizes, Stored(t, f, at, b));
  }

  lemma StartInOrder(t: Table, pid: nat)
    requires Blank(t) && FirstFree(t) < |t| && pid != 0
    ensures InOrder(Claim(t, pid), pid, 1)
  {
    FirstFreeIs(t, 0);
  }

  lemma StartsAlone(tables: seq<Table>, counts: seq<Sizes>, requests: seq<Request>, k: nat)
    requires IsRun(tables, counts, requests) && k < |requests| && requests[k].Start?
    requires requests[k].pid !in counts[k] ==> k == 0
    ensures requests[k].pid in counts[k + 1] && counts[k + 1][requests[k].pid] == 1
    ensures InOrder(tables[k + 1], requests[k].pid, 1)
  {
    OpenServed(tables[k], counts[k], requests[k], tables[k + 1], counts[k + 1]);
    StartInOrder(tables[k], requests[k].pid);
  }

  /** One request keeps the pages of the process that makes it in order. */
  lemma ServedInOrder(t: Table, sizes: Sizes, r: Request, t': Table, sizes': Sizes)
    requires Served(t, sizes, r, t', sizes') && Owned(t, sizes) && !r.Start?
    requires r.pid in sizes ==> InOrder(t, r.pid, sizes[r.pid]) && sizes[r.pid] >= 1
    ensures r.pid in sizes' && InOrder(t', r.pid, sizes'[r.pid]) && sizes'[r.pid] >= 1
  {
    OpenOwned(t, sizes);
    OpenServed(t, sizes, r, t', sizes');
    if r.Grow? {
      var grown := GrowthIsContiguous(t, r.pid, sizes[r.pid], r.join);
    } else if r.Touch? {
      LoadKeepsOrder(t, r.pid, sizes[r.pid]);
    }
  }

  /** A process that is alone always has its pages in order in the first frames. */
  lemma {:induction false} AloneInOrder(tables: seq<Table>, counts: seq<Sizes>, requests: seq<Request>, pid: nat, k: nat)
    requires IsRun(tables, counts, requests) && k <= |requests|
    requires forall i :: 0 <= i < |requests| ==> requests[i].pid == pid
    ensures if pid in counts[k] then InOrder(tables[k], pid, counts[k][pid]) && counts[k][pid] >= 1 else k == 0
  {
    if k > 0 {
      AloneInOrder(tables, counts, requests, pid, k - 1);
      if requests[k - 1].Start? {
        StartsAlone(tables, counts, requests, k - 1);
      } else {
        OwnershipAlways(tables, counts, requests, k - 1);
        ServedInOrder(tables[k - 1], counts[k - 1], requests[k - 1], tables[k], counts[k]);
      }
    }
  }

  // ---------------------------------------------------------------- where requests lead

  ghost predicate Runs(t: Table, sizes: Sizes, rs: seq<Request>, t': Table, sizes': Sizes, u: Unit)
    decreases |rs|, 0
  {
    if rs == [] then t' == t && sizes' == sizes
    else exists t1, sizes1 :: Served(t, sizes, rs[0], t1, sizes1) && RunsTo(t1, sizes1, rs[1..], t', sizes')
  }

  /** These requests lead from one table to the other. The quantifier keeps the definition folded. */
  ghost predicate RunsTo(t: Table, sizes: Sizes, rs: seq<Request>, t': Table, sizes': Sizes)
    decreases |rs|, 1
  {
    forall u :: Runs(t, sizes, rs, t', sizes', u)
  }

  lemma RunsToItself(t: Table, sizes: Sizes)
    ensures RunsTo(t, sizes, [], t, sizes)
  {
  }

  /** And one request more. */
  lemma {:induction false} RunsToLast(t: Table, sizes: Sizes, rs: seq<Request>, t1: Table, sizes1: Sizes,
                                      r: Request, t': Table, sizes': Sizes)
    requires RunsTo(t, sizes, rs, t1, sizes1) && Served(t1, sizes1, r, t', sizes')
    ensures RunsTo(t, sizes, rs + [r], t', sizes')
    decreases |rs|
  {
    assert Runs(t, sizes, rs, t1, sizes1, Unit);
    var all := rs + [r];
    if rs == [] {
      RunsToItself(t', sizes');
      assert all[0] == r && all[1..] == [];
    } else {
      var t2, sizes2 :| Served(t, sizes, rs[0], t2, sizes2) && RunsTo(t2, sizes2, rs[1..], t1, sizes1);
      RunsToLast(t2, sizes2, rs[1..], t1, sizes1, r, t', sizes');
      assert all[0] == rs[0] && all[1..] == rs[1..] + [r];
    }
  }

  lemma StartOn(t: Table, rs: seq<Request>, t1: Table, sizes: Sizes, pid: nat)
    requires RunsTo(t, map[], rs, t1, sizes) && pid != 0 && pid !in sizes && FirstFree(t1) < |t1|
    ensures RunsTo(t, map[], rs + [Start(pid)], Claim(t1, pid), sizes[pid := 1])
  {
    assert Served(t1, sizes, Start(pid), Claim(t1, pid), sizes[pid := 1]);
    RunsToLast(t, map[], rs, t1, sizes, Start(pid), Claim(t1, pid), sizes[pid := 1]);
  }

  lemma GrowServed(t: Table, sizes: Sizes, pid: nat, join: Join, t': Table, sizes': Sizes)
    requires pid in sizes && ReservesTo(t, pid, join, t') && sizes' == sizes[pid := sizes[pid] + 1]
    ensures Served(t, sizes, Grow(pid, join), t', sizes')
  {
    OpenReserves(t, pid, join, t');
  }

  lemma GrowOn(t: Table, rs: seq<Request>, t1: Table, sizes: Sizes, pid: nat, join: Join, t': Table)
    requires RunsTo(t, map[], rs, t1, sizes) && pid in sizes && ReservesTo(t1, pid, join, t')
    ensures RunsTo(t, map[], rs + [Grow(pid, join)], t', sizes[pid := sizes[pid] + 1])
  {
    GrowServed(t1, sizes, pid, join, t', sizes[pid := sizes[pid] + 1]);
    RunsToLast(t, map[], rs, t1, sizes, Grow(pid, join), t', sizes[pid := sizes[pid] + 1]);
  }

  lemma StoreOn(t: Table, rs: seq<Request>, t1: Table, sizes: Sizes, r: Request, f: nat)
    requires RunsTo(t, map[], rs, t1, sizes) && r.Store? && r.pid in sizes
    requires f == Find(t1, r.pid, r.order) < |t1| && r.at < |t1[f].body|
    ensures RunsTo(t, map[], rs + [r], Stored(t1, f, r.at, r.byte), sizes)
  {
    assert Served(t1, sizes, r, Stored(t1, f, r.at, r.byte), sizes);
    RunsToLast(t, map[], rs, t1, sizes, r, Stored(t1, f, r.at, r.byte), sizes);
  }

  /** From a blank table they are a run. */
  lemma {:induction false} RunsToIsRun(tables: seq<Table>, counts: seq<Sizes>, done: seq<Request>,
                                       rs: seq<Request>, t': Table, sizes': Sizes)
      returns (ts: seq<Table>, cs: seq<Sizes>)
    requires IsRun(tables, counts, done) && RunsTo(tables[|done|], counts[|done|], rs, t', sizes')
    ensures IsRun(ts, cs, done + rs) && ts[0] == tables[0] && ts[|done + rs|] == t' && cs[|done + rs|] == sizes'
    decreases |rs|
  {
    var t, sizes := tables[|done|], counts[|done|];
    assert Runs(t, sizes, rs, t', sizes', Unit);
    if rs == [] {
      ts, cs := tables, counts;
      assert done + rs == done;
    } else {
      var t1, sizes1 :| Served(t, sizes, rs[0], t1, sizes1) && RunsTo(t1, sizes1, rs[1..], t', sizes');
      RunGoesOn(tables, counts, done, rs[0], t1, sizes1);
      ts, cs := RunsToIsRun(tables + [t1], counts + [sizes1], done + [rs[0]], rs[1..], t', sizes');
      assert done + [rs[0]] + rs[1..] == done + rs;
    }
  }

  lemma BlankRuns(t: Table, rs: seq<Request>, t': Table, sizes': Sizes) returns (ts: seq<Table>, cs: seq<Sizes>)
    requires Blank(t) && RunsTo(t, map[], rs, t', sizes')
    ensures IsRun(ts, cs, rs) && ts[0] == t && ts[|rs|] == t' && cs[|rs|] == sizes'
  {
    assert IsRun([t], [map[]], []);
    ts, cs := RunsToIsRun([t], [map[]], [], rs, t', sizes');
    assert [] + rs == rs;
  }

  lemma RunGoesOn(tables: seq<Table>, counts: seq<Sizes>, requests: seq<Request>, r: Request, t': Table, sizes': Sizes)
    requires IsRun(tables, counts, requests)
    requires Served(tables[|requests|], counts[|requests|], r, t', sizes')
    ensures IsRun(tables + [t'], counts + [sizes'], requests + [r])
  {
    var ts, cs, rs := tables + [t'], counts + [sizes'], requests + [r];
    forall i | 0 <= i < |rs| ensures Served(ts[i], cs[i], rs[i], ts[i + 1], cs[i + 1]) {
      if i < |requests| { assert Served(tables[i], counts[i], requests[i], tables[i + 1], counts[i + 1]); }
    }
  }
}
