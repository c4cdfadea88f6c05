/** When does loading a process put its pages in order, and when does it crash? */
module PageLoading {
  import opened Bytes
  import opened Chunks
  import opened PageTable
  import opened PageRuns
  import Placement

  /** Page `k` of `pid` is in frame `f`, and nowhere else. */
  ghost predicate At(t: Table, pid: nat, k: int, f: nat) {
    f < |t| && Is(t[f], pid, k) && forall i :: 0 <= i < |t| && i != f ==> !Is(t[i], pid, k)
  }

  ghost predicate Somewhere(t: Table, pid: nat, k: int) { exists f :: At(t, pid, k, f) }

  ghost predicate InPlace(t: Table, pid: nat, k: int) { k >= 1 && At(t, pid, k, k - 1) }

  /** The pages of `pid` are 1 to `m`, each in one frame. The quantifier keeps this folded. */
  ghost predicate Numbered(t: Table, pid: nat, m: nat) { forall u :: IsNumbered(t, pid, m, u) }

  ghost predicate IsNumbered(t: Table, pid: nat, m: nat, u: Unit) {
    && (forall i :: 0 <= i < |t| && t[i].pid == pid ==> 1 <= t[i].order <= m)
    && (forall k :: 1 <= k <= m ==> Somewhere(t, pid, k))
  }

  /** The first `k` pages are in the first frames. */
  ghost predicate Placed(t: Table, pid: nat, k: nat) { forall j :: 1 <= j <= k ==> InPlace(t, pid, j) }

  lemma OpenNumbered(t: Table, pid: nat, m: nat)
    requires Numbered(t, pid, m)
    ensures forall i :: 0 <= i < |t| && t[i].pid == pid ==> 1 <= t[i].order <= m
    ensures forall k :: 1 <= k <= m ==> Somewhere(t, pid, k)
  {
    assert IsNumbered(t, pid, m, Unit);
  }

  lemma OwnedIsNumbered(t: Table, sizes: Sizes, pid: nat)
    requires Owned(t, sizes) && pid in sizes
    ensures Numbered(t, pid, sizes[pid])
  {
    OpenOwned(t, sizes);
    assert pid != 0;
    forall k | 1 <= k <= sizes[pid] ensures Somewhere(t, pid, k) {
      assert Has(t, pid, k);
      var f :| 0 <= f < |t| && !t[f].free && Is(t[f], pid, k);
      assert At(t, pid, k, f);
    }
  }

  lemma AtIsFound(t: Table, pid: nat, k: int, f: nat)
    requires At(t, pid, k, f)
    ensures Find(t, pid, k) == f
  {
    FindIs(t, pid, k, f);
  }

  /** Where the pages go when two frames exchange theirs. */
  lemma ExchangeAt(t: Table, pid: nat, k: int, f: nat, i: nat, j: nat)
    requires At(t, pid, k, f) && i < |t| && j < |t|
    ensures At(Exchange(t, i, j), pid, k, if f == i then j else if f == j then i else f)
  {
  }

  lemma ExchangeNumbered(t: Table, pid: nat, m: nat, i: nat, j: nat)
    requires Numbered(t, pid, m) && i < |t| && j < |t|
    ensures Numbered(Exchange(t, i, j), pid, m)
  {
    OpenNumbered(t, pid, m);
    forall k | 1 <= k <= m ensures Somewhere(Exchange(t, i, j), pid, k) {
      assert Somewhere(t, pid, k);
      var f :| At(t, pid, k, f);
      ExchangeAt(t, pid, k, f, i, j);
    }
  }

  lemma PastTheEnd(t: Table, pid: nat, m: nat, k: int)
    requires Numbered(t, pid, m) && k > m
    ensures Find(t, pid, k) == |t|
  {
    OpenNumbered(t, pid, m);
    assert forall i :: 0 <= i < |t| ==> !Is(t[i], pid, k);
  }

  lemma PlacedElsewhere(t: Table, pid: nat, k: nat, j: int, f: nat)
    requires Placed(t, pid, k) && At(t, pid, j, f) && j > k
    ensures f >= k
  {
    forall i | 0 <= i < k && i < |t| ensures t[i].order <= k { assert InPlace(t, pid, i + 1); }
  }

  /** The table after loadProcessPages has put the first page first. */
  ghost function FirstPlaced(t: Table, pid: nat): (u: Table)
    requires Find(t, pid, 1) < |t|
    ensures |u| == |t|
  {
    Exchange(t, 0, Find(t, pid, 1))
  }

  lemma FirstIsPlaced(t: Table, pid: nat, m: nat)
    requires Numbered(t, pid, m) && m >= 1
    ensures Find(t, pid, 1) < |t| && Numbered(FirstPlaced(t, pid), pid, m) && Placed(FirstPlaced(t, pid), pid, 1)
  {
    OpenNumbered(t, pid, m);
    assert Somewhere(t, pid, 1);
    var f :| At(t, pid, 1, f);
    AtIsFound(t, pid, 1, f);
    ExchangeNumbered(t, pid, m, 0, f);
    ExchangeAt(t, pid, 1, f, 0, f);
  }

  ghost predicate EndsInOrder(l: Loading, pid: nat, m: nat) { l.Loaded? && Placed(l.table, pid, m) }

  ghost predicate LoadsInOrder(t: Table, pid: nat, m: nat) { EndsInOrder(Load(t, pid), pid, m) }

  /** The frame of each page of `pid`. */
  ghost function Places(t: Table, pid: nat, m: nat): Placement.Places {
    seq(m, j requires 0 <= j < m => Find(t, pid, j + 1))
  }

  lemma PlaceIs(t: Table, pid: nat, m: nat, k: nat, f: nat)
    requires 1 <= k <= m && At(t, pid, k, f)
    ensures Places(t, pid, m)[k - 1] == f
  {
    AtIsFound(t, pid, k, f);
  }

  lemma AtItsPlace(t: Table, pid: nat, m: nat, k: nat)
    requires Numbered(t, pid, m) && 1 <= k <= m
    ensures At(t, pid, k, Places(t, pid, m)[k - 1])
  {
    OpenNumbered(t, pid, m);
    assert Somewhere(t, pid, k);
    var f: nat :| At(t, pid, k, f);
    PlaceIs(t, pid, m, k, f);
  }

  lemma PlacesApart(t: Table, pid: nat, m: nat)
    requires Numbered(t, pid, m)
    ensures Placement.Apart(Places(t, pid, m)) && Placement.Below(Places(t, pid, m), |t|)
  {
    forall k | 0 <= k < m ensures At(t, pid, k + 1, Places(t, pid, m)[k]) { AtItsPlace(t, pid, m, k + 1); }
  }

  lemma PlacesMoved(t: Table, pid: nat, m: nat, i: nat, j: nat)
    requires Numbered(t, pid, m) && i < |t| && j < |t|
    ensures Places(Exchange(t, i, j), pid, m) == Placement.Moved(Places(t, pid, m), i, j)
  {
    forall k | 0 <= k < m ensures Places(Exchange(t, i, j), pid, m)[k] == Placement.Moved(Places(t, pid, m), i, j)[k] {
      var f := Places(t, pid, m)[k];
      AtItsPlace(t, pid, m, k + 1);
      ExchangeAt(t, pid, k + 1, f, i, j);
      PlaceIs(Exchange(t, i, j), pid, m, k + 1, Placement.Across(f, i, j));
    }
  }

  lemma PlacedIsHome(t: Table, pid: nat, m: nat)
    requires Numbered(t, pid, m)
    ensures Placed(t, pid, m) <==> Placement.Home(Places(t, pid, m), m)
  {
    var ps := Places(t, pid, m);
    if Placed(t, pid, m) {
      forall j | 0 <= j < m ensures ps[j] == j {
        assert InPlace(t, pid, j + 1);
        PlaceIs(t, pid, m, j + 1, j);
      }
    }
    if Placement.Home(ps, m) {
      forall k | 1 <= k <= m ensures InPlace(t, pid, k) {
        AtItsPlace(t, pid, m, k);
        assert ps[k - 1] == k - 1;
      }
    }
  }

  /** The loop on tables ends as the loop on places does. */
  ghost predicate SameEnding(l: Loading, o: Placement.Ending, pid: nat, m: nat) {
    if o.Crash? then l.Fault? else l.Loaded? && Numbered(l.table, pid, m) && Places(l.table, pid, m) == o.ps
  }

  lemma LoopEnds(t: Table, pid: nat, m: nat, p1: nat, top: int, l: Loading, o: Placement.Ending)
    requires LoadsTo(t, pid, p1, m + 1, top, l) && Numbered(t, pid, m)
    requires Placement.EndsIn(Places(t, pid, m), p1, m, |t|, o)
    ensures SameEnding(l, o, pid, m)
  {
    PastTheEnd(t, pid, m, m + 1);
    LoadsToEnd(t, pid, p1, m + 1, top, l);
    Placement.EndsInStep(Places(t, pid, m), p1, m, |t|, o);
  }

  lemma LoopStep(t: Table, pid: nat, m: nat, p1: nat, k: nat, top: int, l: Loading, o: Placement.Ending, p2: nat)
    requires LoadsTo(t, pid, p1, k, top, l) && Numbered(t, pid, m) && 2 <= k <= m && p2 == Places(t, pid, m)[k - 1]
    requires Placement.EndsIn(Places(t, pid, m), p1, k - 1, |t|, o)
    ensures p1 < |t| && p2 < |t|
    ensures if p1 != p2 && p1 + 1 == |t| then l.Fault? && o.Crash?
            else var t' := Followed(t, p1, p2);
                 && LoadsTo(t', pid, p2, k + 1, top, l) && Numbered(t', pid, m) && |t'| == |t|
                 && Placement.EndsIn(Places(t', pid, m), p2, k, |t|, o)
  {
    AtItsPlace(t, pid, m, k);
    AtIsFound(t, pid, k, p2);
    LoadsToStep(t, pid, p1, k, top, l, p2);
    Placement.EndsInStep(Places(t, pid, m), p1, k - 1, |t|, o);
    if p1 != p2 && p1 + 1 < |t| {
      PlacesMoved(t, pid, m, p1 + 1, p2);
      ExchangeNumbered(t, pid, m, p1 + 1, p2);
    }
  }

  /** The loop on the table does to the places of the pages what the loop on places does. */
  lemma {:induction false} LoopFollowsPlaces(t: Table, pid: nat, m: nat, p1: nat, k: nat, top: int, l: Loading,
                                             o: Placement.Ending)
    requires LoadsTo(t, pid, p1, k, top, l) && Numbered(t, pid, m) && 2 <= k <= m + 1
    requires Placement.EndsIn(Places(t, pid, m), p1, k - 1, |t|, o)
    ensures SameEnding(l, o, pid, m)
    decreases m + 1 - k
  {
    if k == m + 1 {
      LoopEnds(t, pid, m, p1, top, l, o);
    } else {
      var p2 := Places(t, pid, m)[k - 1];
      LoopStep(t, pid, m, p1, k, top, l, o, p2);
      if p1 == p2 || p1 + 1 < |t| { LoopFollowsPlaces(Followed(t, p1, p2), pid, m, p2, k + 1, top, l, o); }
    }
  }

  /** Loading ends as the loop on the places of the pages does, once the first page is first. */
  lemma LoadFollowsPlaces(t: Table, pid: nat, m: nat) returns (ps: Placement.Places)
    requires Numbered(t, pid, m) && m >= 1
    ensures Find(t, pid, 1) < |t| && ps == Places(FirstPlaced(t, pid), pid, m) && |ps| == m
    ensures Placement.Apart(ps) && Placement.Below(ps, |t|) && ps[0] == 0
    ensures SameEnding(Load(t, pid), Placement.Ended(ps, 0, 1, |t|), pid, m)
  {
    FirstIsPlaced(t, pid, m);
    var u := FirstPlaced(t, pid);
    ps := Places(u, pid, m);
    assert InPlace(u, pid, 1);
    PlaceIs(u, pid, m, 1, 0);
    PlacesApart(u, pid, m);
    assert LoadsTo(u, pid, 0, 2, Top(t), Load(t, pid));
    LoopFollowsPlaces(u, pid, m, 0, 2, Top(t), Load(t, pid), Placement.Ended(ps, 0, 1, |t|));
  }

  /** Loading puts the pages in order exactly if they are ready once the first page is first. */
  lemma LoadsInOrderExactly(t: Table, pid: nat, m: nat)
    requires Numbered(t, pid, m) && m >= 1
    ensures Find(t, pid, 1) < |t|
    ensures LoadsInOrder(t, pid, m) <==> Placement.Ready(Places(FirstPlaced(t, pid), pid, m), 1)
  {
    var ps := LoadFollowsPlaces(t, pid, m);
    Placement.ReadyExactly(ps, |t|);
    var l := Load(t, pid);
    if l.Loaded? { PlacedIsHome(l.table, pid, m); }
  }

  /** In every run the condition is exact, for every process. */
  lemma RunLoadsExactly(tables: seq<Table>, counts: seq<Sizes>, requests: seq<Request>, k: nat, pid: nat)
    requires IsRun(tables, counts, requests) && k <= |requests| && pid in counts[k]
    ensures Find(tables[k], pid, 1) < |tables[k]|
    ensures var m := counts[k][pid];
            LoadsInOrder(tables[k], pid, m) <==> Placement.Ready(Places(FirstPlaced(tables[k], pid), pid, m), 1)
  {
    OwnershipAlways(tables, counts, requests, k);
    OwnedIsNumbered(tables[k], counts[k], pid);
    LoadsInOrderExactly(tables[k], pid, counts[k][pid]);
  }

  /** In every run, a process of one or two pages is loaded in order, wherever its pages are. */
  lemma TwoPagesAlwaysInOrder(tables: seq<Table>, counts: seq<Sizes>, requests: seq<Request>, k: nat, pid: nat)
    requires IsRun(tables, counts, requests) && k <= |requests| && pid in counts[k] && counts[k][pid] <= 2
    ensures LoadsInOrder(tables[k], pid, counts[k][pid])
  {
    RunLoadsExactly(tables, counts, requests, k, pid);
  }

  // ---------------------------------------------------------------- when it crashes

  /** Loading a process does not crash unless, once its first page is first, the last frame holds one of its other
      pages, and not the last of them. */
  lemma LoadIsSafe(t: Table, pid: nat, m: nat)
    requires Numbered(t, pid, m) && m >= 1 && |t| >= 2
    ensures Find(t, pid, 1) < |t|
    ensures var end := FirstPlaced(t, pid)[|t| - 1];
            Load(t, pid).Fault? ==> end.pid == pid && 2 <= end.order < m
  {
    var ps := LoadFollowsPlaces(t, pid, m);
    var u := FirstPlaced(t, pid);
    var end := u[|t| - 1];
    FirstIsPlaced(t, pid, m);
    OpenNumbered(u, pid, m);
    if !(end.pid == pid && 2 <= end.order < m) {
      forall j | 1 <= j < |ps| - 1 ensures ps[j] != |t| - 1 { AtItsPlace(u, pid, m, j + 1); }
      Placement.SafeOff(ps, 0, 1, |t|, Placement.Ended(ps, 0, 1, |t|));
    }
  }

  /** In particular, if the last frame belongs to another process. */
  lemma ForeignEndIsSafe(t: Table, pid: nat, m: nat)
    requires Numbered(t, pid, m) && m >= 1 && |t| >= 2 && t[|t| - 1].pid != pid
    ensures Load(t, pid).Loaded?
  {
    LoadIsSafe(t, pid, m);
  }

  /** It crashes if the last frame then holds page `l`, not the first and not one of the last two, and the frame
      before holds none of the pages before page `l - 1`. */
  lemma LoadCrashes(t: Table, pid: nat, m: nat, l: nat)
    requires Numbered(t, pid, m) && 2 <= l <= m - 2 && Find(t, pid, 1) < |t| && |t| >= 2
    requires var u := FirstPlaced(t, pid);
             && At(u, pid, l, |t| - 1)
             && !(u[|t| - 2].pid == pid && 1 <= u[|t| - 2].order <= l - 2)
    ensures Load(t, pid).Fault?
  {
    var ps := LoadFollowsPlaces(t, pid, m);
    var u := FirstPlaced(t, pid);
    FirstIsPlaced(t, pid, m);
    PlaceIs(u, pid, m, l, |t| - 1);
    forall j | 1 <= j < l - 2 ensures ps[j] != |t| - 2 { AtItsPlace(u, pid, m, j + 1); }
    AtItsPlace(u, pid, m, 1);
    AtItsPlace(u, pid, m, 3);
    AtItsPlace(u, pid, m, 4);
    assert |t| > 2;
    Placement.CrashesAt(ps, 0, 1, l - 1, |t|, Placement.Ended(ps, 0, 1, |t|));
  }

  /** With three pages it crashes exactly if the second is then in the last frame and the third is not about to be
      moved there. */
  lemma ThreePagesCrashExactly(t: Table, pid: nat)
    requires Numbered(t, pid, 3)
    ensures Find(t, pid, 1) < |t|
    ensures Load(t, pid).Fault? <==> var u := FirstPlaced(t, pid); At(u, pid, 2, |t| - 1) && !At(u, pid, 3, 1)
  {
    var ps := LoadFollowsPlaces(t, pid, 3);
    var u, n := FirstPlaced(t, pid), |t|;
    FirstIsPlaced(t, pid, 3);
    AtItsPlace(u, pid, 3, 2);
    AtItsPlace(u, pid, 3, 3);
    ThreeCrash(ps, n, Placement.Ended(ps, 0, 1, n));
  }

  lemma ThreeCrash(ps: Placement.Places, n: nat, o: Placement.Ending)
    requires |ps| == 3 && Placement.Apart(ps) && Placement.Below(ps, n) && ps[0] == 0 && Placement.EndsIn(ps, 0, 1, n, o)
    ensures o.Crash? <==> ps[1] == n - 1 && ps[2] != 1
  {
    Placement.EndsInStep(ps, 0, 1, n, o);
    var qs := Placement.Moved(ps, 1, ps[1]);
    Placement.EndsInStep(qs, ps[1], 2, n, o);
    if qs[2] == ps[1] || ps[1] + 1 < n { Placement.EndsInStep(Placement.Rounded(qs, ps[1], 2), qs[2], 3, n, o); }
  }

  // ---------------------------------------------------------------- when it fails

  /** Three pages: the second is in its frame, or the second and third are in each other's. */
  lemma ThreePagesExactly(t: Table, pid: nat)
    requires Numbered(t, pid, 3)
    ensures Find(t, pid, 1) < |t|
    ensures var u := FirstPlaced(t, pid);
            LoadsInOrder(t, pid, 3) <==> At(u, pid, 2, 1) || (At(u, pid, 2, 2) && At(u, pid, 3, 1))
  {
    LoadsInOrderExactly(t, pid, 3);
    FirstIsPlaced(t, pid, 3);
    var u := FirstPlaced(t, pid);
    AtItsPlace(u, pid, 3, 2);
    AtItsPlace(u, pid, 3, 3);
    var ps := Places(u, pid, 3);
    assert Placement.Ready(ps, 1) <==> ps[1] == 1 || (ps[1] == 2 && ps[2] == 1);
  }

  /** Switching from one process to another: when the first `m` frames hold the pages of another process,
      a process of `m` pages is put in order exactly if it has at most two. */
  lemma SwitchExactly(t: Table, pid: nat, other: nat, m: nat)
    requires Numbered(t, pid, m) && m >= 1 && pid != other && Placed(t, other, m)
    ensures LoadsInOrder(t, pid, m) <==> m <= 2
  {
    LoadsInOrderExactly(t, pid, m);
    if m >= 3 {
      FirstIsPlaced(t, pid, m);
      var u := FirstPlaced(t, pid);
      SwitchedAway(t, pid, other, m, u);
      AtItsPlace(u, pid, m, 2);
      assert Places(u, pid, m)[1] >= m;
    }
  }

  /** Pages `k` and on are behind the first `m` frames. */
  ghost predicate Away(t: Table, pid: nat, k: int, m: nat) {
    forall i :: 0 <= i < |t| && i < m && t[i].pid == pid ==> t[i].order < k
  }

  lemma SwitchedAway(t: Table, pid: nat, other: nat, m: nat, u: Table)
    requires Find(t, pid, 1) < |t| && pid != other && Placed(t, other, m) && m >= 1 && u == FirstPlaced(t, pid)
    ensures Away(u, pid, 2, m) && m < |u|
  {
    forall i | 0 <= i < m ensures i < |t| && t[i].pid == other { assert InPlace(t, other, i + 1); }
    assert Find(t, pid, 1) >= m;
  }

  // ---------------------------------------------------------------- runs that get there

  /** The first frames hold these pages, the others are free. The quantifier keeps this folded. */
  ghost predicate Shows(t: Table, head: seq<(nat, int)>) { forall u :: IsShown(t, head, u) }

  lemma OpenShows(t: Table, head: seq<(nat, int)>)
    requires Shows(t, head)
    ensures |head| <= |t| && forall i :: 0 <= i < |head| ==> !t[i].free && Is(t[i], head[i].0, head[i].1)
    ensures forall i :: |head| <= i < |t| ==> t[i].free && t[i].pid == 0 && t[i].order == 1
  {
    assert IsShown(t, head, Unit);
  }

  ghost predicate IsShown(t: Table, head: seq<(nat, int)>, u: Unit) {
    && |head| <= |t|
    && (forall i :: 0 <= i < |head| ==> !t[i].free && Is(t[i], head[i].0, head[i].1))
    && (forall i :: |head| <= i < |t| ==> t[i].free && t[i].pid == 0 && t[i].order == 1)
  }

  /** A page more, in frame `i`; the page that was there goes to the end. */
  function Added(head: seq<(nat, int)>, p: (nat, int), i: nat): (r: seq<(nat, int)>)
    requires i <= |head|
    ensures |r| == |head| + 1
  {
    if i == |head| then head + [p] else head[i := p] + [head[i]]
  }

  lemma ShowsFree(t: Table, head: seq<(nat, int)>)
    requires Shows(t, head) && |head| < |t|
    ensures FirstFree(t) == |head|
  {
    OpenShows(t, head);
    FirstFreeIs(t, |head|);
  }

  lemma Starts(t: Table, head: seq<(nat, int)>, pid: nat)
    requires Shows(t, head) && |head| < |t|
    ensures FirstFree(t) == |head| && Shows(Claim(t, pid), Added(head, (pid, 1), 0))
  {
    OpenShows(t, head);
    ShowsFree(t, head);
  }

  lemma ShownInOrder(t: Table, head: seq<(nat, int)>, pid: nat, m: nat)
    requires Shows(t, head) && m <= |head| && pid != 0
    requires forall i :: 0 <= i < |head| ==> if i < m then head[i] == (pid, i + 1) else head[i].0 != pid
    ensures InOrder(t, pid, m)
  {
    OpenShows(t, head);
  }

  lemma Grows(t: Table, head: seq<(nat, int)>, pid: nat, m: nat, join: Join) returns (r: Table)
    requires Shows(t, head) && |head| < |t| && 1 <= m <= |head| && pid != 0
    requires forall i :: 0 <= i < |head| ==> if i < m then head[i] == (pid, i + 1) else head[i].0 != pid
    ensures FirstFree(t) == |head| && ReservesTo(t, pid, join, r) && Shows(r, Added(head, (pid, m + 1), m))
    ensures GrownTo(t, |head|, pid, m, join, r)
  {
    OpenShows(t, head);
    ShowsFree(t, head);
    ShownInOrder(t, head, pid, m);
    r := GrowthIsContiguous(t, pid, m, join);
    GrownShows(t, head, pid, m, join, r);
  }

  lemma GrownShows(t: Table, head: seq<(nat, int)>, pid: nat, m: nat, join: Join, r: Table)
    requires Shows(t, head) && 1 <= m <= |head| < |t| && GrownTo(t, |head|, pid, m, join, r)
    ensures Shows(r, Added(head, (pid, m + 1), m))
  {
    OpenShows(t, head);
  }

  /** One more page for a process that is in order, as the next request of a run. */
  lemma GrowsOn(t: Table, rs: seq<Request>, t1: Table, sizes: Sizes, head: seq<(nat, int)>, pid: nat, join: Join)
      returns (r: Table)
    requires RunsTo(t, map[], rs, t1, sizes) && Shows(t1, head) && |head| < |t1| && pid != 0 && pid in sizes
    requires 1 <= sizes[pid] <= |head|
    requires forall i :: 0 <= i < |head| ==> if i < sizes[pid] then head[i] == (pid, i + 1) else head[i].0 != pid
    ensures RunsTo(t, map[], rs + [Grow(pid, join)], r, sizes[pid := sizes[pid] + 1]) && |r| == |t1|
    ensures Shows(r, Added(head, (pid, sizes[pid] + 1), sizes[pid])) && GrownTo(t1, |head|, pid, sizes[pid], join, r)
  {
    r := Grows(t1, head, pid, sizes[pid], join);
    GrowOn(t, rs, t1, sizes, pid, join, r);
  }

  lemma StartsOn(t: Table, rs: seq<Request>, t1: Table, sizes: Sizes, head: seq<(nat, int)>, pid: nat)
    requires RunsTo(t, map[], rs, t1, sizes) && Shows(t1, head) && |head| < |t1| && pid != 0 && pid !in sizes
    ensures FirstFree(t1) == |head| && |Claim(t1, pid)| == |t1|
    ensures RunsTo(t, map[], rs + [Start(pid)], Claim(t1, pid), sizes[pid := 1])
    ensures Shows(Claim(t1, pid), Added(head, (pid, 1), 0))
  {
    Starts(t1, head, pid);
    StartOn(t, rs, t1, sizes, pid);
  }

  /** A process starts in blank memory. */
  lemma OnePageRun(t: Table, p: nat)
    requires Blank(t) && |t| >= 1 && p != 0
    ensures FirstFree(t) == 0 && |Claim(t, p)| == |t|
    ensures RunsTo(t, map[], [Start(p)], Claim(t, p), map[p := 1]) && Shows(Claim(t, p), [(p, 1)])
  {
    RunsToItself(t, map[]);
    StartsOn(t, [], t, map[], [], p);
    assert Added([], (p, 1), 0) == [(p, 1)] && map[][p := 1] == map[p := 1] && [] + [Start(p)] == [Start(p)];
  }

  /** And grows to two pages. */
  lemma TwoPagesRun(t: Table, p: nat, join: Join) returns (r: Table)
    requires Blank(t) && |t| >= 2 && p != 0
    ensures RunsTo(t, map[], [Start(p), Grow(p, join)], r, map[p := 2]) && Shows(r, [(p, 1), (p, 2)]) && |r| == |t|
    ensures |Claim(t, p)| == |t| && GrownTo(Claim(t, p), 1, p, 1, join, r)
  {
    OnePageRun(t, p);
    r := GrowsOn(t, [Start(p)], Claim(t, p), map[p := 1], [(p, 1)], p, join);
    assert Added([(p, 1)], (p, 2), 1) == [(p, 1), (p, 2)] && map[p := 1][p := 2] == map[p := 2];
    assert [Start(p)] + [Grow(p, join)] == [Start(p), Grow(p, join)];
  }

  lemma ThreePagesRun(t: Table, p: nat, a: Join, b: Join) returns (r: Table)
    requires Blank(t) && |t| >= 3 && p != 0
    ensures RunsTo(t, map[], [Start(p), Grow(p, a), Grow(p, b)], r, map[p := 3])
    ensures Shows(r, [(p, 1), (p, 2), (p, 3)]) && |r| == |t|
  {
    var t2 := TwoPagesRun(t, p, a);
    var rs := [Start(p), Grow(p, a)];
    r := GrowsOn(t, rs, t2, map[p := 2], [(p, 1), (p, 2)], p, b);
    assert Added([(p, 1), (p, 2)], (p, 3), 2) == [(p, 1), (p, 2), (p, 3)] && map[p := 2][p := 3] == map[p := 3];
    assert rs + [Grow(p, b)] == [Start(p), Grow(p, a), Grow(p, b)];
  }

  /** Then a second process starts. */
  lemma FourPagesRun(t: Table, p: nat, q: nat, a: Join, b: Join) returns (r: Table)
    requires Blank(t) && |t| >= 4 && p != 0 && q != 0 && p != q
    ensures RunsTo(t, map[], [Start(p), Grow(p, a), Grow(p, b), Start(q)], r, map[p := 3, q := 1])
    ensures Shows(r, [(q, 1), (p, 2), (p, 3), (p, 1)]) && |r| == |t|
  {
    var t3 := ThreePagesRun(t, p, a, b);
    var rs, head := [Start(p), Grow(p, a), Grow(p, b)], [(p, 1), (p, 2), (p, 3)];
    StartsOn(t, rs, t3, map[p := 3], head, q);
    r := Claim(t3, q);
    assert Added(head, (q, 1), 0) == [(q, 1), (p, 2), (p, 3), (p, 1)];
    assert map[p := 3][q := 1] == map[p := 3, q := 1];
    assert rs + [Start(q)] == [Start(p), Grow(p, a), Grow(p, b), Start(q)];
  }

  /** And grows. */
  lemma FivePagesRun(t: Table, p: nat, q: nat, a: Join, b: Join, c: Join) returns (r: Table)
    requires Blank(t) && |t| >= 5 && p != 0 && q != 0 && p != q
    ensures RunsTo(t, map[], [Start(p), Grow(p, a), Grow(p, b), Start(q), Grow(q, c)], r, map[p := 3, q := 2])
    ensures Shows(r, [(q, 1), (q, 2), (p, 3), (p, 1), (p, 2)]) && |r| == |t|
  {
    var t4 := FourPagesRun(t, p, q, a, b);
    var rs, head := [Start(p), Grow(p, a), Grow(p, b), Start(q)], [(q, 1), (p, 2), (p, 3), (p, 1)];
    r := GrowsOn(t, rs, t4, map[p := 3, q := 1], head, q, c);
    assert Added(head, (q, 2), 1) == [(q, 1), (q, 2), (p, 3), (p, 1), (p, 2)];
    assert map[p := 3, q := 1][q := 2] == map[p := 3, q := 2];
    assert rs + [Grow(q, c)] == [Start(p), Grow(p, a), Grow(p, b), Start(q), Grow(q, c)];
  }

  /** Both failures are reached, from any blank memory of five frames or more: after a process has grown to three
      pages and another to two, loading the first does not put its pages in order, and with five frames it
      crashes. */
  lemma ReachableScatter(t: Table, p: nat, q: nat, a: Join, b: Join, c: Join) returns (r: Table)
    requires Blank(t) && |t| >= 5 && p != 0 && q != 0 && p != q
    ensures RunsTo(t, map[], [Start(p), Grow(p, a), Grow(p, b), Start(q), Grow(q, c)], r, map[p := 3, q := 2])
    ensures |r| == |t| && !LoadsInOrder(r, p, 3) && (Load(r, p).Fault? <==> |t| == 5)
  {
    r := FivePagesRun(t, p, q, a, b, c);
    Scattered(r, p, q);
  }

  lemma Scattered(t: Table, p: nat, q: nat)
    requires |t| >= 5 && p != 0 && p != q && Shows(t, [(q, 1), (q, 2), (p, 3), (p, 1), (p, 2)])
    ensures !LoadsInOrder(t, p, 3) && (Load(t, p).Fault? <==> |t| == 5)
  {
    OpenShows(t, [(q, 1), (q, 2), (p, 3), (p, 1), (p, 2)]);
    assert Is(t[2], p, 3) && Is(t[3], p, 1) && Is(t[4], p, 2) && t[0].pid == t[1].pid == q;
    assert At(t, p, 1, 3) && At(t, p, 2, 4) && At(t, p, 3, 2);
    assert Somewhere(t, p, 1) && Somewhere(t, p, 2) && Somewhere(t, p, 3);
    assert Numbered(t, p, 3);
    AtIsFound(t, p, 1, 3);
    ThreePagesExactly(t, p);
    ThreePagesCrashExactly(t, p);
    var u := FirstPlaced(t, p);
    assert At(u, p, 2, 4) && !At(u, p, 2, 1) && !At(u, p, 2, 2) && !At(u, p, 3, 1);
  }
}
