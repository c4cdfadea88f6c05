/** The frame table and the page bytes, and the exchange of two pages that relocates both. */
module Frames {
  import opened Bytes
  import opened Chunks
  import opened PageTable

  /** A frame header. Pointers to frame headers count from 1; 0 is NULL. */
  datatype Frame = Frame(pid: nat, reference: bool, free: bool, order: int, start: nat, size: nat,
                         next: nat, prev: nat, shared: bool, swapclock: nat)

  /** Frame `i` of `n` with the address and the links it got when memory was initialised. */
  ghost predicate FrameOk(f: Frame, i: nat, n: nat) {
    f.start == BaseOf(i) && f.size == PAGE_SIZE && f.next == (if i + 1 < n then i + 2 else NULL) && f.prev == i
  }

  datatype Memory = Memory(frames: seq<Frame>, pages: seq<seq<Byte>>)

  /** Every frame has its address and links, and every page its size. The quantifier keeps this folded. */
  ghost predicate Sound(m: Memory) { |m.frames| == |m.pages| > 0 && forall u :: IsSound(m, u) }

  ghost predicate IsSound(m: Memory, u: Unit) {
    && |m.frames| == |m.pages|
    && (forall i :: 0 <= i < |m.frames| ==> FrameOk(m.frames[i], i, |m.frames|))
    && (forall i :: 0 <= i < |m.pages| ==> |m.pages[i]| == PAGE_SIZE)
  }

  lemma SoundAt(m: Memory, i: nat)
    requires Sound(m) && i < |m.frames|
    ensures FrameOk(m.frames[i], i, |m.frames|) && |m.pages[i]| == PAGE_SIZE
  {
    assert IsSound(m, Unit);
  }

  lemma SoundUpdate(m: Memory, i: nat, f: Frame, page: seq<Byte>)
    requires Sound(m) && i < |m.frames| && FrameOk(f, i, |m.frames|) && |page| == PAGE_SIZE
    ensures Sound(Memory(m.frames[i := f], m.pages[i := page]))
    ensures TableOf(Memory(m.frames[i := f], m.pages[i := page])) == TableOf(m)[i := PageOf(f, page)]
  {
    assert IsSound(m, Unit);
  }

  ghost function PageOf(f: Frame, page: seq<Byte>): Page { Page(f.pid, f.order, f.free, f.shared, page) }

  ghost function TableOf(m: Memory): (t: Table)
    requires |m.frames| == |m.pages|
    ensures |t| == |m.frames| && forall i :: 0 <= i < |t| ==> t[i] == PageOf(m.frames[i], m.pages[i])
  {
    seq(|m.frames|, i requires 0 <= i < |m.frames| => PageOf(m.frames[i], m.pages[i]))
  }

  /** Header `f` in the place of header `own`. */
  function MovedFrame(f: Frame, own: Frame): Frame { f.(start := own.start, next := own.next, prev := own.prev) }

  /** swapPages. */
  function Swapped(m: Memory, i: nat, j: nat): Memory
    requires i < |m.frames| && j < |m.frames| && |m.pages| == |m.frames|
  {
    if i == j then m
    else Memory(m.frames[i := MovedFrame(m.frames[j], m.frames[i])][j := MovedFrame(m.frames[i], m.frames[j])],
                m.pages[i := Restored(m.pages[j], BaseOf(i))][j := Restored(m.pages[i], BaseOf(j))])
  }

  /** swapPages exchanges the two pages, rebuilds their links for the new addresses and keeps every
      address and link of the frame table. */
  lemma SwapExchanges(m: Memory, i: nat, j: nat)
    requires Sound(m) && i < |m.frames| && j < |m.frames|
    ensures Sound(Swapped(m, i, j)) && TableOf(Swapped(m, i, j)) == Exchange(TableOf(m), i, j)
    ensures i != j ==> forall f :: f == i || f == j ==> Linked(Swapped(m, i, j).pages[f], BaseOf(f), 0, NULL)
  {
    assert IsSound(m, Unit);
    RestoredIsLinked(m.pages[j], BaseOf(i));
    RestoredIsLinked(m.pages[i], BaseOf(j));
    var m' := Swapped(m, i, j);
    assert forall k :: 0 <= k < |m.frames| ==> TableOf(m')[k] == Exchange(TableOf(m), i, j)[k];
  }

  /** Exchanging two linked pages twice is the identity. */
  lemma SwapTwice(m: Memory, i: nat, j: nat)
    requires Sound(m) && i < |m.frames| && j < |m.frames|
    requires Linked(m.pages[i], BaseOf(i), 0, NULL) && Linked(m.pages[j], BaseOf(j), 0, NULL)
    ensures Swapped(Swapped(m, i, j), i, j) == m
  {
    if i != j {
      assert IsSound(m, Unit);
      MovedTwice(m.pages[i], BaseOf(i), BaseOf(j));
      MovedTwice(m.pages[j], BaseOf(j), BaseOf(i));
      var m2 := Swapped(Swapped(m, i, j), i, j);
      assert m2.frames[i] == m.frames[i] && m2.frames[j] == m.frames[j];
      assert m2.pages[i] == m.pages[i] && m2.pages[j] == m.pages[j];
      assert m2.frames == m.frames && m2.pages == m.pages;
    }
  }

  /** A chunk list that tiles its page is found again, at the same offsets, where the page went. */
  lemma SwapKeepsTiledLists(m: Memory, i: nat, j: nat)
    requires Sound(m) && i < |m.frames| && j < |m.frames| && i != j && ListOk(m.pages[i], BaseOf(i), 0)
    requires BaseOf(j) + PAGE_SIZE <= ADDRESSES
    ensures var page := Swapped(m, i, j).pages[j];
            ListOk(page, BaseOf(j), 0)
            && (ListFrom(page, BaseOf(j), 0) == ListFrom(m.pages[i], BaseOf(i), 0) <==> Tiles(m.pages[i], BaseOf(i), 0))
  {
    SoundAt(m, i);
    MoveKeepsListExactly(m.pages[i], BaseOf(i), BaseOf(j));
  }

  // ---------------------------------------------------------------- counting free frames

  function CountFree(t: Table): (c: nat)
    ensures c <= |t|
  {
    if t == [] then 0 else CountFree(t[..|t| - 1]) + if t[|t| - 1].free then 1 else 0
  }

  function One(free: bool): int { if free then 1 else 0 }

  lemma {:induction false} CountUpdate(t: Table, i: nat, p: Page)
    requires i < |t|
    ensures CountFree(t[i := p]) == CountFree(t) - One(t[i].free) + One(p.free)
  {
    var last := |t| - 1;
    if i < last {
      assert t[i := p][..last] == t[..last][i := p];
      CountUpdate(t[..last], i, p);
    } else {
      assert t[i := p][..last] == t[..last];
    }
  }

  lemma ExchangeKeepsCount(t: Table, i: nat, j: nat)
    requires i < |t| && j < |t|
    ensures CountFree(Exchange(t, i, j)) == CountFree(t)
  {
    if i != j {
      CountUpdate(t, i, Moved(t[j], i));
      CountUpdate(t[i := Moved(t[j], i)], j, Moved(t[i], j));
    }
  }

  lemma {:induction false} ExchangesKeepCount(t: Table, swaps: seq<(nat, nat)>)
    requires InRange(|t|, swaps)
    ensures CountFree(Exchanges(t, swaps)) == CountFree(t)
    decreases |swaps|
  {
    if swaps != [] {
      ExchangeKeepsCount(t, swaps[0].0, swaps[0].1);
      ExchangesKeepCount(Exchange(t, swaps[0].0, swaps[0].1), swaps[1..]);
    }
  }

  lemma LoadKeepsCount(t: Table, pid: nat)
    ensures var l := Load(t, pid); l.Loaded? ==> CountFree(l.table) == CountFree(t)
  {
    var swaps := LoadExchanges(t, pid);
    ExchangesKeepCount(t, swaps);
  }

  lemma ClaimCounts(t: Table, pid: nat)
    requires FirstFree(t) < |t|
    ensures CountFree(Claim(t, pid)) == CountFree(t) - 1
  {
    var n := FirstFree(t);
    var p := Given(t, n, pid);
    CountUpdate(t, n, p);
    ExchangeKeepsCount(t[n := p], 0, n);
  }

  lemma {:induction false} SameCount(t: Table, u: Table)
    requires |t| == |u| && forall i :: 0 <= i < |t| ==> t[i].free == u[i].free
    ensures CountFree(t) == CountFree(u)
  {
    if t != [] { SameCount(t[..|t| - 1], u[..|u| - 1]); }
  }

  lemma UnplacedCounts(t: Table, pid: nat)
    requires FirstFree(t) < |t|
    ensures CountFree(Unplaced(t, pid)) == CountFree(t) - 1
  {
    ClaimCounts(t, pid);
    SameCount(Claim(t, pid), Unplaced(t, pid));
  }

  lemma JoinedKeepsFree(t: Table, last: nat, join: Join)
    requires t != [] && last < |t|
    ensures forall i :: 0 <= i < |t| ==> t[i].free == Joined(t, last, join)[i].free
  {
  }

  lemma JoinedCounts(t: Table, last: nat, join: Join)
    requires t != [] && last < |t|
    ensures CountFree(Joined(t, last, join)) == CountFree(t)
  {
    JoinedKeepsFree(t, last, join);
    SameCount(t, Joined(t, last, join));
  }

  lemma RenumberedCounts(t: Table, pid: nat)
    requires t != []
    ensures CountFree(Renumbered(t, pid)) == CountFree(t)
  {
    SameCount(t, Renumbered(t, pid));
  }

  /** A page more for one process is a free frame less. */
  lemma ReserveCounts(t: Table, pid: nat, join: Join)
    requires FirstFree(t) < |t|
    ensures var l := Reserve(t, pid, join); l.Loaded? ==> CountFree(l.table) == CountFree(t) - 1
  {
    UnplacedCounts(t, pid);
    var t' := Unplaced(t, pid);
    var last := LastFrame(t', pid);
    if last < |t'| {
      JoinedCounts(t', last, join);
      RenumberedCounts(Joined(t', last, join), pid);
      LoadKeepsCount(Renumbered(Joined(t', last, join), pid), pid);
    }
  }

  // ---------------------------------------------------------------- the victim of an eviction

  const CHANCES: nat := 3

  /** The swapclock that getVictimPage sees in frame `i`: every frame but the last has been ticked on arrival. */
  function Clock(fs: seq<Frame>, i: nat): nat
    requires i < |fs|
  {
    if i + 1 == |fs| then fs[i].swapclock else fs[i].swapclock + 1
  }

  predicate Passed(fs: seq<Frame>, pid: nat, i: nat)
    requires i < |fs|
  {
    fs[i].pid == pid && Clock(fs, i) < CHANCES
  }

  /** getVictimPage from frame pointer `p` downward: the first frame that belongs to another process or has used
      up its chances; NULL where the loop runs off the front of the list. */
  function VictimFrom(fs: seq<Frame>, pid: nat, p: nat): (v: nat)
    requires p <= |fs|
    ensures v <= p && (v != NULL ==> !Passed(fs, pid, v - 1)) && forall i :: v <= i < p ==> Passed(fs, pid, i)
  {
    if p == NULL || !Passed(fs, pid, p - 1) then p else VictimFrom(fs, pid, p - 1)
  }

  function Victim(fs: seq<Frame>, pid: nat): nat { VictimFrom(fs, pid, |fs|) }

  /** getVictimPage runs off the list exactly if every page belongs to the requester and has a chance left. */
  lemma NoVictimExactly(fs: seq<Frame>, pid: nat)
    ensures Victim(fs, pid) == NULL <==> forall i :: 0 <= i < |fs| ==> Passed(fs, pid, i)
  {
  }

  /** It takes the last page if that belongs to another process. */
  lemma LastPageIsVictim(fs: seq<Frame>, pid: nat)
    requires fs != [] && fs[|fs| - 1].pid != pid
    ensures Victim(fs, pid) == |fs|
  {
  }

  /** It takes a page of the requester exactly if, from the end, one that has used up its chances comes before any
      page of another process. */
  lemma OwnVictimExactly(fs: seq<Frame>, pid: nat)
    ensures var v := Victim(fs, pid);
            v != NULL && fs[v - 1].pid == pid <==>
            exists i :: 0 <= i < |fs| && fs[i].pid == pid && Clock(fs, i) >= CHANCES
                        && forall j :: i < j < |fs| ==> Passed(fs, pid, j)
  {
    var v := Victim(fs, pid);
    if i :| 0 <= i < |fs| && fs[i].pid == pid && Clock(fs, i) >= CHANCES
            && forall j :: i < j < |fs| ==> Passed(fs, pid, j) {
      assert !Passed(fs, pid, i);
      assert v - 1 == i;
    }
  }

  /** The frames after getVictimPage has gone down to `v`. */
  function Ticked(fs: seq<Frame>, v: nat): (r: seq<Frame>)
    requires 1 <= v <= |fs|
    ensures |r| == |fs|
  {
    seq(|fs|, i requires 0 <= i < |fs| =>
          if v - 1 <= i < |fs| - 1 then fs[i].(swapclock := fs[i].swapclock + 1) else fs[i])
  }

  // ---------------------------------------------------------------- pages that have just been used

  /** Pages 1 to k - 1 of `pid` have all their chances. */
  ghost predicate Rested(fs: seq<Frame>, pid: nat, k: int) {
    forall i :: 0 <= i < |fs| && fs[i].pid == pid && 1 <= fs[i].order < k ==> fs[i].swapclock == 0
  }

  /** No two frames hold the same page of `pid`. */
  ghost predicate Single(fs: seq<Frame>, pid: nat) {
    forall i, j :: 0 <= i < j < |fs| && fs[i].pid == pid && fs[j].pid == pid ==> fs[i].order != fs[j].order
  }

  /** Pages 1 to k - 1 of `pid`, each in one frame, have all their chances. The quantifier keeps this folded. */
  ghost predicate Kept(fs: seq<Frame>, pid: nat, k: int) { forall u :: IsKept(fs, pid, k, u) }

  ghost predicate IsKept(fs: seq<Frame>, pid: nat, k: int, u: Unit) { Single(fs, pid) && Rested(fs, pid, k) }

  lemma OpenKept(fs: seq<Frame>, pid: nat, k: int)
    requires Kept(fs, pid, k)
    ensures Single(fs, pid) && Rested(fs, pid, k)
  {
    assert IsKept(fs, pid, k, Unit);
  }

  lemma SwapKeeps(m: Memory, i: nat, j: nat, pid: nat, k: int)
    requires i < |m.frames| && j < |m.frames| && |m.pages| == |m.frames|
    ensures Kept(m.frames, pid, k) ==> Kept(Swapped(m, i, j).frames, pid, k)
  {
    if Kept(m.frames, pid, k) { OpenKept(m.frames, pid, k); }
  }

  lemma SingleIsKept(fs: seq<Frame>, pid: nat)
    requires Single(fs, pid)
    ensures Kept(fs, pid, 1)
  {
  }

  lemma FoundIsKept(fs: seq<Frame>, pid: nat, k: int, p: nat)
    requires Kept(fs, pid, k) && p <= |fs|
    requires if p == NULL then forall i :: 0 <= i < |fs| ==> !(fs[i].pid == pid && fs[i].order == k)
             else fs[p - 1].pid == pid && fs[p - 1].order == k
    ensures Kept(Reset(fs, p), pid, k + 1)
  {
    OpenKept(fs, pid, k);
  }

  lemma ResetKeeps(fs: seq<Frame>, pid: nat, k: int, p: nat)
    requires Kept(fs, pid, k) && p <= |fs|
    ensures Kept(Reset(fs, p), pid, k)
  {
    OpenKept(fs, pid, k);
  }

  /** The frames after findPage has found frame pointer `p`. */
  function Reset(fs: seq<Frame>, p: nat): (r: seq<Frame>)
    requires p <= |fs|
    ensures |r| == |fs|
  {
    if p == NULL then fs else fs[p - 1 := fs[p - 1].(swapclock := 0)]
  }

  lemma {:induction false} CountPositive(t: Table)
    ensures CountFree(t) == 0 <==> forall i :: 0 <= i < |t| ==> !t[i].free
  {
    if t != [] {
      CountPositive(t[..|t| - 1]);
      assert forall i :: 0 <= i < |t| - 1 ==> t[i] == t[..|t| - 1][i];
    }
  }
}
