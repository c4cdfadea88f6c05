/** The page manager's own procedures: search loops over the frame table, and pages that move in place. */
module PageManager {
  import opened Bytes
  import opened Chunks
  import opened Carving
  import opened PageTable
  import opened PageRuns
  import opened PageLoading
  import opened Frames
  import Placement

  /** A page in the swap file. */
  datatype Slot = Slot(free: bool, pid: nat, order: int, shared: bool, content: seq<Byte>)

  function CountSlots(s: seq<Slot>): nat {
    if s == [] then 0 else CountSlots(s[..|s| - 1]) + if s[|s| - 1].free then 1 else 0
  }

  lemma {:induction false} SlotTaken(s: seq<Slot>, i: nat, x: Slot)
    requires i < |s| && s[i].free && !x.free
    ensures CountSlots(s[i := x]) == CountSlots(s) - 1
  {
    var last := |s| - 1;
    if i < last {
      assert s[i := x][..last] == s[..last][i := x];
      SlotTaken(s[..last], i, x);
    } else {
      assert s[i := x][..last] == s[..last];
    }
  }

  /** A pointer to the frame of a page, NULL if there is none. */
  function PointerTo(t: Table, pid: nat, order: int): nat {
    if Find(t, pid, order) < |t| then Find(t, pid, order) + 1 else NULL
  }

  /** Yes, with what was asked for; No, with an error return; Crash, through a null pointer. */
  datatype Answer = Yes | No | Crash

  /** The table after the page in frame `v` went to swap. Its order stays behind. */
  function Evicted(t: Table, v: nat): Table
    requires v < |t|
  {
    t[v := t[v].(free := true, pid := 0)]
  }

  /** No frame is free, and getVictimPage finds none to free. */
  ghost predicate Stuck(m: Memory, pid: nat)
    requires |m.frames| == |m.pages|
  {
    FirstFree(TableOf(m)) == |m.frames| && Victim(m.frames, pid) == NULL
  }

  /** The table in which a frame is found for `pid`: the present one, or, if no frame is free, the one in
      which the victim has been evicted. */
  ghost predicate MadeRoom(m: Memory, pid: nat, t: Table)
    requires |m.frames| == |m.pages|
  {
    if FirstFree(TableOf(m)) < |m.frames| then t == TableOf(m)
    else Victim(m.frames, pid) != NULL && t == Evicted(TableOf(m), Victim(m.frames, pid) - 1)
  }

  /** The pages of `pid` are 1 to `m`, in order in the first frames, and free frames belong to nobody. */
  ghost predicate Ordered(t: Table, pid: nat, m: nat) { forall u :: IsOrdered(t, pid, m, u) }

  ghost predicate IsOrdered(t: Table, pid: nat, m: nat, u: Unit) {
    pid != 0 && m >= 1 && InOrder(t, pid, m) && forall i :: 0 <= i < |t| && t[i].free ==> t[i].pid == 0
  }

  lemma OpenOrdered(t: Table, pid: nat, m: nat)
    requires Ordered(t, pid, m)
    ensures pid != 0 && m >= 1 && InOrder(t, pid, m) && forall i :: 0 <= i < |t| && t[i].free ==> t[i].pid == 0
  {
    assert IsOrdered(t, pid, m, Unit);
  }

  /** Unless an ordered process has all frames, the victim is the page in the last frame, which is another's. */
  lemma OrderedMakesRoom(m: Memory, pid: nat, n: nat, t: Table)
    requires |m.frames| == |m.pages| && Ordered(TableOf(m), pid, n) && MadeRoom(m, pid, t)
    requires n < |m.frames|
    ensures Ordered(t, pid, n)
  {
    OpenOrdered(TableOf(m), pid, n);
    if FirstFree(TableOf(m)) == |m.frames| {
      assert TableOf(m)[|m.frames| - 1].pid != pid;
      LastPageIsVictim(m.frames, pid);
    }
  }

  lemma GrownFreeOk(t: Table, pid: nat, m: nat, join: Join, r: Table)
    requires 1 <= m <= FirstFree(t) < |t| && GrownTo(t, FirstFree(t), pid, m, join, r)
    requires forall i :: 0 <= i < |t| && t[i].free ==> t[i].pid == 0
    ensures forall i :: 0 <= i < |r| && r[i].free ==> r[i].pid == 0
  {
  }

  lemma OrderedGrows(t: Table, pid: nat, m: nat, join: Join)
    requires Ordered(t, pid, m) && FirstFree(t) < |t|
    ensures Reserve(t, pid, join).Loaded? && Ordered(Reserve(t, pid, join).table, pid, m + 1)
  {
    OpenOrdered(t, pid, m);
    var r := GrowthIsContiguous(t, pid, m, join);
    GrownFreeOk(t, pid, m, join, r);
  }

  /** A process that has all frames, and has just been loaded, leaves no victim. */
  lemma OwnerOfAllIsStuck(m: Memory, pid: nat)
    requires |m.frames| == |m.pages| && Ordered(TableOf(m), pid, |m.frames|) && Kept(m.frames, pid, |m.frames| + 1)
    ensures Stuck(m, pid)
  {
    var t := TableOf(m);
    OpenOrdered(t, pid, |m.frames|);
    OpenKept(m.frames, pid, |m.frames| + 1);
    forall i | 0 <= i < |m.frames| ensures Passed(m.frames, pid, i) && !t[i].free {
      assert Is(t[i], pid, i + 1);
    }
    NoVictimExactly(m.frames, pid);
  }

  /** A process started in the frame of an evicted page can be loaded exactly if that was somebody's first
      page: the frame keeps the order, and a new page is expected to have order 1. */
  lemma StartAfterEvictionExactly(t: Table, v: nat, pid: nat)
    requires FirstFree(t) == |t| && v < |t| && pid != 0 && forall i :: 0 <= i < |t| ==> t[i].pid != pid
    ensures FirstFree(Evicted(t, v)) == v
    ensures Load(Claim(Evicted(t, v), pid), pid).Loaded? <==> t[v].order == 1
  {
    FirstFreeIs(Evicted(t, v), v);
    var c := Claim(Evicted(t, v), pid);
    assert forall i :: 0 < i < |c| ==> c[i].pid != pid;
    if t[v].order == 1 {
      FindIs(c, pid, 1, 0);
      assert Exchange(c, 0, 0) == c && Find(c, pid, 2) == |c|;
    }
  }

  lemma FoundInFrames(m: Memory, pid: nat, order: int, p: nat)
    requires |m.frames| == |m.pages| && p == PointerTo(TableOf(m), pid, order)
    ensures if p == NULL then forall i :: 0 <= i < |m.frames| ==> !(m.frames[i].pid == pid && m.frames[i].order == order)
            else p <= |m.frames| && m.frames[p - 1].pid == pid && m.frames[p - 1].order == order
  {
    var t := TableOf(m);
    assert forall i :: 0 <= i < |t| ==> (Is(t[i], pid, order) <==> m.frames[i].pid == pid && m.frames[i].order == order);
  }

  // ---------------------------------------------------------------- processes that can be loaded

  ghost predicate IsLoadable(t: Table, pid: nat, m: nat, u: Unit) {
    && pid != 0 && m >= 1 && Numbered(t, pid, m) && (forall i :: 0 <= i < |t| && t[i].free ==> t[i].pid == 0)
    && Find(t, pid, 1) < |t| && Placement.Ready(Places(FirstPlaced(t, pid), pid, m), 1)
  }

  /** The pages of `pid` are 1 to `m`, each in one frame, wherever, and once the first is first the others are where
      the load puts them in order; free frames belong to nobody. The quantifier keeps this folded. */
  ghost predicate Loadable(t: Table, pid: nat, m: nat) { forall u :: IsLoadable(t, pid, m, u) }

  /** A process of one or two pages can be loaded wherever they are. */
  lemma SmallIsLoadable(t: Table, pid: nat, m: nat)
    requires pid != 0 && 1 <= m <= 2 && Numbered(t, pid, m)
    requires forall i :: 0 <= i < |t| && t[i].free ==> t[i].pid == 0
    ensures Loadable(t, pid, m)
  {
    LoadsInOrderExactly(t, pid, m);
  }

  /** In every run without eviction, so can every process of one or two pages at any time. */
  lemma SmallAlwaysLoadable(tables: seq<Table>, counts: seq<Sizes>, requests: seq<Request>, k: nat, pid: nat)
    requires IsRun(tables, counts, requests) && k <= |requests| && pid in counts[k] && counts[k][pid] <= 2
    ensures Loadable(tables[k], pid, counts[k][pid])
  {
    OwnershipAlways(tables, counts, requests, k);
    OpenOwned(tables[k], counts[k]);
    OwnedIsNumbered(tables[k], counts[k], pid);
    SmallIsLoadable(tables[k], pid, counts[k][pid]);
  }

  lemma PlacedIsInOrder(t: Table, pid: nat, m: nat)
    requires pid != 0 && m <= |t| && Numbered(t, pid, m) && Placed(t, pid, m)
    requires forall i :: 0 <= i < |t| && t[i].free ==> t[i].pid == 0
    ensures InOrder(t, pid, m)
  {
    OpenNumbered(t, pid, m);
    forall i | 0 <= i < m ensures Is(t[i], pid, i + 1) { assert InPlace(t, pid, i + 1); }
    forall i | m <= i < |t| ensures t[i].pid != pid {
      assert 1 <= t[i].order <= m ==> InPlace(t, pid, t[i].order);
    }
  }

  lemma RearrangedFreeOk(t: Table, r: Table, from: seq<nat>)
    requires Rearranged(t, r, from) && forall i :: 0 <= i < |t| && t[i].free ==> t[i].pid == 0
    ensures forall i :: 0 <= i < |r| && r[i].free ==> r[i].pid == 0
  {
    forall i | 0 <= i < |r| && r[i].free ensures r[i].pid == 0 { assert Came(t, r, from, i); }
  }

  lemma PlacesFit(t: Table, pid: nat, m: nat)
    requires Numbered(t, pid, m) && Placed(t, pid, m)
    ensures m <= |t|
  {
    if m > 0 { assert InPlace(t, pid, m); }
  }

  /** Loading such a process puts it in order. */
  lemma LoadableLoads(t: Table, pid: nat, m: nat)
    requires Loadable(t, pid, m)
    ensures Load(t, pid).Loaded? && Ordered(Load(t, pid).table, pid, m)
  {
    assert IsLoadable(t, pid, m, Unit);
    LoadsInOrderExactly(t, pid, m);
    var r := Load(t, pid).table;
    assert Numbered(r, pid, m) by { var ps := LoadFollowsPlaces(t, pid, m); }
    assert forall i :: 0 <= i < |r| && r[i].free ==> r[i].pid == 0 by {
      var from := LoadRearranges(t, pid);
      RearrangedFreeOk(t, r, from);
    }
    PlacesFit(r, pid, m);
    PlacedIsInOrder(r, pid, m);
  }

  lemma InOrderIsNumbered(t: Table, pid: nat, m: nat)
    requires InOrder(t, pid, m)
    ensures Numbered(t, pid, m) && Placed(t, pid, m)
  {
    forall k | 1 <= k <= m ensures InPlace(t, pid, k) && Somewhere(t, pid, k) { assert At(t, pid, k, k - 1); }
  }

  /** A process in order is such a process. */
  lemma OrderedIsLoadable(t: Table, pid: nat, m: nat)
    requires Ordered(t, pid, m)
    ensures Loadable(t, pid, m)
  {
    OpenOrdered(t, pid, m);
    InOrderIsNumbered(t, pid, m);
    LoadKeepsOrder(t, pid, m);
    LoadsInOrderExactly(t, pid, m);
  }

  class Manager {
    const frames: array<Frame>
    const pages: array<seq<Byte>>
    const slots: array<Slot>

    ghost function Mem(): Memory
      reads frames, pages
    {
      Memory(frames[..], pages[..])
    }

    ghost predicate Valid()
      reads frames, pages
    {
      Sound(Mem())
    }

    ghost function Table(): (t: Table)
      requires Valid()
      reads frames, pages
      ensures |t| == frames.Length
    {
      TableOf(Mem())
    }

    /** init: link the frames and mark all of them free; memory holds anything. */
    constructor (bytes: seq<seq<Byte>>, nSlots: nat)
      requires |bytes| > 0 && forall i :: 0 <= i < |bytes| ==> |bytes[i]| == PAGE_SIZE
      ensures Valid() && Blank(Table()) && pages[..] == bytes && slots.Length == nSlots
      ensures forall i :: 0 <= i < nSlots ==> slots[i].free
    {
      var n := |bytes|;
      var fs := new Frame[n](i => Frame(0, false, true, 1, 0, PAGE_SIZE, NULL, NULL, false, 0));
      var ps := new seq<Byte>[n](i requires 0 <= i < n => bytes[i]);
      var i := 0;
      while i < n
        invariant 0 <= i <= n
        invariant forall k :: 0 <= k < n ==>
                    fs[k].free && fs[k].pid == 0 && fs[k].order == 1 && fs[k].size == PAGE_SIZE && !fs[k].shared
        invariant forall k :: 0 <= k < i ==> fs[k].start == BaseOf(k) && fs[k].prev == k
        invariant forall k :: 0 <= k < n ==> fs[k].next == if k + 1 < i then k + 2 else NULL
        invariant forall k :: 0 <= k < n ==> ps[k] == bytes[k]
      {
        fs[i] := fs[i].(start := BaseOf(i), prev := i);
        if i > 0 { fs[i - 1] := fs[i - 1].(next := i + 1); }
        i := i + 1;
      }
      frames, pages := fs, ps;
      slots := new Slot[nSlots](k => Slot(true, 0, 0, false, []));
      new;
      assert pages[..] == bytes;
    }

    // -------------------------------------------------------------- searching

    /** The first free frame, or NULL. */
    method FindFreePage() returns (p: nat)
      requires Valid()
      ensures p == if FirstFree(Table()) < frames.Length then FirstFree(Table()) + 1 else NULL
    {
      ghost var i: nat := 0;
      p := 1;
      while p != NULL && !frames[p - 1].free
        invariant i <= frames.Length && p == if i < frames.Length then i + 1 else NULL
        invariant FirstFree(Table()) == FreeFrom(Table(), i)
        decreases frames.Length - i
      {
        SoundAt(Mem(), i);
        assert !Table()[i].free;
        p := frames[p - 1].next;
        i := i + 1;
      }
      assert i < frames.Length ==> Table()[i].free;
    }

    /** The frame of a page, or NULL; the page found gets a second chance. */
    method FindPage(pid: nat, order: int) returns (p: nat)
      requires Valid()
      modifies frames
      ensures Valid() && Table() == old(Table())
      ensures p == PointerTo(Table(), pid, order)
      ensures p <= frames.Length && frames[..] == Reset(old(frames[..]), p)
      ensures old(Kept(frames[..], pid, order)) ==> Kept(frames[..], pid, order + 1)
    {
      p := Search(pid, order);
      ghost var m := Mem();
      if p != NULL {
        SoundAt(m, p - 1);
        SetHeader(p - 1, frames[p - 1].(swapclock := 0));
      }
      FoundInFrames(m, pid, order, p);
      if Kept(m.frames, pid, order) { FoundIsKept(m.frames, pid, order, p); }
    }

    method Search(pid: nat, order: int) returns (p: nat)
      requires Valid()
      ensures p == PointerTo(Table(), pid, order)
    {
      ghost var i: nat := 0;
      p := 1;
      while p != NULL && !(frames[p - 1].pid == pid && frames[p - 1].order == order)
        invariant i <= frames.Length && p == if i < frames.Length then i + 1 else NULL
        invariant Find(Table(), pid, order) == FindFrom(Table(), pid, order, i)
        decreases frames.Length - i
      {
        SoundAt(Mem(), i);
        assert !Is(Table()[i], pid, order);
        p := frames[p - 1].next;
        i := i + 1;
      }
      assert i < frames.Length ==> Is(Table()[i], pid, order);
    }

    // -------------------------------------------------------------- moving pages

    /** Exchange two headers but for address and links. */
    method ExchangeHeaders(p: nat, q: nat)
      requires 1 <= p <= frames.Length && 1 <= q <= frames.Length && p != q && pages.Length == frames.Length
      modifies frames
      ensures frames[..] == Swapped(old(Mem()), p - 1, q - 1).frames
    {
      var page1, page2 := frames[p - 1], frames[q - 1];
      frames[p - 1] := frames[q - 1];
      frames[p - 1] := frames[p - 1].(start := page1.start, next := page1.next, prev := page1.prev);
      frames[q - 1] := page1;
      frames[q - 1] := frames[q - 1].(start := page2.start, next := page2.next, prev := page2.prev);
    }

    /** Exchange the bytes of two pages and rebuild the links in both. */
    method ExchangeBytes(p: nat, q: nat)
      requires 1 <= p <= frames.Length && 1 <= q <= frames.Length && p != q && pages.Length == frames.Length
      requires |pages[p - 1]| == |pages[q - 1]| == PAGE_SIZE
      requires frames[p - 1].start == BaseOf(p - 1) && frames[q - 1].start == BaseOf(q - 1)
      modifies pages
      ensures pages[..] == old(pages[..])[p - 1 := Restored(old(pages[q - 1]), BaseOf(p - 1))]
              [q - 1 := Restored(old(pages[p - 1]), BaseOf(q - 1))]
    {
      var buff := pages[p - 1];
      pages[p - 1] := pages[q - 1];
      pages[q - 1] := buff;
      var r := RestorePointers(pages[p - 1], frames[p - 1].start);
      pages[p - 1] := r;
      r := RestorePointers(pages[q - 1], frames[q - 1].start);
      pages[q - 1] := r;
    }

    method SwapPages(p: nat, q: nat)
      requires Valid() && 1 <= p <= frames.Length && 1 <= q <= frames.Length
      modifies frames, pages
      ensures Mem() == Swapped(old(Mem()), p - 1, q - 1)
      ensures Valid() && Table() == Exchange(old(Table()), p - 1, q - 1)
    {
      ghost var m, t := Mem(), Table();
      ghost var m' := Swapped(m, p - 1, q - 1);
      assert Sound(m') && TableOf(m') == Exchange(t, p - 1, q - 1) by { SwapExchanges(m, p - 1, q - 1); }
      SwapParts(p, q);
    }

    method SwapParts(p: nat, q: nat)
      requires Valid() && 1 <= p <= frames.Length && 1 <= q <= frames.Length
      modifies frames, pages
      ensures Mem() == Swapped(old(Mem()), p - 1, q - 1)
    {
      if p == q { return; }
      ghost var m := Mem();
      SoundAt(m, p - 1);
      SoundAt(m, q - 1);
      ExchangeHeaders(p, q);
      ExchangeBytes(p, q);
    }

    /** The frame whose page starts where that of frame `p` ends, or NULL. */
    method GetContiguousPage(p: nat) returns (c: nat)
      requires Valid() && 1 <= p <= frames.Length
      ensures c == if p < frames.Length then p + 1 else NULL
    {
      ghost var i: nat, m := 0, Mem();
      SoundAt(m, p - 1);
      var n := 1;
      c := NULL;
      while n != NULL && c == NULL
        invariant i <= frames.Length && n == if i < frames.Length then i + 1 else NULL
        invariant c == if p < i then p + 1 else NULL
        invariant p < i ==> i == p + 1
        decreases frames.Length - i
      {
        SoundAt(m, i);
        if frames[n - 1].start == frames[p - 1].start + PAGE_SIZE {
          c := n;
        }
        n := frames[n - 1].next;
        i := i + 1;
      }
    }

    /** Put page `q` behind page `p`; false where there is no frame behind. */
    method MakeContiguous(p: nat, q: nat) returns (ok: bool)
      requires Valid() && 1 <= p <= frames.Length && 1 <= q <= frames.Length
      modifies frames, pages
      ensures Valid() && ok == (p == q || p < frames.Length)
      ensures ok ==> Table() == Followed(old(Table()), p - 1, q - 1)
      ensures ok ==> Mem() == if p == q then old(Mem()) else Swapped(old(Mem()), p, q - 1)
    {
      ok := true;
      if p != q {
        var c := GetContiguousPage(p);
        if c == NULL { return false; }
        SwapPages(c, q);
      }
    }

    /** MakeContiguous on two pages of `pid`. */
    method MoveBehind(pid: nat, p: nat, q: nat, ghost k: int) returns (ok: bool)
      requires Valid() && 1 <= p <= frames.Length && 1 <= q <= frames.Length
      modifies frames, pages
      ensures Valid() && ok == (p == q || p < frames.Length)
      ensures ok ==> Table() == Followed(old(Table()), p - 1, q - 1)
      ensures ok && old(Kept(frames[..], pid, k)) ==> Kept(frames[..], pid, k)
    {
      ghost var m := Mem();
      ok := MakeContiguous(p, q);
      if ok && p != q { SwapKeeps(m, p, q - 1, pid, k); }
    }

    /** The loop has put page `k - 1` behind frame `p1` and found page `k` at `p2`. The quantifier keeps this folded. */
    ghost predicate Looking(pid: nat, p1: nat, p2: nat, k: int, top: int, l: Loading)
      reads frames, pages
    {
      Valid() && forall u :: IsLooking(pid, p1, p2, k, top, l, u)
    }

    ghost predicate IsLooking(pid: nat, p1: nat, p2: nat, k: int, top: int, l: Loading, u: Unit)
      requires Valid()
      reads frames, pages
    {
      1 <= p1 <= frames.Length && p2 == PointerTo(Table(), pid, k) && LoadsTo(Table(), pid, p1 - 1, k, top, l)
    }

    /** One round of the loop: page `k`, in frame `p2`, goes behind frame `p1`, and the next page is looked for. */
    method LoadRound(pid: nat, p1: nat, p2: nat, i: int, ghost top: int, ghost l: Loading) returns (ok: bool, p: nat)
      requires Looking(pid, p1, p2, i - 1, top, l) && p2 != NULL
      modifies frames, pages
      ensures Valid() && i - 1 <= top && (!ok ==> l.Fault?)
      ensures ok ==> Looking(pid, p2, p, i, top, l)
      ensures ok && old(Kept(frames[..], pid, i)) ==> Kept(frames[..], pid, i + 1)
    {
      assert IsLooking(pid, p1, p2, i - 1, top, l, Unit);
      ghost var next := NextTable(Table(), pid, p1, p2, i, top, l);
      ok, p := MoveAndFind(pid, p1, p2, i, next);
    }

    /** Page `p2` goes behind page `p1`, which leads to table `next`, and page `i` is looked for. */
    method MoveAndFind(pid: nat, p1: nat, p2: nat, i: int, ghost next: Table) returns (ok: bool, p: nat)
      requires Valid() && 1 <= p1 <= frames.Length && 1 <= p2 <= frames.Length
      requires p1 == p2 || p1 < frames.Length ==> next == Followed(Table(), p1 - 1, p2 - 1)
      modifies frames, pages
      ensures Valid() && ok == (p1 == p2 || p1 < frames.Length)
      ensures ok ==> Table() == next && p == PointerTo(next, pid, i)
      ensures ok && old(Kept(frames[..], pid, i)) ==> Kept(frames[..], pid, i + 1)
    {
      p := NULL;
      ok := MoveBehind(pid, p1, p2, i);
      if ok { p := FindPage(pid, i); }
    }

    /** The loop of LoadProcessPages, from page 2 on, with the first page in place. Page `k` is not there. */
    method LoadFollowing(pid: nat, ghost top: int, ghost l: Loading) returns (ok: bool, ghost k: int)
      requires Valid() && LoadsTo(Table(), pid, 0, 2, top, l)
      modifies frames, pages
      ensures Valid() && l == if ok then Loaded(Table()) else Fault
      ensures ok ==> k >= 2 && PointerTo(Table(), pid, k) == NULL
      ensures ok && old(Kept(frames[..], pid, 2)) ==> Kept(frames[..], pid, k + 1)
    {
      k := 2;
      var p1 := 1;
      var p2 := FindPage(pid, 2);
      var i := 3;
      while p2 != NULL
        invariant Looking(pid, p1, p2, k, top, l) && i == k + 1 && k >= 2
        invariant old(Kept(frames[..], pid, 2)) ==> Kept(frames[..], pid, k + 1)
        decreases top + 1 - k
      {
        var next;
        ok, next := LoadRound(pid, p1, p2, i, top, l);
        if !ok { return; }
        p1, p2 := p2, next;
        i, k := i + 1, k + 1;
      }
      assert IsLooking(pid, p1, p2, k, top, l, Unit);
      LoadsToEnd(Table(), pid, p1 - 1, k, top, l);
      ok := true;
    }

    /** False stands for a crash on a missing page or frame. The pages loaded, up to page k - 1, have all their
        chances. */
    method LoadProcessPages(pid: nat) returns (ok: bool, ghost k: int)
      requires Valid()
      modifies frames, pages
      ensures Valid() && ok == Load(old(Table()), pid).Loaded?
      ensures ok ==> Load(old(Table()), pid) == Loaded(Table())
      ensures ok ==> k >= 2 && PointerTo(Table(), pid, k) == NULL
      ensures ok && old(Kept(frames[..], pid, 1)) ==> Kept(frames[..], pid, k + 1)
    {
      k := 0;
      ghost var t := Table();
      var p1 := FindPage(pid, 1);
      if p1 == NULL { return false, k; }
      LoadStarts(t, pid, p1 - 1);
      PutFirst(pid, p1);
      ok, k := LoadFollowing(pid, Top(t), Load(t, pid));
    }

    method PutFirst(pid: nat, p: nat)
      requires Valid() && 1 <= p <= frames.Length
      modifies frames, pages
      ensures Valid() && Table() == Exchange(old(Table()), 0, p - 1)
      ensures old(Kept(frames[..], pid, 2)) ==> Kept(frames[..], pid, 2)
    {
      ghost var m := Mem();
      SwapPages(1, p);
      SwapKeeps(m, 0, p - 1, pid, 2);
    }

    /** Count up from page 1 while pages are found; the last one is page `r`. */
    method CountUp(pid: nat, ghost top: int, ghost r: int) returns (last: nat)
      requires Valid() && LastsTo(Table(), pid, 1, top, r)
      modifies frames
      ensures Valid() && Table() == old(Table()) && last == PointerTo(Table(), pid, r)
    {
      ghost var t, k := Table(), 1;
      last := FindPage(pid, 1);
      var p := FindPage(pid, 2);
      var i := 3;
      while p != NULL
        invariant Valid() && Table() == t && p == PointerTo(t, pid, k + 1) && i == k + 2 && last == PointerTo(t, pid, k)
        invariant LastsTo(t, pid, k, top, r)
        decreases top - k
      {
        LastsToStep(t, pid, k, top, r);
        last := p;
        p := FindPage(pid, i);
        i, k := i + 1, k + 1;
      }
      LastsToStep(t, pid, k, top, r);
    }

    /** The last page found when asking for page 1, 2, and so on, or NULL. */
    method GetLastProcessPage(pid: nat) returns (last: nat)
      requires Valid()
      modifies frames
      ensures Valid() && Table() == old(Table()) && last <= frames.Length
      ensures last == if LastFrame(Table(), pid) < frames.Length then LastFrame(Table(), pid) + 1 else NULL
      ensures last != NULL ==> Table()[last - 1].order == LastFrom(Table(), pid, 1, Top(Table()))
    {
      last := CountUp(pid, Top(Table()), LastFrom(Table(), pid, 1, Top(Table())));
    }

    // -------------------------------------------------------------- claiming and growing

    /** Write header `i`; its address and links stay. */
    method SetHeader(i: nat, f: Frame)
      requires Valid() && i < frames.Length && FrameOk(f, i, frames.Length)
      modifies frames
      ensures Valid() && Table() == old(Table())[i := PageOf(f, pages[i])] && frames[..] == old(frames[..])[i := f]
    {
      ghost var m := Mem();
      SoundAt(m, i);
      SoundUpdate(m, i, f, pages[i]);
      frames[i] := f;
      assert Mem() == Memory(m.frames[i := f], m.pages[i := m.pages[i]]);
    }

    /** Write page `i`. */
    method SetPage(i: nat, page: seq<Byte>)
      requires Valid() && i < frames.Length && |page| == PAGE_SIZE
      modifies pages
      ensures Valid() && Table() == old(Table())[i := PageOf(frames[i], page)]
    {
      ghost var m := Mem();
      SoundAt(m, i);
      SoundUpdate(m, i, frames[i], page);
      pages[i] := page;
      assert Mem() == Memory(m.frames[i := m.frames[i]], m.pages[i := page]);
    }

    method InitializeSpace(i: nat)
      requires Valid() && i < frames.Length
      modifies pages
      ensures Valid() && Table() == old(Table())[i := old(Table())[i].(body := FreshBody(old(Table())[i].body, i))]
    {
      SoundAt(Mem(), i);
      SetPage(i, Fresh(pages[i], frames[i].start));
    }

    /** Take the free frame `n` for `pid` and put it first. */
    method ClaimFrame(pid: nat, n: nat)
      requires Valid() && n == FirstFree(Table()) < frames.Length
      modifies frames, pages
      ensures Valid() && Table() == Claim(old(Table()), pid)
    {
      ghost var t := Table();
      SoundAt(Mem(), n);
      SetHeader(n, frames[n].(free := false, pid := pid));
      InitializeSpace(n);
      assert Table() == t[n := Given(t, n, pid)];
      SwapPages(1, n + 1);
    }

    /** The first free slot of the swap file, or the number of slots. */
    method FindFreeSlot() returns (s: nat)
      ensures s <= slots.Length && (s < slots.Length ==> slots[s].free) && forall k :: 0 <= k < s ==> !slots[k].free
    {
      s := 0;
      while s < slots.Length && !slots[s].free
        invariant s <= slots.Length && forall k :: 0 <= k < s ==> !slots[k].free
      {
        s := s + 1;
      }
    }

    /** The victim by second chance; NULL stands for a crash on running off the list. */
    method GetVictimPage(pid: nat) returns (v: nat)
      requires Valid()
      modifies frames
      ensures Valid() && Table() == old(Table()) && v == Victim(old(frames[..]), pid)
      ensures v != NULL ==> frames[..] == Ticked(old(frames[..]), v)
    {
      ghost var m := Mem();
      v := frames.Length;
      TickedIsSeen(m.frames, frames[..], v);
      while v != NULL && frames[v - 1].pid == pid && frames[v - 1].swapclock < CHANCES
        invariant v <= frames.Length && Victim(m.frames, pid) == VictimFrom(m.frames, pid, v)
        invariant TickedTo(m.frames, frames[..], v) && Seen(m.frames, frames[..], v)
        decreases v
      {
        SoundAt(m, v - 1);
        v := frames[v - 1].prev;
        if v != NULL {
          Tick(v, m.frames);
          TickedIsSeen(m.frames, frames[..], v);
        } else {
          AllTicked(m.frames, frames[..]);
        }
      }
      TickedSame(m, frames[..], v);
      assert Mem() == Memory(frames[..], m.pages);
    }

    method Tick(p: nat, ghost fs: seq<Frame>)
      requires 1 <= p < frames.Length && TickedTo(fs, frames[..], p + 1)
      modifies frames
      ensures TickedTo(fs, frames[..], p)
    {
      assert IsTicked(fs, frames[..], p + 1, Unit);
      frames[p - 1] := frames[p - 1].(swapclock := frames[p - 1].swapclock + 1);
    }

    /** movePageToSwap: the victim goes to the first free slot and is kept there whole. */
    method MovePageToSwap(pid: nat) returns (a: Answer, ghost v: nat, ghost s: nat)
      requires Valid()
      modifies frames, slots
      ensures Valid() && (a.Crash? <==> Victim(old(frames[..]), pid) == NULL)
      ensures a.No? <==> !a.Crash? && forall k :: 0 <= k < slots.Length ==> !old(slots[k].free)
      ensures !a.Yes? ==> Table() == old(Table()) && slots[..] == old(slots[..])
      ensures a.No? ==> frames[..] == Ticked(old(frames[..]), Victim(old(frames[..]), pid))
      ensures a.Yes? ==> v + 1 == Victim(old(frames[..]), pid) && Table() == Evicted(old(Table()), v)
      ensures a.Yes? ==> s < slots.Length && old(slots[s].free)
                         && var p := old(Table())[v];
                            slots[..] == old(slots[..])[s := Slot(false, p.pid, p.order, p.shared, old(pages[v]))]
    {
      v, s := 0, 0;
      var e := GetVictimPage(pid);
      if e == NULL { return Crash, v, s; }
      v := e - 1;
      var k := FindFreeSlot();
      s := k;
      if k == slots.Length { return No, v, s; }
      StoreVictim(e, k);
      a := Yes;
    }

    /** The page in frame pointer `e` is copied to slot `k`, and its frame is freed. */
    method StoreVictim(e: nat, k: nat)
      requires Valid() && 1 <= e <= frames.Length && k < slots.Length
      modifies frames, slots
      ensures Valid() && Table() == Evicted(old(Table()), e - 1)
      ensures var p := old(Table())[e - 1];
              slots[..] == old(slots[..])[k := Slot(false, p.pid, p.order, p.shared, old(pages[e - 1]))]
    {
      SoundAt(Mem(), e - 1);
      slots[k] := Slot(false, frames[e - 1].pid, frames[e - 1].order, frames[e - 1].shared, pages[e - 1]);
      SetHeader(e - 1, frames[e - 1].(free := true, pid := 0));
    }

    /** Free frames and free swap slots together. */
    ghost function Room(): nat
      requires Valid()
      reads frames, pages, slots
    {
      CountFree(Table()) + CountSlots(slots[..])
    }

    /** No frame is free, and no swap slot. */
    ghost predicate Full()
      requires Valid()
      reads frames, pages, slots
    {
      FirstFree(Table()) == frames.Length && forall k :: 0 <= k < slots.Length ==> !slots[k].free
    }

    /** getFreePage. The recursion is at most one deep; `from` is the table in which the frame was found. */
    method GetFreePage(pid: nat) returns (a: Answer, ghost from: Table)
      requires Valid()
      modifies frames, pages, slots
      ensures Valid() && (a.Crash? <==> Stuck(old(Mem()), pid)) && (a.No? <==> !a.Crash? && old(Full()))
      ensures a.Yes? ==> MadeRoom(old(Mem()), pid, from) && FirstFree(from) < |from| && Table() == Claim(from, pid)
      ensures a.Yes? ==> Room() == old(Room()) - 1
      ensures a.No? ==> Table() == old(Table()) && slots[..] == old(slots[..])
      ensures a.No? ==> var v := Victim(old(frames[..]), pid); v != NULL && frames[..] == Ticked(old(frames[..]), v)
      decreases if FirstFree(Table()) == frames.Length then 1 else 0, 1
    {
      from := Table();
      var n := FindFreePage();
      if n == NULL {
        a, from := EvictAndRetry(pid);
      } else {
        ClaimCounts(from, pid);
        ClaimFrame(pid, n - 1);
        a := Yes;
      }
    }

    method EvictAndRetry(pid: nat) returns (a: Answer, ghost from: Table)
      requires Valid() && FirstFree(Table()) == frames.Length
      modifies frames, pages, slots
      ensures Valid() && (a.Crash? <==> Stuck(old(Mem()), pid)) && (a.No? <==> !a.Crash? && old(Full()))
      ensures a.Yes? ==> MadeRoom(old(Mem()), pid, from) && FirstFree(from) < |from| && Table() == Claim(from, pid)
      ensures a.Yes? ==> Room() == old(Room()) - 1
      ensures a.No? ==> Table() == old(Table()) && slots[..] == old(slots[..])
      ensures a.No? ==> var v := Victim(old(frames[..]), pid); v != NULL && frames[..] == Ticked(old(frames[..]), v)
      decreases 1, 0
    {
      ghost var t, before, v, s := Table(), slots[..], 0, 0;
      from := t;
      a, v, s := MovePageToSwap(pid);
      if a.Yes? {
        EvictionCounts(t, v, before, s, slots[s]);
        a, from := GetFreePage(pid);
      }
    }

    /** joinFreeSpace: the last chunk of the last page goes on into the new page, which is first in the table, if
        that chunk is free and the last page is not itself a continuation. If the list of the last page leaves the
        page, it is left open whether the chunk at its end is free. */
    method JoinFreeSpace(pid: nat) returns (ok: bool, join: Join)
      requires Valid()
      modifies frames, pages
      ensures Valid() && ok == (LastFrame(old(Table()), pid) < frames.Length)
      ensures if ok then Table() == Joined(old(Table()), LastFrame(old(Table()), pid), join)
              else join == Alone && Table() == old(Table())
      ensures ok && ListIn(old(Mem()), LastFrame(old(Table()), pid)) ==>
                join == JoinOf(old(Mem()), LastFrame(old(Table()), pid))
    {
      join := Alone;
      ghost var t, m := Table(), Mem();
      var last := GetLastProcessPage(pid);
      if last == NULL { return false, join; }
      ok := true;
      var prev := WalkBack(pid, last);
      var continued := IsShared(prev);
      if !continued {
        join := ChooseJoin(last);
      }
      ApplyJoin(last, join);
    }

    /** The chunk that joinFreeSpace enlarges. */
    method ChooseJoin(last: nat) returns (join: Join)
      requires Valid() && 1 <= last <= frames.Length
      ensures ListOk(pages[last - 1], BaseOf(last - 1), 0) ==>
                join == EndJoin(pages[last - 1], BaseOf(last - 1))
      ensures join.Into? ==> Inside(pages[last - 1], join.at)
    {
      SoundAt(Mem(), last - 1);
      join := Alone;
      var e, whole := GetLastElement(pages[last - 1], frames[last - 1].start);
      if whole {
        if IsFree(pages[last - 1], e) { join := Into(e); }
      } else {
        var free := *;
        if free { join := Elsewhere; }
      }
    }

    method ApplyJoin(last: nat, join: Join)
      requires Valid() && 1 <= last <= frames.Length && (join.Into? ==> Inside(pages[last - 1], join.at))
      modifies frames, pages
      ensures Valid() && Table() == Joined(old(Table()), last - 1, join)
    {
      ghost var t := Table();
      SoundAt(Mem(), 0);
      SoundAt(Mem(), last - 1);
      if !join.Alone? {
        SetHeader(0, frames[0].(shared := true));
        if join.Into? {
          EnlargeChunk(last - 1, join.at, frames[0].size);
        }
      }
      assert Table() == Joined(t, last - 1, join);
    }

    method EnlargeChunk(i: nat, at: nat, more: nat)
      requires Valid() && i < frames.Length && Inside(pages[i], at)
      modifies pages
      ensures Valid() && Table() == old(Table())[i := old(Table())[i].(body := Enlarged(old(Table())[i].body, at, more))]
    {
      SoundAt(Mem(), i);
      SetPage(i, Put(pages[i], at + 24, 4, SizeOf(pages[i], at) + more));
    }

    /** Whether the page in a frame continues the page before it. */
    method IsShared(p: nat) returns (b: bool)
      requires Valid() && 1 <= p <= frames.Length
      ensures b == Table()[p - 1].shared
    {
      b := frames[p - 1].shared;
    }

    method OrderOf(p: nat) returns (k: int)
      requires Valid() && 1 <= p <= frames.Length
      ensures k == Table()[p - 1].order
    {
      k := frames[p - 1].order;
    }

    /** Find page `k`, and whether it is a continuation page. */
    method LookBack(pid: nat, k: int) returns (p: nat, more: bool)
      requires Valid()
      modifies frames
      ensures Valid() && Table() == old(Table())
      ensures p == PointerTo(Table(), pid, k) && more == (p != NULL && Table()[p - 1].shared)
    {
      p := FindPage(pid, k);
      more := false;
      if p != NULL { more := IsShared(p); }
    }

    /** Go back over continuation pages: the last page itself if it is none, else a continuation page. */
    method WalkBack(pid: nat, last: nat) returns (prev: nat)
      requires Valid() && 1 <= last <= frames.Length
      modifies frames
      ensures Valid() && Table() == old(Table()) && 1 <= prev <= frames.Length
              && Table()[prev - 1].shared == Table()[last - 1].shared
    {
      ghost var t := Table();
      prev := last;
      var p, more := last, false;
      var i := OrderOf(last);
      i := i - 1;
      more := IsShared(last);
      while more
        invariant Valid() && Table() == t && 1 <= prev <= frames.Length && t[prev - 1].shared == t[last - 1].shared
        invariant more ==> 1 <= p <= frames.Length && t[p - 1].order == i + 1 && t[p - 1].shared && t[last - 1].shared
        decreases more, i - Bottom(t) + 1
      {
        prev := p;
        p, more := LookBack(pid, i);
        i := i - 1;
      }
    }

    method ForgetOrder()
      requires Valid()
      modifies frames
      ensures Valid() && Table() == old(Table())[0 := old(Table())[0].(order := -1)]
    {
      SoundAt(Mem(), 0);
      SetHeader(0, frames[0].(order := -1));
    }

    /** The new page gets the number behind the last one. */
    method NumberNewPage(pid: nat)
      requires Valid() && LastFrame(Table(), pid) < frames.Length
      modifies frames
      ensures Valid() && Table() == Renumbered(old(Table()), pid)
    {
      var last := GetLastProcessPage(pid);
      SoundAt(Mem(), 0);
      SetHeader(0, frames[0].(order := frames[last - 1].order + 1));
    }

    /** reserveAnotherPage after it has got a page, which is first in the table. */
    method UseNewPage(pid: nat, ghost from: Table) returns (ok: bool, join: Join)
      requires Valid() && FirstFree(from) < |from| && Table() == Claim(from, pid)
      modifies frames, pages
      ensures Valid() && Reserve(from, pid, join) == if ok then Loaded(Table()) else Fault
    {
      ForgetOrder();
      ghost var t := Table();
      assert t == Unplaced(from, pid);
      ok, join := JoinFreeSpace(pid);
      if ok {
        JoinedKeepsLast(t, pid, join);
        NumberNewPage(pid);
        ghost var k;
        ok, k := LoadProcessPages(pid);
      }
    }

    /** reserveAnotherPage. No leaves everything as it was; Yes takes exactly one frame or slot; Crash is that of
        getVictimPage or of loadProcessPages. */
    method ReserveAnotherPage(pid: nat) returns (a: Answer, ghost from: Table, join: Join)
      requires Valid()
      modifies frames, pages, slots
      ensures Valid() && (Stuck(old(Mem()), pid) ==> a.Crash?) && (a.No? <==> !Stuck(old(Mem()), pid) && old(Full()))
      ensures a.No? ==> Table() == old(Table()) && slots[..] == old(slots[..])
      ensures a.No? ==> var v := Victim(old(frames[..]), pid); v != NULL && frames[..] == Ticked(old(frames[..]), v)
      ensures !a.No? && !Stuck(old(Mem()), pid) ==>
                && MadeRoom(old(Mem()), pid, from) && FirstFree(from) < |from|
                && Reserve(from, pid, join) == if a.Yes? then Loaded(Table()) else Fault
      ensures a.Yes? ==> Room() == old(Room()) - 1
    {
      join := Alone;
      a, from := GetFreePage(pid);
      if a.Yes? {
        var ok;
        ok, join := UseNewPage(pid, from);
        ReserveAfterClaim(from, pid, join);
        a := if ok then Yes else Crash;
      }
    }

    /** Look for a free chunk in the first page of the table and in the pages of `pid` from page 2 on; whether a
        page has one is left open. */
    method SearchPages(pid: nat, ghost r: int) returns (found: bool)
      requires Valid()
      modifies frames
      ensures Valid() && Table() == old(Table()) && (old(Kept(frames[..], pid, r)) ==> Kept(frames[..], pid, r))
    {
      ghost var t, k := Table(), 2;
      found := *;
      if found { return; }
      var p := LookUpPage(pid, 2, r);
      var i := 3;
      while p != NULL && !found
        invariant Valid() && Table() == t && p == PointerTo(t, pid, k) && i == k + 1
        invariant old(Kept(frames[..], pid, r)) ==> Kept(frames[..], pid, r)
        decreases Top(t) + 1 - k
      {
        found := *;
        p := LookUpPage(pid, i, r);
        i, k := i + 1, k + 1;
      }
    }

    /** FindPage, which takes no chance away. */
    method LookUpPage(pid: nat, order: int, ghost r: int) returns (p: nat)
      requires Valid()
      modifies frames
      ensures Valid() && Table() == old(Table()) && p == PointerTo(Table(), pid, order)
      ensures old(Kept(frames[..], pid, r)) ==> Kept(frames[..], pid, r)
    {
      ghost var fs := frames[..];
      p := FindPage(pid, order);
      if Kept(fs, pid, r) { ResetKeeps(fs, pid, r, p); }
    }

    /** One attempt of getFreeElement: `found` if there was room. Otherwise another page was asked for, and Yes
        means that it is there. */
    method Attempt(pid: nat, ghost m: nat) returns (found: bool, a: Answer)
      requires Valid()
      modifies frames, pages, slots
      ensures Valid() && (found ==> a.Yes?) && (a.No? ==> Full())
      ensures !a.Crash? ==> Room() == old(Room()) - if !found && a.Yes? then 1 else 0
      ensures old(Loadable(Table(), pid, m)) ==>
                && (a.Crash? ==> m == frames.Length)
                && (!a.Crash? ==> Ordered(Table(), pid, if !found && a.Yes? then m + 1 else m))
    {
      found := false;
      var ok := LoadForRequest(pid, m);
      if !ok { return false, Crash; }
      found := SearchPages(pid, m + 1);
      if found { return true, Yes; }
      a := GrowForRequest(pid, m);
    }

    /** getFreeElement. Each retry uses up one free frame or swap slot, so it ends: with a block, with NULL if there
        is neither a free frame nor a free slot, or in a crash. A process whose `m` pages the load puts in order has
        them in order afterwards, and crashes only if it needs another page when it has all frames. */
    method GetFreeElement(pid: nat, ghost m: nat) returns (a: Answer, retries: nat)
      requires Valid()
      modifies frames, pages, slots
      ensures Valid() && (a.No? ==> Full())
      ensures !a.Crash? ==> Room() + retries == old(Room())
      ensures old(Loadable(Table(), pid, m)) ==>
                if a.Crash? then m + retries == frames.Length else Ordered(Table(), pid, m + retries)
      decreases Room()
    {
      retries := 0;
      var found;
      ghost var loadable := Loadable(Table(), pid, m);
      found, a := Attempt(pid, m);
      if !found && a.Yes? {
        if loadable { OrderedIsLoadable(Table(), pid, m + 1); }
        var r;
        a, r := GetFreeElement(pid, m + 1);
        retries := r + 1;
        assert m + 1 + r == m + retries;
      }
    }

    /** LoadProcessPages, and what it means for a process that it puts in order. */
    method LoadForRequest(pid: nat, ghost m: nat) returns (ok: bool)
      requires Valid()
      modifies frames, pages
      ensures Valid() && (ok ==> Room() == old(Room()))
      ensures old(Loadable(Table(), pid, m)) ==> ok && Ordered(Table(), pid, m) && Kept(frames[..], pid, m + 1)
    {
      ghost var t, mem := Table(), Mem();
      ghost var k;
      LoadKeepsCount(t, pid);
      if Loadable(t, pid, m) {
        LoadableLoads(t, pid, m);
        LoadableIsKept(mem, pid, m);
      }
      ok, k := LoadProcessPages(pid);
      if Loadable(t, pid, m) { KeptPast(Mem(), pid, m, k); }
    }

    /** ReserveAnotherPage, and what it means for a process in order. */
    method GrowForRequest(pid: nat, ghost m: nat) returns (a: Answer)
      requires Valid()
      modifies frames, pages, slots
      ensures Valid() && (a.No? ==> Full() && Table() == old(Table()) && Room() == old(Room()))
      ensures a.Yes? ==> Room() == old(Room()) - 1
      ensures old(Ordered(Table(), pid, m) && Kept(frames[..], pid, m + 1)) ==>
                && (a.Crash? <==> m == frames.Length)
                && (a.Yes? ==> Ordered(Table(), pid, m + 1))
    {
      ghost var mem, from := Mem(), Table();
      var join;
      a, from, join := ReserveAnotherPage(pid);
      if Ordered(TableOf(mem), pid, m) && Kept(mem.frames, pid, m + 1) {
        OrderedReserves(mem, pid, m, from, join);
      }
    }
  }

  /** What a round of the loop leads to, if there is a frame to move to. */
  lemma NextTable(t: Table, pid: nat, p1: nat, p2: nat, i: int, top: int, l: Loading) returns (next: Table)
    requires 1 <= p1 <= |t| && p2 == PointerTo(t, pid, i - 1) != NULL && LoadsTo(t, pid, p1 - 1, i - 1, top, l)
    ensures p2 <= |t| && i - 1 <= top && (p1 != p2 && p1 == |t| ==> l.Fault?)
    ensures p1 == p2 || p1 < |t| ==> next == Followed(t, p1 - 1, p2 - 1) && LoadsTo(next, pid, p2 - 1, i, top, l)
  {
    LoadsToStep(t, pid, p1 - 1, i - 1, top, l, p2 - 1);
    next := if p1 == p2 || p1 < |t| then Followed(t, p1 - 1, p2 - 1) else t;
  }

  lemma LoadStarts(t: Table, pid: nat, n: nat)
    requires n == Find(t, pid, 1) < |t|
    ensures LoadsTo(Exchange(t, 0, n), pid, 0, 2, Top(t), Load(t, pid))
  {
  }

  ghost predicate IsTicked(fs: seq<Frame>, now: seq<Frame>, v: nat, u: Unit) {
    |now| == |fs| && forall i :: 0 <= i < |fs| ==>
      now[i] == if v - 1 <= i < |fs| - 1 then fs[i].(swapclock := fs[i].swapclock + 1) else fs[i]
  }

  /** The frames while getVictimPage has gone down to `v`. The quantifier keeps this folded. */
  ghost predicate TickedTo(fs: seq<Frame>, now: seq<Frame>, v: nat) { forall u :: IsTicked(fs, now, v, u) }

  /** What it sees there. */
  ghost predicate Seen(fs: seq<Frame>, now: seq<Frame>, v: nat) {
    |now| == |fs| && (1 <= v <= |fs| ==> now[v - 1] == fs[v - 1].(swapclock := Clock(fs, v - 1)))
  }

  lemma TickedIsSeen(fs: seq<Frame>, now: seq<Frame>, v: nat)
    requires TickedTo(fs, now, v) && 1 <= v <= |fs|
    ensures Seen(fs, now, v)
  {
    assert IsTicked(fs, now, v, Unit);
  }

  lemma AllTicked(fs: seq<Frame>, now: seq<Frame>)
    requires TickedTo(fs, now, 1)
    ensures TickedTo(fs, now, NULL)
  {
    assert IsTicked(fs, now, 1, Unit);
  }

  lemma TickedSame(m: Memory, now: seq<Frame>, v: nat)
    requires Sound(m) && TickedTo(m.frames, now, v) && v <= |m.frames|
    ensures Sound(Memory(now, m.pages)) && TableOf(Memory(now, m.pages)) == TableOf(m)
    ensures v != NULL ==> now == Ticked(m.frames, v)
  {
    assert IsSound(m, Unit) && IsTicked(m.frames, now, v, Unit);
  }

  /** The chunk that joinFreeSpace enlarges in a page whose list stays in the page. */
  ghost function EndJoin(page: seq<Byte>, base: nat): Join
    requires ListOk(page, base, 0)
  {
    var e := ListEnd(page, base, 0);
    if IsFree(page, e) then Into(e) else Alone
  }

  ghost predicate ListIn(m: Memory, f: nat) { f < |m.pages| && ListOk(m.pages[f], BaseOf(f), 0) }

  /** What joinFreeSpace does when the last page is in frame `f`. */
  ghost function JoinOf(m: Memory, f: nat): Join
    requires ListIn(m, f) && f < |m.frames|
  {
    if m.frames[f].shared then Alone else EndJoin(m.pages[f], BaseOf(f))
  }

  lemma JoinedKeepsLast(t: Table, pid: nat, join: Join)
    requires t != [] && LastFrame(t, pid) < |t|
    ensures LastFrame(Joined(t, LastFrame(t, pid), join), pid) == LastFrame(t, pid)
  {
    var u := Joined(t, LastFrame(t, pid), join);
    JoinedKeepsTags(t, LastFrame(t, pid), join);
    SameTop(t, u);
    SameLast(t, u, pid, 1, Top(t));
    SameFind(t, u, pid, LastFrom(t, pid, 1, Top(t)), 0);
  }

  lemma LoadableIsKept(m: Memory, pid: nat, n: nat)
    requires |m.frames| == |m.pages| && Loadable(TableOf(m), pid, n)
    ensures Kept(m.frames, pid, 1)
  {
    var t := TableOf(m);
    assert IsLoadable(t, pid, n, Unit);
    OpenNumbered(t, pid, n);
    forall i, j | 0 <= i < j < |t| && m.frames[i].pid == pid && m.frames[j].pid == pid
      ensures m.frames[i].order != m.frames[j].order
    {
      assert t[i].pid == pid && t[j].pid == pid;
      assert Somewhere(t, pid, t[i].order);
    }
    SingleIsKept(m.frames, pid);
  }

  lemma KeptPast(m: Memory, pid: nat, n: nat, k: int)
    requires |m.frames| == |m.pages| && Ordered(TableOf(m), pid, n) && Kept(m.frames, pid, k + 1)
    requires k >= 2 && PointerTo(TableOf(m), pid, k) == NULL
    ensures Kept(m.frames, pid, n + 1)
  {
    OpenKept(m.frames, pid, k + 1);
    OpenOrdered(TableOf(m), pid, n);
    PastOrder(TableOf(m), pid, n, k);
  }

  lemma PastOrder(t: Table, pid: nat, n: nat, k: int)
    requires InOrder(t, pid, n) && Find(t, pid, k) == |t| && k >= 1
    ensures k > n
  {
    if k <= n { InOrderFound(t, pid, n, k); }
  }

  lemma InOrderFound(t: Table, pid: nat, n: nat, k: int)
    requires InOrder(t, pid, n) && 1 <= k <= n
    ensures Find(t, pid, k) < |t|
  {
    assert Is(t[k - 1], pid, k);
  }

  /** Growing keeps a process in order, or crashes because it has all frames. */
  lemma OrderedReserves(m: Memory, pid: nat, n: nat, from: Table, join: Join)
    requires |m.frames| == |m.pages| && Ordered(TableOf(m), pid, n) && Kept(m.frames, pid, n + 1)
    ensures n <= |m.frames| && (Stuck(m, pid) <==> n == |m.frames|)
    ensures MadeRoom(m, pid, from) && FirstFree(from) < |from| && n < |m.frames| ==>
              Reserve(from, pid, join).Loaded? && Ordered(Reserve(from, pid, join).table, pid, n + 1)
  {
    OpenOrdered(TableOf(m), pid, n);
    if n == |m.frames| {
      OwnerOfAllIsStuck(m, pid);
    } else {
      assert TableOf(m)[|m.frames| - 1].pid != pid;
      LastPageIsVictim(m.frames, pid);
      if MadeRoom(m, pid, from) && FirstFree(from) < |from| {
        OrderedMakesRoom(m, pid, n, from);
        OrderedGrows(from, pid, n, join);
      }
    }
  }

  lemma ReserveAfterClaim(from: Table, pid: nat, join: Join)
    requires FirstFree(from) < |from|
    ensures var l := Reserve(from, pid, join); l.Loaded? ==> CountFree(l.table) == CountFree(Claim(from, pid))
  {
    ClaimCounts(from, pid);
    ReserveCounts(from, pid, join);
  }

  /** Eviction trades a slot for a frame. */
  lemma EvictionCounts(t: Table, v: nat, slots: seq<Slot>, s: nat, x: Slot)
    requires v < |t| && !t[v].free && s < |slots| && slots[s].free && !x.free
    ensures FirstFree(Evicted(t, v)) < |t|
    ensures CountFree(Evicted(t, v)) == CountFree(t) + 1 && CountSlots(slots[s := x]) == CountSlots(slots) - 1
  {
    CountUpdate(t, v, t[v].(free := true, pid := 0));
    SlotTaken(slots, s, x);
    assert Evicted(t, v)[v].free;
  }
}
