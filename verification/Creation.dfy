/** create and mkdir as sequences of writes, and what holds after every prefix of them. */
module Creation {
  import opened Volume
  import opened Lookup
  import opened Paths
  import opened Tree
  import opened TreeWrites

  /** A finished or failed operation: the value returned (0 or -1) and the writes issued, in order. */
  datatype Outcome = Outcome(ok: bool, writes: seq<Write>)

  function FreshInode(n: nat, kind: Kind): Inode { Inode(kind, n, seq(NUM_DIRECT, _ => 0)) }

  function FreeSlot(slots: seq<Slot>, k: nat): (r: nat)
    requires k <= |slots|
    ensures k <= r <= |slots|
    ensures r < |slots| ==> !InUse(slots[r])
    ensures forall i :: k <= i < r ==> InUse(slots[i])
    decreases |slots| - k
  {
    if k == |slots| || !InUse(slots[k]) then k else FreeSlot(slots, k + 1)
  }

  ghost predicate HasRoom(v: Store, p: nat) { p == 0 || FreeSlot(SlotsAt(v, p), 0) < SLOTS }

  /** The direct pointer at which updateDir stops: the first that is unused or whose block has room. */
  ghost function Home(v: Store, directp: Direct, i: nat): (r: nat)
    requires i <= NUM_DIRECT
    ensures i <= r <= NUM_DIRECT
    ensures r < NUM_DIRECT ==> HasRoom(v, directp[r])
    ensures forall q :: i <= q < r ==> !HasRoom(v, directp[q])
    decreases |directp| - i
  {
    if i == NUM_DIRECT || HasRoom(v, directp[i]) then i else Home(v, directp, i + 1)
  }

  lemma {:induction false} HomeIs(v: Store, directp: Direct, i: nat, r: nat)
    requires i <= r <= NUM_DIRECT && (r < NUM_DIRECT ==> HasRoom(v, directp[r]))
    requires forall q :: i <= q < r ==> !HasRoom(v, directp[q])
    ensures Home(v, directp, i) == r
    decreases r - i
  {
    if i < r { HomeIs(v, directp, i + 1, r); }
  }

  /** updateDir: put the entry (`name`, `n`) into `dir`, in a new block if there is no room. */
  ghost function EntryWrites(v: Store, dir: nat, parent: nat, name: string, n: nat): Outcome
    requires v.Sized() && dir < INODES
  {
    EntryWritesAt(v, Home(v, v.inodes[dir].directp, 0), dir, parent, name, n)
  }

  ghost function EntryWritesAt(v: Store, i: nat, dir: nat, parent: nat, name: string, n: nat): Outcome
    requires v.Sized() && dir < INODES && i <= NUM_DIRECT
    requires i < NUM_DIRECT ==> HasRoom(v, v.inodes[dir].directp[i])
  {
    var inode := v.inodes[dir];
    if i == NUM_DIRECT then Outcome(false, [])
    else if inode.directp[i] != 0 then
      var slots := SlotsAt(v, inode.directp[i]);
      Outcome(true, [PutDir(DataIndex(inode.directp[i]), slots[FreeSlot(slots, 0) := Slot(n, name)])])
    else NewBlockOutcome(v, inode, i, parent, name, n)
  }

  ghost function NewBlockOutcome(v: Store, inode: Inode, i: nat, parent: nat, name: string, n: nat): Outcome
    requires v.Sized() && i < NUM_DIRECT
  {
    var b := FirstFree(v.dataMap);
    if b == DATA then Outcome(false, [])
    else Outcome(true, NewBlockWrites(v.dirs[b], b, inode, i, parent, name, n))
  }

  /** Mark a data block, prepare it, link it into the directory, and write the entry. */
  function NewBlockWrites(old_: Slots, b: nat, inode: Inode, i: nat, parent: nat, name: string, n: nat): (ws: seq<Write>)
    requires i < NUM_DIRECT
    ensures |ws| == 4
  {
    var slots := FreshSlots(old_, inode.ino, parent);
    assert !InUse(slots[2]);
    [MarkData(b), PutDir(b, slots), PutInode(inode.ino, WithPointer(inode, i, DLIST + b)),
     PutDir(b, slots[FreeSlot(slots, 0) := Slot(n, name)])]
  }

  /** Index of a data block from its pointer. */
  function DataIndex(p: nat): nat { if p < DLIST then 0 else p - DLIST }

  /** reserveFreeInode: mark the inode, then write it. */
  function InodeWrites(n: nat, kind: Kind): seq<Write> { [MarkInode(n), PutInode(n, FreshInode(n, kind))] }

  ghost function WithInode(v: Store, n: nat, kind: Kind): (w: Store)
    requires v.Sized() && n < INODES
    ensures w.Sized()
  {
    Apply(Apply(v, MarkInode(n)), PutInode(n, FreshInode(n, kind)))
  }

  /** reserveFreeInode followed by updateDir. */
  ghost function NodeWrites(v: Store, dir: nat, parent: nat, name: string, kind: Kind): Outcome
    requires v.Sized() && dir < INODES
  {
    var n := FirstFree(v.inodeMap);
    if n == INODES then Outcome(false, []) else After(n, kind, EntryWrites(WithInode(v, n, kind), dir, parent, name, n))
  }

  function After(n: nat, kind: Kind, rest: Outcome): Outcome { Outcome(rest.ok, InodeWrites(n, kind) + rest.writes) }

  // ---------------------------------------------------------------- crash states

  /** `w` has the same dot-free paths as `v`. */
  ghost predicate SamePaths(v: Store, w: Store) {
    forall comps :: DotFree(comps) ==> Resolve(w, 0, comps) == Resolve(v, 0, comps)
  }

  /** `w` is a consistent disk with the same live inodes and paths as `v`: it can only have leaks. */
  ghost predicate OnlyLeaks(v: Store, w: Store, live: set<nat>) {
    TreeOk(w, live) && SamePaths(v, w)
  }

  lemma SameTreeOnlyLeaks(v: Store, w: Store, live: set<nat>)
    requires TreeOk(v, live) && SameTree(v, w, live)
    ensures OnlyLeaks(v, w, live)
  {
    SameTreeOk(v, w, live);
    forall comps | DotFree(comps) ensures Resolve(w, 0, comps) == Resolve(v, 0, comps) {
      SameResolve(v, w, live, 0, comps);
    }
  }

  lemma ApplyOneMore(v: Store, ws: seq<Write>, k: nat)
    requires v.Sized() && AllInRegion(ws) && k < |ws|
    ensures ApplyAll(v, ws[..k + 1]) == Apply(ApplyAll(v, ws[..k]), ws[k])
  {
    assert ws[..k + 1][..k] == ws[..k];
  }

  /** Marking and writing the new inode: neither write touches the tree. */
  lemma InodeReserved(v: Store, live: set<nat>, kind: Kind)
    requires TreeOk(v, live) && FirstFree(v.inodeMap) < INODES
    ensures var n := FirstFree(v.inodeMap);
            var v1 := Apply(v, MarkInode(n)); var v2 := Apply(v1, PutInode(n, FreshInode(n, kind)));
            && n != 0 && n !in live
            && SameTree(v, v1, live) && SameTree(v, v2, live) && ReadyInode(v2, live, n)
  {
    assert Obeys(v, live, Inodes) && Obeys(v, live, Pointers);
    var n := FirstFree(v.inodeMap);
    forall m | m in live ensures m < n { assert v.inodeMap[m]; }
  }

  lemma HomeIsNext(v: Store, live: set<nat>, dir: nat)
    requires TreeOk(v, live) && dir in live
    ensures var i := Home(v, v.inodes[dir].directp, 0);
            && (i < NUM_DIRECT ==> FullBefore(v, dir, i))
            && (i < NUM_DIRECT && Ptr(v, dir, i) != 0 ==> NextSlot(v, dir, i, FreeSlot(SlotsAt(v, Ptr(v, dir, i)), 0)))
  {
    var directp := v.inodes[dir].directp;
    var i := Home(v, directp, 0);
    if i < NUM_DIRECT {
      forall q: nat | q < i ensures Ptr(v, dir, q) != 0 { assert !HasRoom(v, directp[q]); }
      forall q: nat, k: nat | q < i && k < SLOTS ensures InUse(SlotOf(v, dir, q, k)) { assert !HasRoom(v, directp[q]); }
    }
  }

  /** Marking and preparing a directory block: neither write touches the tree. */
  lemma BlockReserved(v: Store, live: set<nat>, dir: nat, parent: nat)
    requires v.Sized() && InodesOk(v, live) && PointersOk(v, live) && FirstFree(v.dataMap) < DATA
    ensures var b := FirstFree(v.dataMap); var v1 := Apply(v, MarkData(b));
            var v2 := Apply(v1, PutDir(b, FreshSlots(v.dirs[b], dir, parent)));
            SameTree(v, v1, live) && SameTree(v, v2, live) && ReadyBlock(v2, live, b, v.dirs[b], dir, parent)
  {
    var b := FirstFree(v.dataMap);
    var v1 := Apply(v, MarkData(b));
    var v2 := Apply(v1, PutDir(b, FreshSlots(v.dirs[b], dir, parent)));
    assert forall n: nat, q: nat :: n in live ==> Ptr(v, n, q) != DLIST + b;
    assert forall n: nat, q: nat :: Ptr(v2, n, q) == Ptr(v, n, q);
  }

  lemma LinkedNext(v: Store, live: set<nat>, dir: nat, i: nat, b: nat, old_: Slots, parent: nat)
    requires v.Sized() && InodesOk(v, live) && PointersOk(v, live) && dir in live
    requires i < NUM_DIRECT && Ptr(v, dir, i) == 0 && FullBefore(v, dir, i)
    requires ReadyBlock(v, live, b, old_, dir, parent)
    ensures var w := Apply(v, PutInode(dir, WithPointer(v.inodes[dir], i, DLIST + b)));
            Ptr(w, dir, i) == DLIST + b && NextSlot(w, dir, i, FreeSlot(FreshSlots(old_, dir, parent), 0))
  {
    var w := Apply(v, PutInode(dir, WithPointer(v.inodes[dir], i, DLIST + b)));
    var slots := FreshSlots(old_, dir, parent);
    LinkShape(v, live, dir, i, b, old_, parent);
    assert !InUse(slots[2]);
    assert forall k: nat :: k < SLOTS ==> SlotOf(w, dir, i, k) == slots[k];
  }

  /** Linking the prepared block. */
  lemma LinkedOnlyLeaks(v: Store, live: set<nat>, dir: nat, i: nat, b: nat, old_: Slots, parent: nat)
    requires TreeOk(v, live) && dir in live && ParentOk(v, live, dir, parent)
    requires i < NUM_DIRECT && Ptr(v, dir, i) == 0 && FullBefore(v, dir, i)
    requires ReadyBlock(v, live, b, old_, dir, parent)
    ensures OnlyLeaks(v, Apply(v, PutInode(dir, WithPointer(v.inodes[dir], i, DLIST + b))), live)
  {
    var w := Apply(v, PutInode(dir, WithPointer(v.inodes[dir], i, DLIST + b)));
    LinkTreeOk(v, live, dir, i, b, old_, parent);
    forall comps | DotFree(comps) ensures Resolve(w, 0, comps) == Resolve(v, 0, comps) {
      LinkResolve(v, live, dir, i, b, old_, parent, 0, comps);
    }
  }

  /** `w` is `v` with one more entry: the new path leads to `n` if it led nowhere before, and every
      other dot-free path leads where it did. */
  ghost predicate Added(v: Store, w: Store, live: set<nat>, dir: nat, n: nat, name: string) {
    && TreeOk(w, live + {n})
    && (forall comps :: DotFree(comps) ==>
          Resolve(w, 0, comps) == if NewPath(v, 0, comps, dir, name) then Some(n) else Resolve(v, 0, comps))
  }

  lemma SameNewPath(v: Store, u: Store, comps: seq<string>, dir: nat, name: string)
    requires SamePaths(v, u) && DotFree(comps)
    ensures NewPath(u, 0, comps, dir, name) == NewPath(v, 0, comps, dir, name)
  {
    if comps != [] && comps[|comps| - 1] == name {
      assert comps == Front(comps) + [name];
      ResolveSplit(v, 0, Front(comps), [name]);
      ResolveSplit(u, 0, Front(comps), [name]);
      assert [name][1..] == [];
    }
  }

  lemma AddedAfter(v: Store, u: Store, live: set<nat>, dir: nat, i: nat, j: nat, n: nat, name: string)
    requires OnlyLeaks(v, u, live) && dir in live && NextSlot(u, dir, i, j) && ReadyInode(u, live, n)
    requires !IsDot(name) && |name| < MAX_FNAME
    ensures Added(v, AddEntry(u, dir, i, j, n, name), live, dir, n, name)
  {
    AddTreeOk(u, live, dir, i, j, n, name);
    forall comps | DotFree(comps)
      ensures Resolve(AddEntry(u, dir, i, j, n, name), 0, comps)
           == if NewPath(v, 0, comps, dir, name) then Some(n) else Resolve(v, 0, comps)
    {
      AddResolve(u, live, dir, i, j, n, name, 0, comps);
      SameNewPath(v, u, comps, dir, name);
    }
  }

  lemma StillReady(v: Store, w: Store, live: set<nat>, n: nat)
    requires ReadyInode(v, live, n) && w.inodeMap == v.inodeMap && |w.inodes| == |v.inodes| && w.inodes[n] == v.inodes[n]
    ensures ReadyInode(w, live, n)
  {
    assert forall q: nat :: Ptr(w, n, q) == Ptr(v, n, q);
  }

  /** The first three states of an update that needs a new directory block. */
  lemma NewBlockLinked(v: Store, live: set<nat>, dir: nat, parent: nat, i: nat, b: nat, v3: Store)
    requires TreeOk(v, live) && dir in live && ParentOk(v, live, dir, parent)
    requires i < NUM_DIRECT && Ptr(v, dir, i) == 0 && FullBefore(v, dir, i) && b == FirstFree(v.dataMap) < DATA
    requires var v2 := Apply(Apply(v, MarkData(b)), PutDir(b, FreshSlots(v.dirs[b], dir, parent)));
             v3 == Apply(v2, PutInode(dir, WithPointer(v.inodes[dir], i, DLIST + b)))
    ensures var v1 := Apply(v, MarkData(b)); var v2 := Apply(v1, PutDir(b, FreshSlots(v.dirs[b], dir, parent)));
            && OnlyLeaks(v, v1, live) && OnlyLeaks(v, v2, live) && OnlyLeaks(v, v3, live)
            && NextSlot(v3, dir, i, FreeSlot(FreshSlots(v.dirs[b], dir, parent), 0))
  {
    var v1 := Apply(v, MarkData(b));
    var v2 := Apply(v1, PutDir(b, FreshSlots(v.dirs[b], dir, parent)));
    assert Obeys(v, live, Inodes) && Obeys(v, live, Pointers);
    BlockReserved(v, live, dir, parent);
    SameTreeOnlyLeaks(v, v1, live);
    SameTreeOnlyLeaks(v, v2, live);
    SameStoreParent(v, v2, live, dir, parent, i);
    LinkedOnlyLeaks(v2, live, dir, i, b, v.dirs[b], parent);
    assert Obeys(v2, live, Inodes) && Obeys(v2, live, Pointers);
    LinkedNext(v2, live, dir, i, b, v.dirs[b], parent);
  }

  /** The four states of an update that needs a new directory block. */
  lemma NewBlockSteps(v: Store, live: set<nat>, dir: nat, parent: nat, name: string, n: nat, i: nat, b: nat)
    requires TreeOk(v, live) && dir in live && ParentOk(v, live, dir, parent) && ReadyInode(v, live, n)
    requires !IsDot(name) && |name| < MAX_FNAME
    requires i < NUM_DIRECT && Ptr(v, dir, i) == 0 && FullBefore(v, dir, i) && b == FirstFree(v.dataMap) < DATA
    ensures var slots := FreshSlots(v.dirs[b], dir, parent); var j := FreeSlot(slots, 0);
            var v1 := Apply(v, MarkData(b)); var v2 := Apply(v1, PutDir(b, slots));
            var v3 := Apply(v2, PutInode(dir, WithPointer(v.inodes[dir], i, DLIST + b)));
            && OnlyLeaks(v, v1, live) && OnlyLeaks(v, v2, live) && OnlyLeaks(v, v3, live) && j < SLOTS
            && Added(v, Apply(v3, PutDir(b, slots[j := Slot(n, name)])), live, dir, n, name)
  {
    var slots := FreshSlots(v.dirs[b], dir, parent);
    var j := FreeSlot(slots, 0);
    var v2 := Apply(Apply(v, MarkData(b)), PutDir(b, slots));
    var v3 := Apply(v2, PutInode(dir, WithPointer(v.inodes[dir], i, DLIST + b)));
    NewBlockLinked(v, live, dir, parent, i, b, v3);
    assert dir < INODES by { assert Obeys(v, live, Inodes); }
    StillReady(v, v3, live, n);
    assert SlotsAt(v3, DLIST + b) == slots;
    AddedAfter(v, v3, live, dir, i, j, n, name);
  }

  lemma SameStoreParent(v: Store, w: Store, live: set<nat>, dir: nat, parent: nat, i: nat)
    requires TreeOk(v, live) && SameTree(v, w, live) && dir in live && ParentOk(v, live, dir, parent)
            && FullBefore(v, dir, i)
    ensures ParentOk(w, live, dir, parent) && FullBefore(w, dir, i) && Ptr(w, dir, i) == Ptr(v, dir, i)
  {
    assert Obeys(v, live, Inodes) && Obeys(v, live, Pointers);
    SamePointers(v, w, live);
    SameParents(v, w, live);
  }

  lemma FourWrites(v: Store, ws: seq<Write>)
    requires v.Sized() && |ws| == 4 && AllInRegion(ws)
    ensures ApplyAll(v, ws[..0]) == v
    ensures ApplyAll(v, ws[..1]) == Apply(v, ws[0])
    ensures ApplyAll(v, ws[..2]) == Apply(Apply(v, ws[0]), ws[1])
    ensures ApplyAll(v, ws[..3]) == Apply(Apply(Apply(v, ws[0]), ws[1]), ws[2])
    ensures ApplyAll(v, ws) == Apply(Apply(Apply(Apply(v, ws[0]), ws[1]), ws[2]), ws[3])
  {
    ApplyOneMore(v, ws, 0); ApplyOneMore(v, ws, 1); ApplyOneMore(v, ws, 2); ApplyOneMore(v, ws, 3);
    assert ws[..4] == ws;
  }

  lemma OneWrite(v: Store, ws: seq<Write>)
    requires v.Sized() && |ws| == 1 && AllInRegion(ws)
    ensures ApplyAll(v, ws[..0]) == v && ApplyAll(v, ws) == Apply(v, ws[0])
  {
    ApplyOneMore(v, ws, 0);
    assert ws[..1] == ws;
  }

  /** After every proper prefix of the writes the paths are as before; after all of them, if the
      operation succeeds, the entry is there. */
  ghost predicate CrashSafe(v: Store, o: Outcome, live: set<nat>, dir: nat, n: nat, name: string)
    requires v.Sized()
  {
    && AllInRegion(o.writes)
    && (forall k :: 0 <= k <= |o.writes| && (o.ok ==> k < |o.writes|) ==> OnlyLeaks(v, ApplyAll(v, o.writes[..k]), live))
    && (o.ok ==> o.writes != [] && Added(v, ApplyAll(v, o.writes), live, dir, n, name))
  }

  lemma FourSafe(v: Store, ws: seq<Write>, live: set<nat>, dir: nat, n: nat, name: string)
    requires TreeOk(v, live) && |ws| == 4 && AllInRegion(ws)
    requires OnlyLeaks(v, Apply(v, ws[0]), live)
    requires OnlyLeaks(v, Apply(Apply(v, ws[0]), ws[1]), live)
    requires OnlyLeaks(v, Apply(Apply(Apply(v, ws[0]), ws[1]), ws[2]), live)
    requires Added(v, Apply(Apply(Apply(Apply(v, ws[0]), ws[1]), ws[2]), ws[3]), live, dir, n, name)
    ensures CrashSafe(v, Outcome(true, ws), live, dir, n, name)
  {
    FourWrites(v, ws);
    forall k | 0 <= k < 4 ensures OnlyLeaks(v, ApplyAll(v, ws[..k]), live) {
      if k == 0 {} else if k == 1 {} else if k == 2 {} else { assert k == 3; }
    }
  }

  lemma NewBlockInRegion(slots: Slots, b: nat, inode: Inode, i: nat, parent: nat, name: string, n: nat)
    requires b < DATA && inode.ino < INODES && i < NUM_DIRECT
    ensures AllInRegion(NewBlockWrites(slots, b, inode, i, parent, name, n))
  {
  }

  lemma NewBlockCrash(v: Store, live: set<nat>, dir: nat, parent: nat, name: string, n: nat, i: nat, ws: seq<Write>)
    requires TreeOk(v, live) && dir in live && ParentOk(v, live, dir, parent) && ReadyInode(v, live, n)
    requires !IsDot(name) && |name| < MAX_FNAME && FirstFree(v.dataMap) < DATA
    requires i < NUM_DIRECT && Ptr(v, dir, i) == 0 && FullBefore(v, dir, i)
    requires var b := FirstFree(v.dataMap); ws == NewBlockWrites(v.dirs[b], b, v.inodes[dir], i, parent, name, n)
    ensures CrashSafe(v, Outcome(true, ws), live, dir, n, name)
  {
    var b := FirstFree(v.dataMap);
    assert v.inodes[dir].ino == dir < INODES by { assert Obeys(v, live, Inodes); }
    NewBlockSteps(v, live, dir, parent, name, n, i, b);
    assert AllInRegion(ws) by { NewBlockInRegion(v.dirs[b], b, v.inodes[dir], i, parent, name, n); }
    FourSafe(v, ws, live, dir, n, name);
  }

  lemma RoomCrash(v: Store, live: set<nat>, dir: nat, name: string, n: nat, i: nat, j: nat)
    requires TreeOk(v, live) && dir in live && ReadyInode(v, live, n)
    requires !IsDot(name) && |name| < MAX_FNAME && NextSlot(v, dir, i, j)
    ensures CrashSafe(v, Outcome(true, [PutDir(DataIndex(Ptr(v, dir, i)), SlotsAt(v, Ptr(v, dir, i))[j := Slot(n, name)])]),
                      live, dir, n, name)
  {
    AddedAfter(v, v, live, dir, i, j, n, name);
    assert Obeys(v, live, Pointers);
    OneWrite(v, [PutDir(DataIndex(Ptr(v, dir, i)), SlotsAt(v, Ptr(v, dir, i))[j := Slot(n, name)])]);
  }

  /** updateDir, in all its cases. */
  lemma EntryCrash(v: Store, live: set<nat>, dir: nat, parent: nat, name: string, n: nat)
    requires TreeOk(v, live) && dir in live && ParentOk(v, live, dir, parent) && ReadyInode(v, live, n)
    requires !IsDot(name) && |name| < MAX_FNAME
    ensures CrashSafe(v, EntryWrites(v, dir, parent, name, n), live, dir, n, name)
  {
    var directp := v.inodes[dir].directp;
    var i := Home(v, directp, 0);
    HomeIsNext(v, live, dir);
    if i < NUM_DIRECT && directp[i] != 0 {
      RoomCrash(v, live, dir, name, n, i, FreeSlot(SlotsAt(v, directp[i]), 0));
    } else if i < NUM_DIRECT && FirstFree(v.dataMap) < DATA {
      NewBlockCrash(v, live, dir, parent, name, n, i, EntryWrites(v, dir, parent, name, n).writes);
    }
  }

  lemma {:induction false} ApplyConcat(v: Store, a: seq<Write>, b: seq<Write>)
    requires v.Sized() && AllInRegion(a) && AllInRegion(b)
    ensures AllInRegion(a + b) && ApplyAll(v, a + b) == ApplyAll(ApplyAll(v, a), b)
    decreases |b|
  {
    if b == [] {
      assert a + b == a;
    } else {
      ApplyConcat(v, a, b[..|b| - 1]);
      assert (a + b)[..|a + b| - 1] == a + b[..|b| - 1];
    }
  }

  lemma AddedFrom(v: Store, u: Store, w: Store, live: set<nat>, dir: nat, n: nat, name: string)
    requires SamePaths(v, u) && Added(u, w, live, dir, n, name)
    ensures Added(v, w, live, dir, n, name)
  {
    forall comps | DotFree(comps)
      ensures Resolve(w, 0, comps) == if NewPath(v, 0, comps, dir, name) then Some(n) else Resolve(v, 0, comps)
    {
      SameNewPath(v, u, comps, dir, name);
    }
  }

  /** Writes that only leak, followed by writes that are crash-safe. */
  lemma SafeAfterLeaks(v: Store, a: seq<Write>, b: Outcome, live: set<nat>, dir: nat, n: nat, name: string)
    requires v.Sized() && AllInRegion(a)
    requires forall k :: 0 <= k <= |a| ==> OnlyLeaks(v, ApplyAll(v, a[..k]), live)
    requires CrashSafe(ApplyAll(v, a), b, live, dir, n, name)
    ensures CrashSafe(v, Outcome(b.ok, a + b.writes), live, dir, n, name)
  {
    var u := ApplyAll(v, a);
    var ws := a + b.writes;
    assert a[..|a|] == a;
    ApplyConcat(v, a, b.writes);
    if b.ok { AddedFrom(v, u, ApplyAll(v, ws), live, dir, n, name); }
    forall k | 0 <= k <= |ws| && (b.ok ==> k < |ws|) ensures OnlyLeaks(v, ApplyAll(v, ws[..k]), live) {
      if k <= |a| { assert ws[..k] == a[..k]; }
      else {
        var j := k - |a|;
        assert ws[..k] == a + b.writes[..j];
        ApplyConcat(v, a, b.writes[..j]);
        assert OnlyLeaks(u, ApplyAll(u, b.writes[..j]), live);
      }
    }
  }

  lemma InodeWritesApply(v: Store, n: nat, kind: Kind)
    requires v.Sized() && n < INODES
    ensures var a := InodeWrites(n, kind);
            && AllInRegion(a) && ApplyAll(v, a[..0]) == v && ApplyAll(v, a[..1]) == Apply(v, MarkInode(n))
            && ApplyAll(v, a) == WithInode(v, n, kind)
  {
    var a := InodeWrites(n, kind);
    ApplyOneMore(v, a, 0);
    ApplyOneMore(v, a, 1);
    assert a[..2] == a;
  }

  lemma InodeLeaks(v: Store, live: set<nat>, n: nat, kind: Kind)
    requires TreeOk(v, live) && n == FirstFree(v.inodeMap) < INODES
    ensures var a := InodeWrites(n, kind);
            && AllInRegion(a) && ApplyAll(v, a) == WithInode(v, n, kind)
            && (forall k :: 0 <= k <= |a| ==> OnlyLeaks(v, ApplyAll(v, a[..k]), live))
            && SameTree(v, WithInode(v, n, kind), live) && ReadyInode(WithInode(v, n, kind), live, n)
  {
    var a := InodeWrites(n, kind);
    InodeWritesApply(v, n, kind);
    InodeReserved(v, live, kind);
    SameTreeOnlyLeaks(v, Apply(v, MarkInode(n)), live);
    SameTreeOnlyLeaks(v, WithInode(v, n, kind), live);
    assert a[..2] == a;
    forall k | 0 <= k <= |a| ensures OnlyLeaks(v, ApplyAll(v, a[..k]), live) {
      if k == 0 {} else if k == 1 {} else { assert k == 2; }
    }
  }

  /** create and mkdir in a directory that was found: crash-safe at every write. */
  lemma NodeCrash(v: Store, live: set<nat>, dir: nat, parent: nat, name: string, kind: Kind)
    requires TreeOk(v, live) && dir in live && ParentOk(v, live, dir, parent)
    requires !IsDot(name) && |name| < MAX_FNAME
    ensures CrashSafe(v, NodeWrites(v, dir, parent, name, kind), live, dir, FirstFree(v.inodeMap), name)
  {
    var n := FirstFree(v.inodeMap);
    if n < INODES {
      var u := WithInode(v, n, kind);
      InodeLeaks(v, live, n, kind);
      SameTreeOk(v, u, live);
      SameStoreParent(v, u, live, dir, parent, 0);
      EntryCrash(u, live, dir, parent, name, n);
      SafeAfterLeaks(v, InodeWrites(n, kind), EntryWrites(u, dir, parent, name, n), live, dir, n, name);
    }
  }
}
