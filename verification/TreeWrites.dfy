/** How the writes of create and mkdir affect the tree, one write at a time. */
module TreeWrites {
  import opened Volume
  import opened Lookup
  import opened Tree

  // ---------------------------------------------------------------- writes outside the tree

  /** `w` has the live inodes and their blocks of `v`; its maps have only gained marks. */
  ghost predicate SameTree(v: Store, w: Store, live: set<nat>) {
    && v.Sized() && w.Sized()
    && (forall n :: n in live && n < INODES ==> w.inodes[n] == v.inodes[n])
    && (forall n: nat, q: nat :: n in live && Ptr(v, n, q) != 0 ==> SlotsAt(w, Ptr(v, n, q)) == SlotsAt(v, Ptr(v, n, q)))
    && MapsGrow(v, w)
  }

  ghost predicate MapsGrow(v: Store, w: Store) {
    && v.Sized() && w.Sized()
    && (forall i :: 0 <= i < INODES && v.inodeMap[i] ==> w.inodeMap[i])
    && (forall a, b :: 0 <= a < b < INODES && w.inodeMap[b] ==> w.inodeMap[a])
    && (forall i :: 0 <= i < DATA && v.dataMap[i] ==> w.dataMap[i])
  }

  /** The live directories of `v` and `w` show the same pointers and slots. */
  ghost predicate SameSlots(v: Store, w: Store, live: set<nat>) {
    && (forall n: nat, q: nat :: n in live ==> Ptr(w, n, q) == Ptr(v, n, q))
    && (forall n: nat, q: nat, k: nat :: n in live ==> SlotOf(w, n, q, k) == SlotOf(v, n, q, k))
  }

  /** The live directories of `v` and `w` have the same ordinary entries. */
  ghost predicate SameEntries(v: Store, w: Store, live: set<nat>) {
    forall n: nat, q: nat, k: nat, c: nat :: n in live ==> EntryFor(w, n, q, k, c) == EntryFor(v, n, q, k, c)
  }

  lemma SameParents(v: Store, w: Store, live: set<nat>)
    requires SameEntries(v, w, live)
    ensures forall n: nat, c: nat :: n in live ==> IsParent(w, n, c) == IsParent(v, n, c)
  {}

  lemma SameEntryFacts(v: Store, w: Store, live: set<nat>)
    requires SameEntries(v, w, live) && Upward(v, live) && OneEntry(v, live) && Linked(v, live)
    ensures Upward(w, live) && OneEntry(w, live) && Linked(w, live)
  {
    SameParents(v, w, live);
    forall n: nat, q: nat, k: nat | n in live && Entry(w, n, q, k) ensures n < SlotOf(w, n, q, k).inum {
      assert EntryFor(v, n, q, k, SlotOf(w, n, q, k).inum);
    }
  }

  lemma SamePacked(v: Store, w: Store, live: set<nat>)
    requires SameSlots(v, w, live) && Packed(v, live) && SlotsLive(v, live)
    ensures Packed(w, live) && SlotsLive(w, live)
  {}

  lemma SameDots(v: Store, w: Store, live: set<nat>)
    requires SameSlots(v, w, live) && SameEntries(v, w, live) && SelfOk(v, live) && DotDotOk(v, live)
            && SlotsLive(v, live)
    ensures SelfOk(w, live) && DotDotOk(w, live)
  {
    SameParents(v, w, live);
  }

  lemma AllRules(v: Store, live: set<nat>)
    requires TreeOk(v, live)
    ensures InodesOk(v, live) && PointersOk(v, live) && Packed(v, live) && SelfOk(v, live) && DotDotOk(v, live)
    ensures SlotsLive(v, live) && Upward(v, live) && OneEntry(v, live) && Linked(v, live)
  {
    assert Obeys(v, live, Inodes) && Obeys(v, live, Pointers) && Obeys(v, live, Packing) && Obeys(v, live, Self);
    assert Obeys(v, live, DotDot) && Obeys(v, live, LiveSlots) && Obeys(v, live, UpwardEntries);
    assert Obeys(v, live, SingleEntry) && Obeys(v, live, LinkedInodes);
  }

  lemma SamePointers(v: Store, w: Store, live: set<nat>)
    requires SameTree(v, w, live) && InodesOk(v, live) && PointersOk(v, live)
    ensures InodesOk(w, live) && PointersOk(w, live) && SameSlots(v, w, live)
  {
    assert forall n: nat, q: nat :: n in live ==> Ptr(w, n, q) == Ptr(v, n, q);
  }

  lemma SameTreeOk(v: Store, w: Store, live: set<nat>)
    requires TreeOk(v, live) && SameTree(v, w, live)
    ensures TreeOk(w, live)
  {
    AllRules(v, live);
    SamePointers(v, w, live);
    SamePacked(v, w, live);
    SameDots(v, w, live);
    SameEntryFacts(v, w, live);
  }

  lemma {:induction false} SameFind(v: Store, w: Store, directp: Direct, name: string, q: nat)
    requires q <= NUM_DIRECT
    requires forall r :: q <= r < NUM_DIRECT && directp[r] != 0 ==> SlotsAt(w, directp[r]) == SlotsAt(v, directp[r])
    ensures Find(w, directp, name, q) == Find(v, directp, name, q)
    decreases |directp| - q
  {
    if q < NUM_DIRECT { SameFind(v, w, directp, name, q + 1); }
  }

  lemma {:induction false} SameResolve(v: Store, w: Store, live: set<nat>, cur: nat, comps: seq<string>)
    requires TreeOk(v, live) && SameTree(v, w, live) && cur in live
    ensures Resolve(w, cur, comps) == Resolve(v, cur, comps)
    decreases |comps|
  {
    if comps != [] {
      var directp := v.inodes[cur].directp;
      forall r | 0 <= r < NUM_DIRECT && directp[r] != 0
        ensures SlotsAt(w, directp[r]) == SlotsAt(v, directp[r])
      { assert directp[r] == Ptr(v, cur, r); }
      SameFind(v, w, directp, comps[0], 0);
      if LookupIn(v, cur, comps[0]).Some? {
        LookupStaysLive(v, live, cur, comps[0]);
        SameResolve(v, w, live, LookupIn(v, cur, comps[0]).value, comps[1..]);
      }
    }
  }

  // ---------------------------------------------------------------- linking a new directory block

  /** The content initDir gives a block: "." and, unless the directory is its own parent, "..";
      all other slots unused, with whatever names they held. */
  function FreshSlot(old_: Slots, self: nat, parent: nat, k: int): Slot {
    if k == 0 then Slot(self, ".")
    else if k == 1 && self != parent then Slot(parent, "..")
    else if 0 <= k < SLOTS then Slot(INUM_FREE, old_[k].name)
    else Slot(INUM_FREE, "")
  }

  function FreshSlots(old_: Slots, self: nat, parent: nat): (r: Slots)
    ensures r[0] == Slot(self, ".")
    ensures self != parent ==> r[1] == Slot(parent, "..")
    ensures forall k :: 1 <= k < SLOTS && (k == 1 ==> self == parent) ==> !InUse(r[k])
  {
    seq(SLOTS, k => FreshSlot(old_, self, parent, k))
  }

  /** `parent` is what navPath returns beside directory `dir`. */
  ghost predicate ParentOk(v: Store, live: set<nat>, dir: nat, parent: nat) {
    if dir == 0 then parent == 0 else parent in live && parent < dir && IsParent(v, parent, dir)
  }

  /** Every block of `dir` before pointer `i` is full. */
  ghost predicate FullBefore(v: Store, dir: nat, i: nat) {
    && (forall q: nat :: q < i ==> Ptr(v, dir, q) != 0)
    && (forall q: nat, k: nat :: q < i && k < SLOTS ==> InUse(SlotOf(v, dir, q, k)))
  }

  /** Block `b` is marked, prepared by initDir, and in nobody's directory yet. */
  ghost predicate ReadyBlock(v: Store, live: set<nat>, b: nat, old_: Slots, dir: nat, parent: nat) {
    && b < |v.dirs| && b < |v.dataMap| && v.dataMap[b]
    && v.dirs[b] == FreshSlots(old_, dir, parent)
    && (forall n: nat, q: nat :: n in live ==> Ptr(v, n, q) != DLIST + b)
  }

  function WithPointer(inode: Inode, i: nat, p: nat): Inode
    requires i < NUM_DIRECT
  {
    inode.(directp := inode.directp[i := p])
  }

  /** The pointers and slots after linking block `b` as pointer `i` of `dir`. */
  ghost predicate Linking(v: Store, w: Store, live: set<nat>, dir: nat, i: nat, b: nat, fresh_: Slots) {
    && (forall n: nat, q: nat :: n in live ==> Ptr(w, n, q) == if n == dir && q == i then DLIST + b else Ptr(v, n, q))
    && (forall n: nat, q: nat, k: nat :: n in live ==>
          SlotOf(w, n, q, k) == if n == dir && q == i && k < SLOTS then fresh_[k] else SlotOf(v, n, q, k))
  }

  lemma LinkPointers(v: Store, w: Store, live: set<nat>, dir: nat, i: nat, b: nat)
    requires v.Sized() && dir in live && dir < INODES && i < NUM_DIRECT && b < DATA
    requires w == Apply(v, PutInode(dir, WithPointer(v.inodes[dir], i, DLIST + b)))
    ensures forall n: nat, q: nat :: n in live ==> Ptr(w, n, q) == if n == dir && q == i then DLIST + b else Ptr(v, n, q)
  {}

  lemma LinkPointersOk(v: Store, w: Store, live: set<nat>, dir: nat, i: nat, b: nat, old_: Slots, parent: nat)
    requires v.Sized() && InodesOk(v, live) && PointersOk(v, live)
    requires dir in live && i < NUM_DIRECT && Ptr(v, dir, i) == 0 && ReadyBlock(v, live, b, old_, dir, parent)
    requires w == Apply(v, PutInode(dir, WithPointer(v.inodes[dir], i, DLIST + b)))
    requires forall n: nat, q: nat :: n in live ==> Ptr(w, n, q) == if n == dir && q == i then DLIST + b else Ptr(v, n, q)
    ensures InodesOk(w, live) && PointersOk(w, live)
  {}

  lemma LinkShape(v: Store, live: set<nat>, dir: nat, i: nat, b: nat, old_: Slots, parent: nat)
    requires v.Sized() && InodesOk(v, live) && PointersOk(v, live)
    requires dir in live && i < NUM_DIRECT && Ptr(v, dir, i) == 0 && ReadyBlock(v, live, b, old_, dir, parent)
    ensures var w := Apply(v, PutInode(dir, WithPointer(v.inodes[dir], i, DLIST + b)));
            Linking(v, w, live, dir, i, b, FreshSlots(old_, dir, parent)) && InodesOk(w, live) && PointersOk(w, live)
  {
    var w := Apply(v, PutInode(dir, WithPointer(v.inodes[dir], i, DLIST + b)));
    LinkPointers(v, w, live, dir, i, b);
    LinkPointersOk(v, w, live, dir, i, b, old_, parent);
  }

  lemma LinkEntries(v: Store, w: Store, live: set<nat>, dir: nat, i: nat, b: nat, old_: Slots, parent: nat)
    requires Linking(v, w, live, dir, i, b, FreshSlots(old_, dir, parent)) && Ptr(v, dir, i) == 0
    ensures SameEntries(v, w, live)
  {}

  lemma LinkPacked(v: Store, w: Store, live: set<nat>, dir: nat, i: nat, b: nat, old_: Slots, parent: nat)
    requires Linking(v, w, live, dir, i, b, FreshSlots(old_, dir, parent)) && Ptr(v, dir, i) == 0
    requires Packed(v, live) && FullBefore(v, dir, i) && dir < INODES
    ensures Packed(w, live)
  {}

  lemma LinkSelf(v: Store, w: Store, live: set<nat>, dir: nat, i: nat, b: nat, old_: Slots, parent: nat)
    requires Linking(v, w, live, dir, i, b, FreshSlots(old_, dir, parent)) && ParentOk(v, live, dir, parent)
    requires SelfOk(v, live)
    ensures SelfOk(w, live)
  {}

  lemma LinkDotDot(v: Store, w: Store, live: set<nat>, dir: nat, i: nat, b: nat, old_: Slots, parent: nat)
    requires Linking(v, w, live, dir, i, b, FreshSlots(old_, dir, parent)) && SameEntries(v, w, live)
    requires dir in live && dir < INODES && ParentOk(v, live, dir, parent) && SlotsLive(v, live) && DotDotOk(v, live)
    ensures DotDotOk(w, live)
  {
    SameParents(v, w, live);
    assert SlotOf(w, dir, i, 1) == FreshSlots(old_, dir, parent)[1];
  }

  lemma LinkSlots(v: Store, w: Store, live: set<nat>, dir: nat, i: nat, b: nat, old_: Slots, parent: nat)
    requires Linking(v, w, live, dir, i, b, FreshSlots(old_, dir, parent))
    requires dir in live && parent in live && SlotsLive(v, live)
    ensures SlotsLive(w, live)
  {}

  lemma LinkTreeOk(v: Store, live: set<nat>, dir: nat, i: nat, b: nat, old_: Slots, parent: nat)
    requires TreeOk(v, live) && dir in live && ParentOk(v, live, dir, parent)
    requires i < NUM_DIRECT && Ptr(v, dir, i) == 0 && FullBefore(v, dir, i)
    requires ReadyBlock(v, live, b, old_, dir, parent)
    ensures var w := Apply(v, PutInode(dir, WithPointer(v.inodes[dir], i, DLIST + b)));
            TreeOk(w, live) && SameEntries(v, w, live)
  {
    var w := Apply(v, PutInode(dir, WithPointer(v.inodes[dir], i, DLIST + b)));
    AllRules(v, live);
    LinkShape(v, live, dir, i, b, old_, parent);
    LinkEntries(v, w, live, dir, i, b, old_, parent);
    LinkPacked(v, w, live, dir, i, b, old_, parent);
    LinkSelf(v, w, live, dir, i, b, old_, parent);
    LinkDotDot(v, w, live, dir, i, b, old_, parent);
    LinkSlots(v, w, live, dir, i, b, old_, parent);
    SameEntryFacts(v, w, live);
  }

  lemma {:induction false} LinkFind(v: Store, directp: Direct, i: nat, p: nat, name: string, q: nat)
    requires i < NUM_DIRECT && q <= NUM_DIRECT && !IsDot(name)
    requires forall r :: i <= r < NUM_DIRECT ==> directp[r] == 0
    requires FindSlot(SlotsAt(v, p), name, 0) == SLOTS
    ensures Find(v, directp[i := p], name, q) == Find(v, directp, name, q)
    decreases |directp| - q
  {
    if q < NUM_DIRECT { LinkFind(v, directp, i, p, name, q + 1); }
  }

  lemma LinkLookup(v: Store, live: set<nat>, dir: nat, i: nat, b: nat, old_: Slots, parent: nat, n: nat, name: string)
    requires TreeOk(v, live) && dir in live && n in live && i < NUM_DIRECT && Ptr(v, dir, i) == 0
    requires ReadyBlock(v, live, b, old_, dir, parent) && !IsDot(name)
    ensures LookupIn(Apply(v, PutInode(dir, WithPointer(v.inodes[dir], i, DLIST + b))), n, name) == LookupIn(v, n, name)
  {
    assert Obeys(v, live, Packing);
    var w := Apply(v, PutInode(dir, WithPointer(v.inodes[dir], i, DLIST + b)));
    SameFind(v, w, w.inodes[n].directp, name, 0);
    if n == dir {
      forall r | i <= r < NUM_DIRECT ensures v.inodes[dir].directp[r] == 0 { assert Ptr(v, dir, r) == 0; }
      assert SlotsAt(v, DLIST + b) == FreshSlots(old_, dir, parent);
      LinkFind(v, v.inodes[dir].directp, i, DLIST + b, name, 0);
    }
  }

  /** Linking an empty block leaves every dot-free path as it was. */
  lemma {:induction false} LinkResolve(v: Store, live: set<nat>, dir: nat, i: nat, b: nat, old_: Slots, parent: nat,
                                       cur: nat, comps: seq<string>)
    requires TreeOk(v, live) && dir in live && cur in live && i < NUM_DIRECT && Ptr(v, dir, i) == 0
    requires ReadyBlock(v, live, b, old_, dir, parent) && DotFree(comps)
    ensures Resolve(Apply(v, PutInode(dir, WithPointer(v.inodes[dir], i, DLIST + b))), cur, comps) == Resolve(v, cur, comps)
    decreases |comps|
  {
    if comps != [] {
      LinkLookup(v, live, dir, i, b, old_, parent, cur, comps[0]);
      if LookupIn(v, cur, comps[0]).Some? {
        LookupStaysLive(v, live, cur, comps[0]);
        LinkResolve(v, live, dir, i, b, old_, parent, LookupIn(v, cur, comps[0]).value, comps[1..]);
      }
    }
  }

  // ---------------------------------------------------------------- adding an entry

  /** Slot `j` of block `i` of `dir` is where the next entry goes: everything before it is in use. */
  ghost predicate NextSlot(v: Store, dir: nat, i: nat, j: nat) {
    && i < NUM_DIRECT && j < SLOTS && Ptr(v, dir, i) != 0 && FullBefore(v, dir, i)
    && !InUse(SlotOf(v, dir, i, j)) && (forall k: nat :: k < j ==> InUse(SlotOf(v, dir, i, k)))
  }

  /** Inode `n` is marked and initialised, but not linked; its number is larger than all live ones. */
  ghost predicate ReadyInode(v: Store, live: set<nat>, n: nat) {
    && n < |v.inodes| && n < |v.inodeMap| && v.inodeMap[n] && v.inodes[n].ino == n
    && (forall q: nat :: Ptr(v, n, q) == 0)
    && (forall m :: m in live ==> m < n)
  }

  ghost function AddEntry(v: Store, dir: nat, i: nat, j: nat, n: nat, name: string): (w: Store)
    requires v.Sized() && j < SLOTS
    ensures w.Sized()
  {
    var p := Ptr(v, dir, i);
    if DLIST <= p < DLIST + DATA then Apply(v, PutDir(p - DLIST, SlotsAt(v, p)[j := Slot(n, name)])) else v
  }

  ghost predicate Adding(v: Store, w: Store, live: set<nat>, dir: nat, i: nat, j: nat, n: nat, name: string) {
    && (forall m: nat, q: nat :: Ptr(w, m, q) == Ptr(v, m, q))
    && (forall m: nat, q: nat, k: nat :: m in live ==>
          SlotOf(w, m, q, k) == if m == dir && q == i && k == j then Slot(n, name) else SlotOf(v, m, q, k))
    && (forall q: nat :: Ptr(w, n, q) == 0)
    && (forall q: nat, k: nat :: !InUse(SlotOf(w, n, q, k)))
  }

  lemma AddKeepsPointers(v: Store, dir: nat, i: nat, j: nat, n: nat, name: string, w: Store)
    requires v.Sized() && j < SLOTS && w == AddEntry(v, dir, i, j, n, name)
    ensures forall m: nat, q: nat :: Ptr(w, m, q) == Ptr(v, m, q)
  {}

  lemma AddSlots(v: Store, live: set<nat>, dir: nat, i: nat, j: nat, n: nat, name: string, w: Store)
    requires v.Sized() && PointersOk(v, live) && dir in live && i < NUM_DIRECT && j < SLOTS && Ptr(v, dir, i) != 0
    requires w == AddEntry(v, dir, i, j, n, name) && forall m: nat, q: nat :: Ptr(w, m, q) == Ptr(v, m, q)
    ensures forall m: nat, q: nat, k: nat :: m in live ==>
              SlotOf(w, m, q, k) == if m == dir && q == i && k == j then Slot(n, name) else SlotOf(v, m, q, k)
  {}

  lemma AddPointersOk(v: Store, w: Store, live: set<nat>, n: nat)
    requires v.Sized() && w.Sized() && InodesOk(v, live) && PointersOk(v, live) && ReadyInode(v, live, n)
    requires w.inodes == v.inodes && w.inodeMap == v.inodeMap && w.dataMap == v.dataMap
    requires forall m: nat, q: nat :: Ptr(w, m, q) == Ptr(v, m, q)
    ensures InodesOk(w, live + {n}) && PointersOk(w, live + {n})
  {}

  lemma AddShape(v: Store, live: set<nat>, dir: nat, i: nat, j: nat, n: nat, name: string)
    requires v.Sized() && InodesOk(v, live) && PointersOk(v, live) && dir in live
    requires NextSlot(v, dir, i, j) && ReadyInode(v, live, n)
    ensures var w := AddEntry(v, dir, i, j, n, name);
            Adding(v, w, live, dir, i, j, n, name) && InodesOk(w, live + {n}) && PointersOk(w, live + {n})
  {
    var w := AddEntry(v, dir, i, j, n, name);
    AddKeepsPointers(v, dir, i, j, n, name, w);
    AddSlots(v, live, dir, i, j, n, name, w);
    AddPointersOk(v, w, live, n);
    assert forall q: nat, k: nat :: !InUse(SlotOf(w, n, q, k));
  }

  lemma AddPacked(v: Store, w: Store, live: set<nat>, dir: nat, i: nat, j: nat, n: nat, name: string)
    requires Adding(v, w, live, dir, i, j, n, name) && NextSlot(v, dir, i, j) && dir in live
    requires Packed(v, live) && n < INODES
    ensures Packed(w, live + {n})
  {}

  lemma AddSelf(v: Store, w: Store, live: set<nat>, dir: nat, i: nat, j: nat, n: nat, name: string)
    requires Adding(v, w, live, dir, i, j, n, name) && NextSlot(v, dir, i, j) && dir in live && dir < INODES
    requires SelfOk(v, live) && SlotsLive(v, live) && !IsDot(name) && |name| < MAX_FNAME
    ensures SelfOk(w, live + {n}) && SlotsLive(w, live + {n})
  {}

  /** The entries are the old ones and the new one. */
  lemma AddEntries(v: Store, w: Store, live: set<nat>, dir: nat, i: nat, j: nat, n: nat, name: string)
    requires Adding(v, w, live, dir, i, j, n, name) && NextSlot(v, dir, i, j) && dir in live
    requires !IsDot(name) && n < INODES
    ensures forall m: nat, q: nat, k: nat, c: nat :: m in live + {n} ==>
              (EntryFor(w, m, q, k, c) <==>
                 (m in live && EntryFor(v, m, q, k, c)) || (m == dir && q == i && k == j && c == n))
  {}

  lemma AddParents(v: Store, w: Store, live: set<nat>, dir: nat, i: nat, j: nat, n: nat, name: string)
    requires Adding(v, w, live, dir, i, j, n, name) && NextSlot(v, dir, i, j) && dir in live
    requires !IsDot(name) && n < INODES
    ensures IsParent(w, dir, n)
    ensures forall m: nat, c: nat :: m in live && IsParent(v, m, c) ==> IsParent(w, m, c)
  {
    AddEntries(v, w, live, dir, i, j, n, name);
    assert EntryFor(w, dir, i, j, n);
    forall m: nat, c: nat | m in live && IsParent(v, m, c) ensures IsParent(w, m, c) {
      var q: nat, k: nat :| EntryFor(v, m, q, k, c);
      assert EntryFor(w, m, q, k, c);
    }
  }

  lemma AddEntryFacts(v: Store, w: Store, live: set<nat>, dir: nat, i: nat, j: nat, n: nat, name: string)
    requires Adding(v, w, live, dir, i, j, n, name) && NextSlot(v, dir, i, j) && dir in live
    requires !IsDot(name) && n < INODES && ReadyInode(v, live, n)
    requires SlotsLive(v, live) && Upward(v, live) && OneEntry(v, live) && Linked(v, live)
    ensures Upward(w, live + {n}) && OneEntry(w, live + {n}) && Linked(w, live + {n})
  {
    AddEntries(v, w, live, dir, i, j, n, name);
    AddParents(v, w, live, dir, i, j, n, name);
  }

  lemma AddDotDot(v: Store, w: Store, live: set<nat>, dir: nat, i: nat, j: nat, n: nat, name: string)
    requires Adding(v, w, live, dir, i, j, n, name) && NextSlot(v, dir, i, j) && dir in live
    requires !IsDot(name) && n < INODES && SlotsLive(v, live) && DotDotOk(v, live)
    ensures DotDotOk(w, live + {n})
  {
    AddParents(v, w, live, dir, i, j, n, name);
    forall m: nat, q: nat | m in live + {n} && m != 0 && Ptr(w, m, q) != 0
      ensures InUse(SlotOf(w, m, q, 1)) && SlotOf(w, m, q, 1).name == ".." && IsParent(w, SlotOf(w, m, q, 1).inum, m)
    {
      assert m in live && Ptr(v, m, q) != 0;
      assert InUse(SlotOf(v, m, q, 1));
      assert SlotOf(w, m, q, 1) == SlotOf(v, m, q, 1);
    }
  }

  lemma AddTreeOk(v: Store, live: set<nat>, dir: nat, i: nat, j: nat, n: nat, name: string)
    requires TreeOk(v, live) && dir in live && NextSlot(v, dir, i, j) && ReadyInode(v, live, n)
    requires !IsDot(name) && |name| < MAX_FNAME
    ensures TreeOk(AddEntry(v, dir, i, j, n, name), live + {n})
  {
    AllRules(v, live);
    var w := AddEntry(v, dir, i, j, n, name);
    AddShape(v, live, dir, i, j, n, name);
    AddPacked(v, w, live, dir, i, j, n, name);
    AddSelf(v, w, live, dir, i, j, n, name);
    AddEntryFacts(v, w, live, dir, i, j, n, name);
    AddDotDot(v, w, live, dir, i, j, n, name);
  }

  /** Filling the first unused slot leaves names that were found; the new name is found now. */
  lemma {:induction false} AddFindSlot(slots: Slots, j: nat, s: Slot, name: string, k: nat)
    requires k <= SLOTS && j < SLOTS && InUse(s) && (forall l :: j <= l < SLOTS ==> !InUse(slots[l]))
    ensures var f := FindSlot(slots, name, k); var g := FindSlot(slots[j := s], name, k);
            g == if f < SLOTS then f else if k <= j && s.name == name then j else SLOTS
    decreases SLOTS - k
  {
    if k < SLOTS { AddFindSlot(slots, j, s, name, k + 1); }
  }

  lemma {:induction false} NothingFound(v: Store, directp: Direct, name: string, q: nat)
    requires q <= NUM_DIRECT && forall r :: q <= r < NUM_DIRECT ==> directp[r] == 0
    ensures Find(v, directp, name, q) == None
    decreases |directp| - q
  {
    if q < NUM_DIRECT { NothingFound(v, directp, name, q + 1); }
  }

  lemma {:induction false} AddFind(v: Store, w: Store, directp: Direct, i: nat, j: nat, s: Slot, name: string, q: nat)
    requires i < NUM_DIRECT && j < SLOTS && q <= NUM_DIRECT && InUse(s) && directp[i] != 0
    requires forall r :: i < r < NUM_DIRECT ==> directp[r] == 0
    requires forall r :: 0 <= r < i && directp[r] != 0 ==> SlotsAt(w, directp[r]) == SlotsAt(v, directp[r])
    requires SlotsAt(w, directp[i]) == SlotsAt(v, directp[i])[j := s]
    requires forall l :: j <= l < SLOTS ==> !InUse(SlotsAt(v, directp[i])[l])
    ensures Find(w, directp, name, q) ==
            if Find(v, directp, name, q).Some? then Find(v, directp, name, q)
            else if q <= i && name == s.name then Some(s.inum) else None
    decreases |directp| - q
  {
    if q < NUM_DIRECT {
      if q == i {
        AddFindSlot(SlotsAt(v, directp[i]), j, s, name, 0);
        NothingFound(v, directp, name, i + 1);
      }
      AddFind(v, w, directp, i, j, s, name, q + 1);
    }
  }

  lemma AddLookupElsewhere(v: Store, live: set<nat>, dir: nat, i: nat, j: nat, n: nat, name: string, m: nat, x: string)
    requires v.Sized() && InodesOk(v, live) && PointersOk(v, live) && dir in live && m in live && m != dir
    requires NextSlot(v, dir, i, j)
    ensures LookupIn(AddEntry(v, dir, i, j, n, name), m, x) == LookupIn(v, m, x)
  {
    var w := AddEntry(v, dir, i, j, n, name);
    var directp := v.inodes[m].directp;
    forall r | 0 <= r < NUM_DIRECT && directp[r] != 0 ensures SlotsAt(w, directp[r]) == SlotsAt(v, directp[r]) {
      assert Ptr(v, m, r) != Ptr(v, dir, i);
    }
    SameFind(v, w, directp, x, 0);
  }

  lemma AddLookupHere(v: Store, live: set<nat>, dir: nat, i: nat, j: nat, n: nat, name: string, x: string)
    requires v.Sized() && InodesOk(v, live) && PointersOk(v, live) && Packed(v, live) && dir in live
    requires NextSlot(v, dir, i, j) && n < INODES
    ensures LookupIn(AddEntry(v, dir, i, j, n, name), dir, x) ==
            if LookupIn(v, dir, x) == None && x == name then Some(n) else LookupIn(v, dir, x)
  {
    var w := AddEntry(v, dir, i, j, n, name);
    var directp := v.inodes[dir].directp;
    forall l | j <= l < SLOTS ensures !InUse(SlotsAt(v, directp[i])[l]) { assert !InUse(SlotOf(v, dir, i, l)); }
    forall r | i < r < NUM_DIRECT ensures directp[r] == 0 { assert Ptr(v, dir, r) == 0; }
    forall r | 0 <= r < i && directp[r] != 0 ensures SlotsAt(w, directp[r]) == SlotsAt(v, directp[r]) {
      assert Ptr(v, dir, r) != Ptr(v, dir, i);
    }
    AddFind(v, w, directp, i, j, Slot(n, name), x, 0);
  }

  lemma AddLookup(v: Store, live: set<nat>, dir: nat, i: nat, j: nat, n: nat, name: string, m: nat, x: string)
    requires TreeOk(v, live) && dir in live && NextSlot(v, dir, i, j) && ReadyInode(v, live, n)
    ensures m in live ==>
      LookupIn(AddEntry(v, dir, i, j, n, name), m, x) ==
        if LookupIn(v, m, x) == None && m == dir && x == name then Some(n) else LookupIn(v, m, x)
    ensures LookupIn(AddEntry(v, dir, i, j, n, name), n, x) == None
  {
    assert Obeys(v, live, Inodes) && Obeys(v, live, Pointers) && Obeys(v, live, Packing);
    if m == dir { AddLookupHere(v, live, dir, i, j, n, name, x); }
    else if m in live { AddLookupElsewhere(v, live, dir, i, j, n, name, m, x); }
    var w := AddEntry(v, dir, i, j, n, name);
    forall r | 0 <= r < NUM_DIRECT ensures w.inodes[n].directp[r] == 0 { assert Ptr(v, n, r) == 0; }
    NothingFound(w, w.inodes[n].directp, x, 0);
  }

  /** The path to the new entry, if the name was not there before. */
  ghost predicate NewPath(v: Store, cur: nat, comps: seq<string>, dir: nat, name: string) {
    && comps != [] && comps[|comps| - 1] == name
    && Resolve(v, cur, Front(comps)) == Some(dir) && LookupIn(v, dir, name) == None
  }

  lemma NewPathStep(v: Store, cur: nat, comps: seq<string>, dir: nat, name: string)
    requires comps != []
    ensures |comps| == 1 ==> NewPath(v, cur, comps, dir, name) == (cur == dir && comps[0] == name && LookupIn(v, dir, name) == None)
    ensures |comps| > 1 ==>
      (NewPath(v, cur, comps, dir, name) <==>
         LookupIn(v, cur, comps[0]).Some? && NewPath(v, LookupIn(v, cur, comps[0]).value, comps[1..], dir, name))
  {
    if |comps| > 1 { assert Front(comps)[0] == comps[0] && Front(comps)[1..] == Front(comps[1..]); }
  }

  /** After adding an entry every dot-free path leads where it did, except that the new path leads
      to the new inode if the name was not in the directory before. */
  lemma {:induction false} AddResolve(v: Store, live: set<nat>, dir: nat, i: nat, j: nat, n: nat, name: string,
                                      cur: nat, comps: seq<string>)
    requires TreeOk(v, live) && dir in live && cur in live && NextSlot(v, dir, i, j) && ReadyInode(v, live, n)
    requires DotFree(comps)
    ensures Resolve(AddEntry(v, dir, i, j, n, name), cur, comps) ==
            if NewPath(v, cur, comps, dir, name) then Some(n) else Resolve(v, cur, comps)
    decreases |comps|
  {
    if comps != [] {
      var rest := comps[1..];
      NewPathStep(v, cur, comps, dir, name);
      AddLookup(v, live, dir, i, j, n, name, cur, comps[0]);
      match LookupIn(v, cur, comps[0])
      case Some(c) =>
        LookupStaysLive(v, live, cur, comps[0]);
        AddResolve(v, live, dir, i, j, n, name, c, rest);
      case None =>
        if rest != [] { AddLookup(v, live, dir, i, j, n, name, cur, rest[0]); }
    }
  }
}
