/** The directory tree on the disk: the invariant every reachable disk satisfies and how each
    kind of write changes it. `live` is the set of inodes linked into the tree; inodes and blocks
    that are marked but not live are leaks. */
module Tree {
  import opened Volume
  import opened Lookup

  ghost function Ptr(v: Store, n: nat, q: nat): nat {
    if n < |v.inodes| && q < NUM_DIRECT then v.inodes[n].directp[q] else 0
  }

  /** Slot `k` of the block behind direct pointer `q` of inode `n`. */
  ghost function SlotOf(v: Store, n: nat, q: nat, k: nat): Slot {
    if Ptr(v, n, q) != 0 && k < SLOTS then SlotsAt(v, Ptr(v, n, q))[k] else Slot(INUM_FREE, "")
  }

  /** Slot (n, q, k) is an ordinary entry: in use, under a name other than "." and "..". */
  ghost predicate Entry(v: Store, n: nat, q: nat, k: nat) {
    InUse(SlotOf(v, n, q, k)) && !IsDot(SlotOf(v, n, q, k).name)
  }

  ghost predicate EntryFor(v: Store, n: nat, q: nat, k: nat, c: nat) {
    Entry(v, n, q, k) && SlotOf(v, n, q, k).inum == c
  }

  /** Some ordinary entry of directory `n` names inode `c`. */
  ghost predicate IsParent(v: Store, n: nat, c: nat) {
    exists q: nat, k: nat :: EntryFor(v, n, q, k, c)
  }

  ghost predicate InodesOk(v: Store, live: set<nat>) {
    && 0 in live
    && (forall n :: n in live ==> n < |v.inodes| && n < |v.inodeMap| && v.inodeMap[n] && v.inodes[n].ino == n)
    && (forall a, b :: 0 <= a < b < |v.inodeMap| && v.inodeMap[b] ==> v.inodeMap[a])
  }

  ghost predicate PointersOk(v: Store, live: set<nat>) {
    && (forall n: nat, q: nat :: n in live && Ptr(v, n, q) != 0 ==>
          DLIST <= Ptr(v, n, q) < DLIST + |v.dataMap| && v.dataMap[Ptr(v, n, q) - DLIST])
    && (forall n: nat, q: nat, m: nat, r: nat ::
          n in live && m in live && Ptr(v, n, q) == Ptr(v, m, r) != 0 ==> n == m && q == r)
    && Ptr(v, 0, 0) != 0
  }

  /** Directories fill up from the front: no unused pointer before a used one, no block after one
      that still has room, no unused slot before a used one. */
  ghost predicate Packed(v: Store, live: set<nat>) {
    && (forall n: nat, q: nat, r: nat :: n in live && q < r && Ptr(v, n, r) != 0 ==> Ptr(v, n, q) != 0)
    && (forall n: nat, q: nat, r: nat, k: nat ::
          n in live && q < r && Ptr(v, n, r) != 0 && k < SLOTS ==> InUse(SlotOf(v, n, q, k)))
    && (forall n: nat, q: nat, k: nat, l: nat :: n in live && k < l && InUse(SlotOf(v, n, q, l)) ==> InUse(SlotOf(v, n, q, k)))
  }

  /** Every block of a directory starts with ".", and apart from that slot and the second slot of
      directories other than the root no slot has one of the dot names. */
  ghost predicate SelfOk(v: Store, live: set<nat>) {
    && (forall n: nat, q: nat :: n in live && Ptr(v, n, q) != 0 ==> SlotOf(v, n, q, 0) == Slot(n, "."))
    && (forall n: nat, q: nat, k: nat :: n in live && InUse(SlotOf(v, n, q, k)) && IsDot(SlotOf(v, n, q, k).name) ==>
          k == 0 || (k == 1 && n != 0))
  }

  /** ".." names the directory that holds the entry of this directory; the root has none. */
  ghost predicate DotDotOk(v: Store, live: set<nat>) {
    forall n: nat, q: nat :: n in live && n != 0 && Ptr(v, n, q) != 0 ==>
      && InUse(SlotOf(v, n, q, 1)) && SlotOf(v, n, q, 1).name == ".."
      && IsParent(v, SlotOf(v, n, q, 1).inum, n)
  }

  /** Slots in use name live inodes, under names that fit their field. */
  ghost predicate SlotsLive(v: Store, live: set<nat>) {
    forall n: nat, q: nat, k: nat :: n in live && InUse(SlotOf(v, n, q, k)) ==>
      SlotOf(v, n, q, k).inum in live && |SlotOf(v, n, q, k).name| < MAX_FNAME
  }

  /** Entries lead from smaller to larger inode numbers, so there are no cycles. */
  ghost predicate Upward(v: Store, live: set<nat>) {
    forall n: nat, q: nat, k: nat :: n in live && Entry(v, n, q, k) ==> n < SlotOf(v, n, q, k).inum
  }

  /** No inode has two entries. */
  ghost predicate OneEntry(v: Store, live: set<nat>) {
    forall n: nat, q: nat, k: nat, m: nat, r: nat, l: nat, c: nat ::
      n in live && m in live && EntryFor(v, n, q, k, c) && EntryFor(v, m, r, l, c) ==> n == m && q == r && k == l
  }

  /** Every live inode but the root has an entry. */
  ghost predicate Linked(v: Store, live: set<nat>) {
    forall c :: c in live && c != 0 ==> exists n :: n in live && IsParent(v, n, c)
  }

  /** The rules of a consistent disk, by name. A proof brings in the rules it needs by naming them. */
  datatype Rule = Inodes | Pointers | Packing | Self | DotDot | LiveSlots | UpwardEntries | SingleEntry | LinkedInodes

  ghost predicate Obeys(v: Store, live: set<nat>, rule: Rule) {
    match rule
    case Inodes => InodesOk(v, live)
    case Pointers => PointersOk(v, live)
    case Packing => Packed(v, live)
    case Self => SelfOk(v, live)
    case DotDot => DotDotOk(v, live)
    case LiveSlots => SlotsLive(v, live)
    case UpwardEntries => Upward(v, live)
    case SingleEntry => OneEntry(v, live)
    case LinkedInodes => Linked(v, live)
  }

  ghost predicate TreeOk(v: Store, live: set<nat>) {
    && v.Sized()
    && 0 in live && (forall n :: n in live ==> n < INODES)
    && forall rule :: Obeys(v, live, rule)
  }

  // ---------------------------------------------------------------- what lookup finds

  lemma {:induction false} FoundAt(v: Store, n: nat, name: string, q: nat) returns (r: nat, k: nat)
    requires n < |v.inodes| && q <= NUM_DIRECT
    requires Find(v, v.inodes[n].directp, name, q).Some?
    ensures Ptr(v, n, r) != 0 && k < SLOTS && q <= r
    ensures Matches(SlotOf(v, n, r, k), name)
    ensures SlotOf(v, n, r, k).inum == Find(v, v.inodes[n].directp, name, q).value
    decreases NUM_DIRECT - q
  {
    if v.inodes[n].directp[q] != 0 && FindSlot(SlotsAt(v, v.inodes[n].directp[q]), name, 0) < SLOTS {
      r, k := q, FindSlot(SlotsAt(v, v.inodes[n].directp[q]), name, 0);
    } else {
      r, k := FoundAt(v, n, name, q + 1);
    }
  }

  lemma LookupStaysLive(v: Store, live: set<nat>, n: nat, name: string)
    requires TreeOk(v, live) && n in live && LookupIn(v, n, name).Some?
    ensures LookupIn(v, n, name).value in live
    ensures !IsDot(name) ==> n < LookupIn(v, n, name).value && IsParent(v, n, LookupIn(v, n, name).value)
  {
    assert Obeys(v, live, LiveSlots) && Obeys(v, live, UpwardEntries);
    var q, k := FoundAt(v, n, name, 0);
    if !IsDot(name) { assert EntryFor(v, n, q, k, LookupIn(v, n, name).value); }
  }

  ghost predicate DotFree(comps: seq<string>) { forall i :: 0 <= i < |comps| ==> !IsDot(comps[i]) }

  /** Every path leads to a live inode, and dot-free paths lead upwards in inode numbers. */
  lemma {:induction false} ResolveStaysLive(v: Store, live: set<nat>, cur: nat, comps: seq<string>)
    requires TreeOk(v, live) && cur in live && Resolve(v, cur, comps).Some?
    ensures Resolve(v, cur, comps).value in live
    ensures DotFree(comps) && comps != [] ==> cur < Resolve(v, cur, comps).value
    decreases |comps|
  {
    if comps != [] {
      LookupStaysLive(v, live, cur, comps[0]);
      ResolveStaysLive(v, live, LookupIn(v, cur, comps[0]).value, comps[1..]);
    }
  }

  lemma SameEntry(v: Store, live: set<nat>, n: nat, x: string, m: nat, y: string)
    requires TreeOk(v, live) && n in live && m in live && !IsDot(x) && !IsDot(y)
    requires LookupIn(v, n, x).Some? && LookupIn(v, n, x) == LookupIn(v, m, y)
    ensures n == m && x == y
  {
    assert Obeys(v, live, SingleEntry);
    var c := LookupIn(v, n, x).value;
    var q, k := FoundAt(v, n, x, 0);
    var r, l := FoundAt(v, m, y, 0);
    assert EntryFor(v, n, q, k, c) && EntryFor(v, m, r, l, c);
  }

  lemma SameFrontAndLast(a: seq<string>, b: seq<string>)
    requires a != [] && b != [] && Front(a) == Front(b) && a[|a| - 1] == b[|b| - 1]
    ensures a == b
  {
    assert a == Front(a) + [a[|a| - 1]] && b == Front(b) + [b[|b| - 1]];
  }

  /** Each inode has at most one dot-free path. */
  lemma {:induction false} OnePath(v: Store, live: set<nat>, a: seq<string>, b: seq<string>)
    requires TreeOk(v, live) && DotFree(a) && DotFree(b)
    requires Resolve(v, 0, a).Some? && Resolve(v, 0, a) == Resolve(v, 0, b)
    ensures a == b
    decreases |a|
  {
    ResolveStaysLive(v, live, 0, a);
    ResolveStaysLive(v, live, 0, b);
    if a != [] && b != [] {
      var n := LastStep(v, live, a);
      var m := LastStep(v, live, b);
      SameEntry(v, live, n, a[|a| - 1], m, b[|b| - 1]);
      OnePath(v, live, Front(a), Front(b));
      SameFrontAndLast(a, b);
    }
  }

  /** The directory in which the last name of a resolving path is found. */
  lemma LastStep(v: Store, live: set<nat>, a: seq<string>) returns (n: nat)
    requires TreeOk(v, live) && a != [] && Resolve(v, 0, a).Some?
    ensures n in live && Resolve(v, 0, Front(a)) == Some(n)
    ensures LookupIn(v, n, a[|a| - 1]) == Resolve(v, 0, a)
  {
    var last := [a[|a| - 1]];
    assert a == Front(a) + last;
    ResolveSplit(v, 0, Front(a), last);
    n := Resolve(v, 0, Front(a)).value;
    ResolveStaysLive(v, live, 0, Front(a));
    assert last[1..] == [];
    assert Resolve(v, n, last) == LookupIn(v, n, last[0]);
  }

  /** The abstract tree: every dot-free path that resolves, with its inode. */
  ghost function TreeOf(v: Store): imap<seq<string>, nat> {
    imap comps: seq<string> | DotFree(comps) && Resolve(v, 0, comps).Some? :: Resolve(v, 0, comps).value
  }
}
