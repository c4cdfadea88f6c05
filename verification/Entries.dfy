/** What lookup, listing, create and mkdir mean for the slots, pointers and maps on the disk: which entry a name leads
    to, what a listing holds, when a new entry fits, and what a new path lists. */
module Entries {
  import opened Volume
  import opened Lookup
  import opened Paths
  import opened Tree
  import opened TreeWrites
  import opened Creation
  import opened Operations
  import opened Runs
  import opened Listings

  // ---------------------------------------------------------------- the order of the slots

  /** A slot of a directory: direct pointer and place in the block behind it. */
  datatype Position = Position(q: nat, k: nat)

  predicate Before(a: Position, b: Position) { a.q < b.q || (a.q == b.q && a.k < b.k) }

  /** Slot `p` of inode `n` is in use. Slots behind unused pointers are not. */
  ghost predicate Used(v: Store, n: nat, p: Position) { SlotOf(v, n, p.q, p.k).inum != INUM_FREE }

  ghost predicate Named(v: Store, n: nat, p: Position, name: string) {
    Used(v, n, p) && SlotOf(v, n, p.q, p.k).name == name
  }

  /** The first slot that is in use under `name`. */
  ghost predicate FirstNamed(v: Store, n: nat, p: Position, name: string) {
    Named(v, n, p, name) && forall r :: Before(r, p) ==> !Named(v, n, r, name)
  }

  lemma {:induction false} FindsFirst(v: Store, n: nat, name: string, q: nat) returns (p: Position)
    requires n < |v.inodes| && q <= NUM_DIRECT && forall r :: Named(v, n, r, name) ==> q <= r.q
    ensures var found := Find(v, v.inodes[n].directp, name, q);
            if found.Some? then FirstNamed(v, n, p, name) && SlotOf(v, n, p.q, p.k).inum == found.value
            else forall r :: !Named(v, n, r, name)
    decreases NUM_DIRECT - q
  {
    p := Position(q, 0);
    if q < NUM_DIRECT {
      if v.inodes[n].directp[q] != 0 {
        var slots := SlotsAt(v, v.inodes[n].directp[q]);
        var k := FindSlot(slots, name, 0);
        assert forall j: nat :: j < SLOTS ==> SlotOf(v, n, q, j) == slots[j];
        if k < SLOTS {
          p := Position(q, k);
          assert forall j: nat :: j < k ==> !Matches(slots[j], name);
          return;
        }
        assert forall j: nat :: j < SLOTS ==> !Matches(slots[j], name);
      }
      p := FindsFirst(v, n, name, q + 1);
    }
  }

  /** A name leads to the inode of the first slot that is in use under it, and nowhere if there is none. */
  lemma LookupIsFirst(v: Store, n: nat, name: string, c: nat)
    requires n < |v.inodes|
    ensures LookupIn(v, n, name) == Some(c) <==>
              exists p :: FirstNamed(v, n, p, name) && SlotOf(v, n, p.q, p.k).inum == c
    ensures LookupIn(v, n, name) == None <==> forall p :: !Named(v, n, p, name)
  {
    var p := FindsFirst(v, n, name, 0);
    if p' :| FirstNamed(v, n, p', name) && SlotOf(v, n, p'.q, p'.k).inum == c {
      assert LookupIn(v, n, name).Some?;
      assert p' == p || Before(p, p') || Before(p', p);
    }
  }

  // ---------------------------------------------------------------- listings

  /** `ps` are the used slots of inode `n` from pointer `q` on, each once and in order. */
  ghost predicate UsedInOrder(v: Store, n: nat, q: nat, ps: seq<Position>) {
    && (forall i, j :: 0 <= i < j < |ps| ==> Before(ps[i], ps[j]))
    && (forall p :: p in ps <==> p.q >= q && Used(v, n, p))
  }

  /** The names of the slots `ps`, one by one. */
  ghost predicate NamesOf(v: Store, n: nat, ps: seq<Position>, names: seq<string>) {
    |names| == |ps| && forall i :: 0 <= i < |ps| ==> names[i] == SlotOf(v, n, ps[i].q, ps[i].k).name
  }

  /** The same for the block behind pointer `q` alone, from slot `k` on. */
  ghost predicate BlockInOrder(v: Store, n: nat, q: nat, k: nat, ps: seq<Position>) {
    && (forall i, j :: 0 <= i < j < |ps| ==> Before(ps[i], ps[j]))
    && (forall p :: p in ps <==> p.q == q && p.k >= k && Used(v, n, p))
  }

  lemma {:induction false} BlockListed(v: Store, n: nat, q: nat, slots: Slots, k: nat) returns (ps: seq<Position>)
    requires Ptr(v, n, q) != 0 && slots == SlotsAt(v, Ptr(v, n, q)) && k <= SLOTS
    ensures BlockInOrder(v, n, q, k, ps) && NamesOf(v, n, ps, UsedNames(slots, k))
    decreases SLOTS - k
  {
    if k == SLOTS {
      ps := [];
    } else {
      var rest := BlockListed(v, n, q, slots, k + 1);
      assert SlotOf(v, n, q, k) == slots[k];
      if InUse(slots[k]) {
        ps := [Position(q, k)] + rest;
        assert forall i :: 0 <= i < |rest| ==> rest[i] in rest;
      } else {
        ps := rest;
      }
    }
  }

  lemma {:induction false} ListedFrom(v: Store, n: nat, q: nat) returns (ps: seq<Position>)
    requires n < |v.inodes| && q <= NUM_DIRECT
    ensures UsedInOrder(v, n, q, ps) && NamesOf(v, n, ps, Listing(v, v.inodes[n].directp, q))
    decreases NUM_DIRECT - q
  {
    if q == NUM_DIRECT {
      ps := [];
    } else {
      var rest := ListedFrom(v, n, q + 1);
      ps := rest;
      if v.inodes[n].directp[q] != 0 {
        var slots := SlotsAt(v, v.inodes[n].directp[q]);
        var here := BlockListed(v, n, q, slots, 0);
        ps := here + rest;
        InOrderAfter(v, n, q, here, rest);
        NamesAfter(v, n, here, rest, UsedNames(slots, 0), Listing(v, v.inodes[n].directp, q + 1));
      } else {
        NoneHere(v, n, q, rest);
      }
    }
  }

  lemma NoneHere(v: Store, n: nat, q: nat, rest: seq<Position>)
    requires UsedInOrder(v, n, q + 1, rest) && Ptr(v, n, q) == 0
    ensures UsedInOrder(v, n, q, rest)
  {
  }

  lemma NamesAfter(v: Store, n: nat, here: seq<Position>, rest: seq<Position>, a: seq<string>, b: seq<string>)
    requires NamesOf(v, n, here, a) && NamesOf(v, n, rest, b)
    ensures NamesOf(v, n, here + rest, a + b)
  {
  }

  lemma InOrderAfter(v: Store, n: nat, q: nat, here: seq<Position>, rest: seq<Position>)
    requires BlockInOrder(v, n, q, 0, here) && UsedInOrder(v, n, q + 1, rest)
    ensures UsedInOrder(v, n, q, here + rest)
  {
    var ps := here + rest;
    forall i, j | 0 <= i < j < |ps| ensures Before(ps[i], ps[j]) {
      if i < |here| <= j { assert here[i] in here && rest[j - |here|] in rest; }
    }
  }

  /** readdir lists the names of the used slots of a directory, each slot once and in the order of the slots. */
  lemma ListingInOrder(v: Store, n: nat) returns (ps: seq<Position>)
    requires n < |v.inodes|
    ensures UsedInOrder(v, n, 0, ps) && NamesOf(v, n, ps, Listing(v, v.inodes[n].directp, 0))
  {
    ps := ListedFrom(v, n, 0);
  }

  // ---------------------------------------------------------------- when a new entry fits

  /** All slots behind pointer `q` are in use. */
  ghost predicate Full(v: Store, n: nat, q: nat) {
    Ptr(v, n, q) != 0 && forall k :: 0 <= k < 16 ==> Used(v, n, Position(q, k))
  }

  /** Pointer `q` leads to a block with an unused slot, or it is unused and a data block is left for it. */
  ghost predicate HasPlace(v: Store, n: nat, q: nat) {
    if Ptr(v, n, q) == 0 then exists b :: 0 <= b < |v.dataMap| && !v.dataMap[b]
    else exists k :: 0 <= k < 16 && !Used(v, n, Position(q, k))
  }

  /** The first pointer that is not full, and it has a place. */
  ghost predicate FirstPlace(v: Store, n: nat, q: nat) {
    q < 44 && HasPlace(v, n, q) && forall r :: 0 <= r < q ==> Full(v, n, r)
  }

  ghost predicate EntryFits(v: Store, n: nat) { exists q :: FirstPlace(v, n, q) }

  lemma FullExactly(v: Store, n: nat, q: nat)
    requires v.Sized() && n < INODES && q < NUM_DIRECT
    ensures Full(v, n, q) <==> !HasRoom(v, v.inodes[n].directp[q])
  {
    if Ptr(v, n, q) != 0 {
      var slots := SlotsAt(v, Ptr(v, n, q));
      assert forall k: nat :: k < SLOTS ==> SlotOf(v, n, q, k) == slots[k];
      var j := FreeSlot(slots, 0);
      if j < SLOTS { assert !Used(v, n, Position(q, j)); }
    }
  }

  lemma FreeDataExactly(v: Store)
    requires v.Sized()
    ensures FirstFree(v.dataMap) < DATA <==> exists b :: 0 <= b < DATA && !v.dataMap[b]
  {
    var b := FirstFree(v.dataMap);
    if b < DATA { assert !v.dataMap[b]; }
  }

  lemma PlaceIsHome(v: Store, n: nat, q: nat)
    requires v.Sized() && n < INODES && FirstPlace(v, n, q)
    ensures Home(v, v.inodes[n].directp, 0) == q
  {
    var directp := v.inodes[n].directp;
    forall r | 0 <= r < q ensures !HasRoom(v, directp[r]) { FullExactly(v, n, r); }
    FullExactly(v, n, q);
    HomeIs(v, directp, 0, q);
  }

  /** updateDir succeeds exactly if the first pointer that is not full has a place for the entry. */
  lemma EntryFitsExactly(v: Store, dir: nat, parent: nat, name: string, n: nat)
    requires v.Sized() && dir < INODES
    ensures EntryWrites(v, dir, parent, name, n).ok <==> EntryFits(v, dir)
  {
    var directp := v.inodes[dir].directp;
    var i := Home(v, directp, 0);
    FreeDataExactly(v);
    if q: nat :| FirstPlace(v, dir, q) { PlaceIsHome(v, dir, q); }
    if i < NUM_DIRECT {
      forall r | 0 <= r < i ensures Full(v, dir, r) { FullExactly(v, dir, r); }
      FullExactly(v, dir, i);
      assert Ptr(v, dir, i) == directp[i];
      assert HasPlace(v, dir, i) ==> FirstPlace(v, dir, i);
    }
  }

  /** In a consistent directory any place will do, because there is none behind a pointer that has none. */
  ghost predicate SomePlace(v: Store, n: nat) { exists q: nat :: q < 44 && HasPlace(v, n, q) }

  lemma SomePlaceExactly(v: Store, live: set<nat>, n: nat)
    requires TreeOk(v, live) && n in live
    ensures EntryFits(v, n) <==> SomePlace(v, n)
  {
    if q: nat :| q < 44 && HasPlace(v, n, q) {
      var i := Home(v, v.inodes[n].directp, 0);
      assert i <= q by { FullExactly(v, n, q); }
      forall r | 0 <= r < i ensures Full(v, n, r) { FullExactly(v, n, r); }
      FullExactly(v, n, i);
      if Ptr(v, n, i) == 0 && i < q { assert Ptr(v, n, q) == 0 by { assert Obeys(v, live, Packing); } }
      assert FirstPlace(v, n, i);
    }
  }

  /** Reserving another inode leaves the directory as it is. */
  lemma SameEntryFits(v: Store, w: Store, n: nat)
    requires v.Sized() && w.Sized() && n < INODES && w.inodes[n] == v.inodes[n]
    requires w.dirs == v.dirs && w.dataMap == v.dataMap
    ensures EntryFits(w, n) <==> EntryFits(v, n)
  {
    assert forall q: nat :: Ptr(w, n, q) == Ptr(v, n, q);
    assert forall q: nat, k: nat :: SlotOf(w, n, q, k) == SlotOf(v, n, q, k);
    forall q: nat ensures FirstPlace(w, n, q) == FirstPlace(v, n, q) {
      assert forall r: nat :: Full(w, n, r) == Full(v, n, r);
      assert HasPlace(w, n, q) == HasPlace(v, n, q);
    }
  }

  ghost predicate SomeInode(v: Store) { exists n :: 0 <= n < |v.inodeMap| && !v.inodeMap[n] }

  lemma NodeFitsExactly(v: Store, live: set<nat>, dir: nat, parent: nat, name: string, kind: Kind)
    requires TreeOk(v, live) && dir in live
    ensures NodeWrites(v, dir, parent, name, kind).ok <==>
              SomeInode(v) && SomePlace(v, dir)
  {
    var n := FirstFree(v.inodeMap);
    if n < INODES {
      assert !v.inodeMap[n];
      assert n != dir by { assert Obeys(v, live, Inodes); }
      EntryFitsExactly(WithInode(v, n, kind), dir, parent, name, n);
      SameEntryFits(v, WithInode(v, n, kind), dir);
      SomePlaceExactly(v, live, dir);
    }
  }

  ghost predicate LastSlashAt(path: string, i: nat) {
    i < |path| && path[i] == '/' && forall k :: i < k < |path| ==> path[k] != '/'
  }

  ghost predicate FoundBefore(v: Store, path: string, i: nat) { LastSlashAt(path, i) && NavPath(v, path[..i]).found }

  /** A path can be made: it is shorter than 255 characters, what stands before its last slash is found, an inode is
      unmarked, and the directory found has a place for an entry. */
  ghost predicate CanMake(v: Store, path: string) {
    && |path| < 255
    && (exists i: nat :: FoundBefore(v, path, i) && SomePlace(v, NavPath(v, path[..i]).targ))
    && SomeInode(v)
  }

  lemma NavStaysLive(v: Store, live: set<nat>, path: string)
    requires TreeOk(v, live) && NavPath(v, path).found
    ensures NavPath(v, path).targ in live
  {
    var comps := Components(path);
    if comps != [] {
      NavResolvesSurviving(v, 0, comps);
      ResolveStaysLive(v, live, 0, Surviving(v, 0, comps));
    }
  }

  lemma SlashExactly(path: string, i: nat)
    ensures LastSlashAt(path, i) <==> LastSlash(path, |path|) == i
  {
    if LastSlashAt(path, i) { LastSlashFrom(path, i, |path|); }
    if LastSlash(path, |path|) == i { NoneAfter(path, |path|); }
  }

  lemma {:induction false} NoneAfter(path: string, from: int)
    requires -1 <= from <= |path|
    ensures forall k :: LastSlash(path, from) < k <= from && k < |path| ==> path[k] != '/'
    decreases from
  {
    if from >= 0 && !(from < |path| && path[from] == '/') { NoneAfter(path, from - 1); }
  }

  ghost predicate CanMakeIn(v: Store, dir: string) {
    NavPath(v, dir).found && SomePlace(v, NavPath(v, dir).targ) && SomeInode(v)
  }

  lemma MakeInExactly(v: Store, live: set<nat>, dir: string, name: string, kind: Kind)
    requires TreeOk(v, live)
    ensures MakeIn(v, dir, name, kind).ok <==> CanMakeIn(v, dir)
  {
    var r := NavPath(v, dir);
    if r.found {
      NavStaysLive(v, live, dir);
      NodeFitsExactly(v, live, r.targ, r.par, name, kind);
    }
  }

  lemma CutExactly(v: Store, path: string, i: int)
    requires i == LastSlash(path, |path|)
    ensures CanMake(v, path) <==> |path| < 255 && i >= 0 && CanMakeIn(v, path[..i])
  {
    if j: nat :| FoundBefore(v, path, j) && SomePlace(v, NavPath(v, path[..j]).targ) { SlashExactly(path, j); }
    if i >= 0 && CanMakeIn(v, path[..i]) {
      SlashExactly(path, i);
      assert FoundBefore(v, path, i);
    }
  }

  /** create and mkdir succeed exactly on a path that can be made. */
  lemma MakeSucceedsExactly(v: Store, live: set<nat>, path: string, kind: Kind)
    requires TreeOk(v, live)
    ensures Make(v, path, kind).ok <==> CanMake(v, path)
  {
    var i := LastSlash(path, |path|);
    CutExactly(v, path, i);
    if i >= 0 && |path| < 255 {
      MakeCut(v, path, kind);
      MakeInExactly(v, live, path[..i], path[i + 1..], kind);
    }
  }

  // ---------------------------------------------------------------- what a new path lists

  lemma {:induction false} NothingListed(v: Store, directp: Direct, q: nat)
    requires q <= NUM_DIRECT && forall r :: 0 <= r < NUM_DIRECT ==> directp[r] == 0
    ensures Listing(v, directp, q) == []
    decreases NUM_DIRECT - q
  {
    if q < NUM_DIRECT { NothingListed(v, directp, q + 1); }
  }

  /** After a successful mkdir of a new path readdir lists nothing for it, not even dots; after a successful create it
      refuses. */
  lemma NewPathLists(v: Store, live: set<nat>, dir: seq<string>, name: string, kind: Kind)
    requires TreeOk(v, live) && Proper(dir + [name]) && Nameable(Render(dir + [name]))
    requires DotFree(dir + [name]) && Resolve(v, 0, dir).Some? && Resolve(v, 0, dir + [name]) == None
    requires Make(v, Render(dir + [name]), kind).ok
    ensures var o := Make(v, Render(dir + [name]), kind);
            && AllInRegion(o.writes)
            && Listed(ApplyAll(v, o.writes), Render(dir + [name])) == if kind == Directory then Some([]) else None
  {
    var path := Render(dir + [name]);
    var o := Make(v, path, kind);
    MakeRefinesTree(v, live, path, kind, o, |o.writes|);
    assert o.writes[..|o.writes|] == o.writes;
    CreatedPathIsFound(v, live, dir, name, kind);
    var w := ApplyAll(v, o.writes);
    NothingListed(w, w.inodes[FirstFree(v.inodeMap)].directp, 0);
  }
}
