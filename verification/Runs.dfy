/** Whole runs of the file system, with a crash possible at every write, and what a reader of the
    disk can rely on at any time. */
module Runs {
  import opened Volume
  import opened Lookup
  import opened Paths
  import opened Tree
  import opened TreeWrites
  import opened Creation
  import opened Operations

  // ---------------------------------------------------------------- runs

  /** One create or mkdir of which the first `cut` writes reach the disk. */
  datatype Step = Step(path: string, kind: Kind, cut: nat)

  ghost predicate Next(v: Store, w: Store, s: Step) {
    && v.Sized()
    && var o := Make(v, s.path, s.kind);
       AllInRegion(o.writes) && s.cut <= |o.writes| && w == ApplyAll(v, o.writes[..s.cut])
  }

  ghost predicate IsRun(states: seq<Store>, steps: seq<Step>) {
    && |states| == |steps| + 1
    && (forall i :: 0 <= i < |steps| ==> Nameable(steps[i].path) && Next(states[i], states[i + 1], steps[i]))
  }

  /** Every path of `a` is in `b` with the same inode. */
  ghost predicate Extends(a: imap<seq<string>, nat>, b: imap<seq<string>, nat>) {
    forall p :: p in a ==> p in b && b[p] == a[p]
  }

  lemma StepKeepsPaths(v: Store, live: set<nat>, w: Store, s: Step) returns (live': set<nat>)
    requires TreeOk(v, live) && Nameable(s.path) && Next(v, w, s)
    ensures TreeOk(w, live') && live <= live' && Extends(TreeOf(v), TreeOf(w))
  {
    var o := Make(v, s.path, s.kind);
    MakeRefinesTree(v, live, s.path, s.kind, o, s.cut);
    live' := if o.ok && s.cut == |o.writes| then live + {FirstFree(v.inodeMap)} else live;
  }

  /** Over every run, whatever operations are tried and wherever they are cut off, the disk stays a
      consistent tree and no path is ever lost or redirected. */
  lemma {:induction false} RunKeepsPaths(states: seq<Store>, steps: seq<Step>, live: set<nat>) returns (live': set<nat>)
    requires IsRun(states, steps) && TreeOk(states[0], live)
    ensures TreeOk(states[|steps|], live') && live <= live'
    ensures Extends(TreeOf(states[0]), TreeOf(states[|steps|]))
    decreases |steps|
  {
    if steps == [] {
      live' := live;
    } else {
      var next := StepKeepsPaths(states[0], live, states[1], steps[0]);
      live' := RunKeepsPaths(states[1..], steps[1..], next);
    }
  }

  /** A disk fresh from formatting: only the root, with its first directory block. */
  ghost predicate Formatted(v: Store) {
    && v.Sized()
    && (forall i :: 0 <= i < INODES ==> (v.inodeMap[i] <==> i == 0))
    && (forall b :: 0 <= b < DATA ==> (v.dataMap[b] <==> b == 0))
    && v.inodes[0].kind == Directory && v.inodes[0].ino == 0
    && v.inodes[0].directp[0] == DLIST && (forall q :: 0 < q < NUM_DIRECT ==> v.inodes[0].directp[q] == 0)
    && v.dirs[0][0] == Slot(0, ".") && (forall k :: 0 < k < SLOTS ==> !InUse(v.dirs[0][k]))
  }

  lemma FormattedIsTree(v: Store)
    requires Formatted(v)
    ensures TreeOk(v, {0})
    ensures TreeOf(v) == imap[[] := 0]
  {
    assert forall q: nat :: Ptr(v, 0, q) == if q == 0 then DLIST else 0;
    assert forall q: nat, k: nat :: InUse(SlotOf(v, 0, q, k)) ==> q == 0 && k == 0;
    assert SlotOf(v, 0, 0, 0) == Slot(0, ".");
    forall rule ensures Obeys(v, {0}, rule) {}
    forall comps | DotFree(comps) && comps != [] ensures Resolve(v, 0, comps) == None {
      if LookupIn(v, 0, comps[0]).Some? { var q, k := FoundAt(v, 0, comps[0], 0); }
    }
  }

  // ---------------------------------------------------------------- what a consistent disk promises

  /** Whatever a path leads to, dots included, is a marked and initialised inode whose pointers lead
      to marked data blocks. */
  lemma ReachableIsAllocated(v: Store, live: set<nat>, comps: seq<string>)
    requires TreeOk(v, live) && Resolve(v, 0, comps).Some?
    ensures var c := Resolve(v, 0, comps).value;
            && c < INODES && v.inodeMap[c] && v.inodes[c].ino == c
            && forall q :: 0 <= q < NUM_DIRECT && v.inodes[c].directp[q] != 0 ==>
                 DLIST <= v.inodes[c].directp[q] < DLIST + DATA && v.dataMap[v.inodes[c].directp[q] - DLIST]
  {
    ResolveStaysLive(v, live, 0, comps);
    assert Obeys(v, live, Inodes) && Obeys(v, live, Pointers);
    var c := Resolve(v, 0, comps).value;
    assert forall q :: 0 <= q < NUM_DIRECT ==> Ptr(v, c, q) == v.inodes[c].directp[q];
  }

  /** No data block belongs to two (inode, pointer) pairs. */
  lemma NoSharedBlocks(v: Store, live: set<nat>, a: seq<string>, b: seq<string>, q: nat, r: nat)
    requires TreeOk(v, live) && q < NUM_DIRECT && r < NUM_DIRECT
    requires Resolve(v, 0, a).Some? && Resolve(v, 0, b).Some?
    requires Resolve(v, 0, a).value < INODES && Resolve(v, 0, b).value < INODES
    requires v.inodes[Resolve(v, 0, a).value].directp[q] == v.inodes[Resolve(v, 0, b).value].directp[r] != 0
    ensures Resolve(v, 0, a) == Resolve(v, 0, b) && q == r
  {
    ResolveStaysLive(v, live, 0, a);
    ResolveStaysLive(v, live, 0, b);
    assert Obeys(v, live, Pointers);
    assert Ptr(v, Resolve(v, 0, a).value, q) == Ptr(v, Resolve(v, 0, b).value, r);
  }

  /** The dot-free paths form a tree rooted at inode 0: no inode has two paths, the root has only the
      empty one, and every non-empty path has a parent path. */
  lemma PathsFormTree(v: Store, live: set<nat>)
    requires TreeOk(v, live)
    ensures [] in TreeOf(v) && TreeOf(v)[[]] == 0
    ensures forall a, b :: a in TreeOf(v) && b in TreeOf(v) && TreeOf(v)[a] == TreeOf(v)[b] ==> a == b
    ensures forall a :: a in TreeOf(v) && a != [] ==> Front(a) in TreeOf(v) && TreeOf(v)[Front(a)] < TreeOf(v)[a]
  {
    var t := TreeOf(v);
    forall a, b | a in t && b in t && t[a] == t[b] ensures a == b { OnePath(v, live, a, b); }
    forall a | a in t && a != [] ensures Front(a) in t && t[Front(a)] < t[a] { ParentPath(v, live, a); }
  }

  lemma ParentPath(v: Store, live: set<nat>, a: seq<string>)
    requires TreeOk(v, live) && a in TreeOf(v) && a != []
    ensures Front(a) in TreeOf(v) && TreeOf(v)[Front(a)] < TreeOf(v)[a]
  {
    var n := LastStep(v, live, a);
    LookupStaysLive(v, live, n, a[|a| - 1]);
  }

  /** A directory has its dot entries exactly if it has a block. mkdir gives it none: it gets them with the first
      entry that is made in it. The root has only ".". */
  lemma DotEntriesExactly(v: Store, live: set<nat>, n: nat)
    requires TreeOk(v, live) && n in live
    ensures LookupIn(v, n, ".").Some? <==> v.inodes[n].directp[0] != 0
    ensures LookupIn(v, n, "..").Some? <==> n != 0 && v.inodes[n].directp[0] != 0
  {
    assert Ptr(v, n, 0) == v.inodes[n].directp[0];
    if LookupIn(v, n, ".").Some? { FirstBlock(v, live, n, "."); }
    if LookupIn(v, n, "..").Some? {
      FirstBlock(v, live, n, "..");
      DotDotBelowRoot(v, live, n);
    }
    if Ptr(v, n, 0) != 0 {
      assert SlotOf(v, n, 0, 0) == Slot(n, ".") by { assert Obeys(v, live, Self); }
      SlotIsFound(v, n, 0, ".");
      if n != 0 {
        assert Matches(SlotOf(v, n, 0, 1), "..") by { assert Obeys(v, live, DotDot); }
        SlotIsFound(v, n, 1, "..");
      }
    }
  }

  lemma SlotIsFound(v: Store, n: nat, k: nat, name: string)
    requires n < |v.inodes| && Ptr(v, n, 0) != 0 && k < SLOTS && Matches(SlotOf(v, n, 0, k), name)
    ensures LookupIn(v, n, name).Some?
  {
    assert Matches(SlotsAt(v, v.inodes[n].directp[0])[k], name);
  }

  lemma FirstBlock(v: Store, live: set<nat>, n: nat, name: string)
    requires TreeOk(v, live) && n in live && LookupIn(v, n, name).Some?
    ensures Ptr(v, n, 0) != 0
  {
    var q, k := FoundAt(v, n, name, 0);
    assert Obeys(v, live, Packing);
  }

  lemma DotDotBelowRoot(v: Store, live: set<nat>, n: nat)
    requires TreeOk(v, live) && n in live && LookupIn(v, n, "..").Some?
    ensures n != 0
  {
    var q, k := FoundAt(v, n, "..", 0);
    assert Obeys(v, live, Self);
    assert SlotOf(v, n, q, 0).name == ".";
  }

  /** ".." leads back to the directory that a dot-free path came through, exactly if there is a block for it. */
  lemma DotDotLeadsBack(v: Store, live: set<nat>, a: seq<string>)
    requires TreeOk(v, live) && DotFree(a) && a != [] && Resolve(v, 0, a).Some?
    ensures var c := Resolve(v, 0, a).value;
            && c in live && c < |v.inodes|
            && LookupIn(v, c, "..") == if v.inodes[c].directp[0] != 0 then Resolve(v, 0, Front(a)) else None
  {
    var c := Resolve(v, 0, a).value;
    var n := LastStep(v, live, a);
    ResolveStaysLive(v, live, 0, a);
    LookupStaysLive(v, live, n, a[|a| - 1]);
    DotEntriesExactly(v, live, c);
    if LookupIn(v, c, "..").Some? { DotDotIsParent(v, live, c, n, a[|a| - 1]); }
  }

  lemma DotDotIsParent(v: Store, live: set<nat>, c: nat, n: nat, name: string)
    requires TreeOk(v, live) && c in live && n in live && !IsDot(name) && LookupIn(v, n, name) == Some(c)
    requires LookupIn(v, c, "..").Some?
    ensures LookupIn(v, c, "..") == Some(n)
  {
    var q, k := FoundAt(v, c, "..", 0);
    var r, l := FoundAt(v, n, name, 0);
    assert EntryFor(v, n, r, l, c);
    assert Obeys(v, live, Self) && Obeys(v, live, DotDot) && Obeys(v, live, LiveSlots) && Obeys(v, live, SingleEntry);
    assert k == 1;
    var d := SlotOf(v, c, q, 1).inum;
    var q', k' :| EntryFor(v, d, q', k', c);
  }

  /** A canonical path whose directory resolves and whose name is new leads to the new inode after a
      successful create or mkdir, and navPath finds it there, beside its parent. */
  lemma CreatedPathIsFound(v: Store, live: set<nat>, dir: seq<string>, name: string, kind: Kind)
    requires TreeOk(v, live) && Proper(dir + [name]) && Nameable(Render(dir + [name]))
    requires DotFree(dir + [name]) && Resolve(v, 0, dir).Some? && Resolve(v, 0, dir + [name]) == None
    requires Make(v, Render(dir + [name]), kind).ok
    ensures var o := Make(v, Render(dir + [name]), kind);
            && AllInRegion(o.writes)
            && NavPath(ApplyAll(v, o.writes), Render(dir + [name]))
               == NavResult(true, Resolve(v, 0, dir).value, FirstFree(v.inodeMap))
  {
    var q := dir + [name];
    var path := Render(q);
    var o := Make(v, path, kind);
    BindingOfCanonical(v, dir, name);
    BoundAfter(v, live, path, kind, o, dir, name);
    assert Front(q) == dir;
    FoundByNav(ApplyAll(v, o.writes), q);
    assert Components(path) == q by { ComponentsRoundTrip(q); }
    assert |q| <= MAX_STEPS by { ShortPath(path, 1); }
  }

  lemma BoundAfter(v: Store, live: set<nat>, path: string, kind: Kind, o: Outcome, dir: seq<string>, name: string)
    requires TreeOk(v, live) && Nameable(path) && o == Make(v, path, kind) && o.ok
    requires Binding(v, path) == dir + [name] && DotFree(dir + [name])
    requires Resolve(v, 0, dir).Some? && Resolve(v, 0, dir + [name]) == None
    ensures |path| < MAX_PATH && AllInRegion(o.writes)
    ensures Resolve(ApplyAll(v, o.writes), 0, dir + [name]) == Some(FirstFree(v.inodeMap))
    ensures Resolve(ApplyAll(v, o.writes), 0, dir) == Resolve(v, 0, dir)
  {
    MakeRefinesTree(v, live, path, kind, o, |o.writes|);
    assert o.writes[..|o.writes|] == o.writes;
    var w := ApplyAll(v, o.writes);
    assert dir + [name] in TreeOf(w) && TreeOf(w)[dir + [name]] == FirstFree(v.inodeMap);
    assert DotFree(dir) by { assert forall i :: 0 <= i < |dir| ==> dir[i] == (dir + [name])[i]; }
    assert dir != dir + [name];
    assert dir in TreeOf(v) && dir in TreeOf(w);
  }

  lemma BindingOfCanonical(v: Store, dir: seq<string>, name: string)
    requires Proper(dir + [name]) && Resolve(v, 0, dir).Some?
    ensures Binding(v, Render(dir + [name])) == dir + [name]
  {
    var path := Render(dir + [name]);
    assert ProperName(name) by { assert name in dir + [name]; }
    assert Proper(dir) by { assert forall c :: c in dir ==> c in dir + [name]; }
    SplitRoundTrip(dir, name);
    ComponentsRoundTrip(dir);
    if dir != [] { AllSurvive(v, dir); }
    BindingIs(v, path, Render(dir), dir, name);
  }

  lemma BindingIs(v: Store, path: string, currdir: string, dir: seq<string>, name: string)
    requires var i := LastSlash(path, |path|); i >= 0 && path[..i] == currdir && path[i + 1..] == name
    requires Components(currdir) == dir && Surviving(v, 0, dir) == dir
    ensures Binding(v, path) == dir + [name]
  {}

  lemma AllSurvive(v: Store, dir: seq<string>)
    requires dir != [] && Resolve(v, 0, dir).Some?
    ensures Surviving(v, 0, dir) == dir && Resolve(v, 0, Front(dir)).Some?
  {
    var last := [dir[|dir| - 1]];
    assert dir == Front(dir) + last;
    ResolveSplit(v, 0, Front(dir), last);
    SurvivingIsAll(v, 0, dir);
  }

  lemma FoundByNav(w: Store, q: seq<string>)
    requires q != [] && Resolve(w, 0, q).Some?
    ensures Nav(w, 0, q) == NavResult(true, if Resolve(w, 0, Front(q)).Some? then Resolve(w, 0, Front(q)).value
            else 0, Resolve(w, 0, q).value)
  {
    AllSurvive(w, q);
    NavResolvesSurviving(w, 0, q);
  }

  // ---------------------------------------------------------------- reservations

  datatype Request = DataBlock | NewInode(kind: Kind)

  /** reserveFreeData and reserveFreeInode: the block or inode number handed out, if any. */
  ghost function Granted(v: Store, r: Request): Option<nat>
    requires v.Sized()
  {
    match r
    case DataBlock => if FirstFree(v.dataMap) < DATA then Some(DLIST + FirstFree(v.dataMap)) else None
    case NewInode(_) => if FirstFree(v.inodeMap) < INODES then Some(FirstFree(v.inodeMap)) else None
  }

  ghost function AfterRequest(v: Store, r: Request): (w: Store)
    requires v.Sized()
    ensures w.Sized()
  {
    match r
    case DataBlock => if FirstFree(v.dataMap) < DATA then Apply(v, MarkData(FirstFree(v.dataMap))) else v
    case NewInode(kind) =>
      var n := FirstFree(v.inodeMap);
      if n < INODES then Apply(Apply(v, MarkInode(n)), PutInode(n, FreshInode(n, kind))) else v
  }

  ghost function Grants(v: Store, rs: seq<Request>): (g: seq<Option<nat>>)
    requires v.Sized()
    ensures |g| == |rs|
    decreases |rs|
  {
    if rs == [] then [] else [Granted(v, rs[0])] + Grants(AfterRequest(v, rs[0]), rs[1..])
  }

  lemma {:induction false} NeverGrantsMarked(v: Store, rs: seq<Request>, n: nat, i: nat)
    requires v.Sized() && i < |rs|
    ensures n < INODES && v.inodeMap[n] && rs[i].NewInode? ==> Grants(v, rs)[i] != Some(n)
    ensures n < DATA && v.dataMap[n] && rs[i].DataBlock? ==> Grants(v, rs)[i] != Some(DLIST + n)
    ensures rs[i].NewInode? && Grants(v, rs)[i].Some? ==> Grants(v, rs)[i].value < INODES
    ensures rs[i].DataBlock? && Grants(v, rs)[i].Some? ==> DLIST <= Grants(v, rs)[i].value < DLIST + DATA
    decreases |rs|
  {
    if i > 0 { NeverGrantsMarked(AfterRequest(v, rs[0]), rs[1..], n, i - 1); }
  }

  /** Every reservation that succeeds stays in its region: blocks in the data region, inodes in the inode table,
      and inode 0, which stands for failure, is never handed out. */
  lemma GrantsStayInRange(v: Store, rs: seq<Request>, i: nat)
    requires v.Sized() && v.inodeMap[0] && i < |rs| && Grants(v, rs)[i].Some?
    ensures rs[i].NewInode? ==> 0 < Grants(v, rs)[i].value < INODES
    ensures rs[i].DataBlock? ==> 1089 <= Grants(v, rs)[i].value < 31809
  {
    NeverGrantsMarked(v, rs, 0, i);
  }

  /** Over any sequence of reservations nothing is handed out twice. */
  lemma {:induction false} NothingGrantedTwice(v: Store, rs: seq<Request>, i: nat, j: nat)
    requires v.Sized() && i < j < |rs| && rs[i].DataBlock? == rs[j].DataBlock?
    ensures Grants(v, rs)[i].Some? ==> Grants(v, rs)[i] != Grants(v, rs)[j]
    decreases |rs|
  {
    var w := AfterRequest(v, rs[0]);
    if i > 0 {
      NothingGrantedTwice(w, rs[1..], i - 1, j - 1);
    } else if Granted(v, rs[0]).Some? {
      var n := Granted(v, rs[0]).value;
      NeverGrantsMarked(w, rs[1..], if rs[0].DataBlock? then n - DLIST else n, j - 1);
    }
  }

  /** A reservation fails exactly when its map is full. */
  lemma FailsOnlyWhenFull(v: Store, r: Request)
    requires v.Sized()
    ensures Granted(v, r) == None <==>
            match r case DataBlock => (forall i :: 0 <= i < DATA ==> v.dataMap[i])
                    case NewInode(_) => (forall i :: 0 <= i < INODES ==> v.inodeMap[i])
  {
    assert r.DataBlock? && FirstFree(v.dataMap) < DATA ==> !v.dataMap[FirstFree(v.dataMap)];
  }
}
