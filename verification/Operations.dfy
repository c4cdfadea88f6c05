/** The file system's operations as functions on the stored tables, and the results about whole
    operations and whole runs, crashes included. */
module Operations {
  import opened Volume
  import opened Lookup
  import opened Paths
  import opened Tree
  import opened TreeWrites
  import opened Creation

  const MAX_STEPS := 10000
  const MAX_PATH := 255

  /** navPath on a path string; it gives up after 10000 components. */
  ghost function NavPath(v: Store, path: string): NavResult {
    if |Components(path)| > MAX_STEPS then NavResult(false, 0, 0) else Nav(v, 0, Components(path))
  }

  /** create and mkdir differ only in the kind of the new inode. */
  ghost function Make(v: Store, path: string, kind: Kind): Outcome
    requires v.Sized()
  {
    var i := LastSlash(path, |path|);
    if |path| >= MAX_PATH || i < 0 then Outcome(false, []) else MakeIn(v, path[..i], path[i + 1..], kind)
  }

  /** The same with the path cut in two. */
  ghost function MakeIn(v: Store, dir: string, name: string, kind: Kind): Outcome
    requires v.Sized()
  {
    var r := NavPath(v, dir);
    if !r.found || r.targ >= INODES then Outcome(false, []) else NodeWrites(v, r.targ, r.par, name, kind)
  }

  /** The names in a path fit the name buffers and are not "." or ".."; the kernel resolves those
      before it calls the file system. */
  ghost predicate Nameable(path: string) {
    var i := LastSlash(path, |path|);
    i >= 0 && |path| < MAX_PATH ==>
      && (forall c :: c in Components(path[..i]) ==> !IsDot(c) && |c| < MAX_FNAME)
      && !IsDot(path[i + 1..]) && |path[i + 1..]| < MAX_FNAME
  }

  /** The path under which the new entry appears: the directory components that navPath follows,
      and the new name. */
  ghost function Binding(v: Store, path: string): (r: seq<string>)
    ensures r != []
  {
    var i := LastSlash(path, |path|);
    if i < 0 then [path] else Surviving(v, 0, Components(path[..i])) + [path[i + 1..]]
  }

  lemma ShortPath(path: string, i: nat)
    requires i <= |path|
    ensures |Words(path, i)| <= |path| - i + 1
    decreases |path| - i
  {}

  /** navPath finds a live directory together with its parent. */
  lemma NavFindsParent(v: Store, live: set<nat>, comps: seq<string>)
    requires TreeOk(v, live) && DotFree(comps) && Nav(v, 0, comps).found
    ensures var r := Nav(v, 0, comps); var p := Surviving(v, 0, comps);
            r.targ in live && ParentOk(v, live, r.targ, r.par) && DotFree(p) && Resolve(v, 0, p) == Some(r.targ)
  {
    if comps != [] {
      var p := Surviving(v, 0, comps);
      NavResolvesSurviving(v, 0, comps);
      forall i | 0 <= i < |p| ensures !IsDot(p[i]) { assert p[i] in comps; }
      var n := LastStep(v, live, p);
      LookupStaysLive(v, live, n, p[|p| - 1]);
    }
  }

  lemma {:induction false} InodeUntouched(v: Store, ws: seq<Write>, n: nat)
    requires v.Sized() && AllInRegion(ws) && n < INODES
    requires forall i :: 0 <= i < |ws| && ws[i].PutInode? ==> ws[i].n != n
    ensures ApplyAll(v, ws).inodes[n] == v.inodes[n]
    decreases |ws|
  {
    if ws != [] { InodeUntouched(v, ws[..|ws| - 1], n); }
  }

  lemma EntryPutsDirOnly(v: Store, dir: nat, parent: nat, name: string, n: nat)
    requires v.Sized() && dir < INODES && v.inodes[dir].ino == dir
    ensures forall w :: w in EntryWrites(v, dir, parent, name, n).writes && w.PutInode? ==> w.n == dir
  {}

  lemma NewInodeKept(v: Store, n: nat, dir: nat, kind: Kind, b: Outcome)
    requires v.Sized() && n < INODES && n != dir && AllInRegion(b.writes)
    requires forall w :: w in b.writes && w.PutInode? ==> w.n == dir
    ensures AllInRegion(After(n, kind, b).writes)
    ensures ApplyAll(v, After(n, kind, b).writes).inodes[n] == FreshInode(n, kind)
  {
    InodeWritesApply(v, n, kind);
    ApplyConcat(v, InodeWrites(n, kind), b.writes);
    InodeUntouched(WithInode(v, n, kind), b.writes, n);
  }

  lemma PartInRegion(n: nat, kind: Kind, b: Outcome)
    requires AllInRegion(After(n, kind, b).writes)
    ensures AllInRegion(b.writes)
  {
    assert forall i :: 0 <= i < |b.writes| ==> b.writes[i] == After(n, kind, b).writes[i + 2];
  }

  lemma NodeHasInode(v: Store, live: set<nat>, dir: nat, parent: nat, name: string, kind: Kind, o: Outcome)
    requires TreeOk(v, live) && dir in live && o == NodeWrites(v, dir, parent, name, kind) && o.ok
            && AllInRegion(o.writes)
    ensures var n := FirstFree(v.inodeMap);
            n < INODES && n !in live && !v.inodeMap[n] && ApplyAll(v, o.writes).inodes[n] == FreshInode(n, kind)
  {
    var n := FirstFree(v.inodeMap);
    assert n != dir && n !in live && v.inodes[dir].ino == dir by { assert Obeys(v, live, Inodes); }
    var u := WithInode(v, n, kind);
    var b := EntryWrites(u, dir, parent, name, n);
    PartInRegion(n, kind, b);
    EntryPutsDirOnly(u, dir, parent, name, n);
    NewInodeKept(v, n, dir, kind, b);
  }

  /** After the first `k` writes of `o`: all of a successful operation's writes bind `q` to the fresh
      inode `n`, unless `q` was bound; anything less leaves the abstract tree as it was. */
  ghost predicate Refines(v: Store, o: Outcome, k: nat, live: set<nat>, q: seq<string>, kind: Kind)
    requires v.Sized() && AllInRegion(o.writes) && k <= |o.writes|
  {
    var w := ApplyAll(v, o.writes[..k]);
    var n := FirstFree(v.inodeMap);
    if o.ok && k == |o.writes| then
      && TreeOk(w, live + {n}) && n !in live && n < INODES && !v.inodeMap[n]
      && w.inodes[n].kind == kind && w.inodes[n].ino == n && (forall q :: 0 <= q < 44 ==> w.inodes[n].directp[q] == 0)
      && TreeOf(w) == if q in TreeOf(v) then TreeOf(v) else TreeOf(v)[q := n]
    else
      TreeOk(w, live) && TreeOf(w) == TreeOf(v)
  }

  lemma AddedRefines(v: Store, w: Store, live: set<nat>, dir: nat, n: nat, name: string, p: seq<string>)
    requires TreeOk(v, live) && Added(v, w, live, dir, n, name) && !IsDot(name)
    requires DotFree(p) && Resolve(v, 0, p) == Some(dir)
    ensures TreeOf(w) == if p + [name] in TreeOf(v) then TreeOf(v) else TreeOf(v)[p + [name] := n]
  {
    var q := p + [name];
    assert DotFree(q);
    var fresh_ := q !in TreeOf(v);
    forall comps | DotFree(comps)
      ensures Resolve(w, 0, comps) == if comps == q && fresh_ then Some(n) else Resolve(v, 0, comps)
    {
      OnlyNewPath(v, live, dir, name, p, comps);
    }
    BoundTree(v, w, q, n, fresh_);
  }

  lemma BoundTree(v: Store, w: Store, q: seq<string>, n: nat, fresh_: bool)
    requires DotFree(q) && fresh_ == (q !in TreeOf(v))
    requires forall comps :: DotFree(comps) ==>
               Resolve(w, 0, comps) == if comps == q && fresh_ then Some(n) else Resolve(v, 0, comps)
    ensures TreeOf(w) == if fresh_ then TreeOf(v)[q := n] else TreeOf(v)
  {
  }

  lemma OnlyNewPath(v: Store, live: set<nat>, dir: nat, name: string, p: seq<string>, comps: seq<string>)
    requires TreeOk(v, live) && !IsDot(name) && DotFree(p) && Resolve(v, 0, p) == Some(dir) && DotFree(comps)
    ensures NewPath(v, 0, comps, dir, name) <==> comps == p + [name] && p + [name] !in TreeOf(v)
  {
    var q := p + [name];
    assert Front(q) == p && DotFree(q);
    ResolveSplit(v, 0, p, [name]);
    assert [name][1..] == [];
    if NewPath(v, 0, comps, dir, name) {
      OnePath(v, live, Front(comps), p);
      SameFrontAndLast(comps, q);
    }
  }

  /** `q` is a directory path leading to `dir` and one more usable name. */
  ghost predicate NewName(v: Store, q: seq<string>, dir: nat)
    requires q != []
  {
    !IsDot(q[|q| - 1]) && |q[|q| - 1]| < MAX_FNAME && DotFree(Front(q)) && Resolve(v, 0, Front(q)) == Some(dir)
  }

  lemma SamePathsSameTree(v: Store, w: Store)
    requires SamePaths(v, w)
    ensures TreeOf(w) == TreeOf(v)
  {}

  lemma NodeRefinesAll(v: Store, live: set<nat>, dir: nat, parent: nat, q: seq<string>, kind: Kind, o: Outcome)
    requires TreeOk(v, live) && dir in live && q != [] && NewName(v, q, dir)
    requires o == NodeWrites(v, dir, parent, q[|q| - 1], kind) && o.ok && AllInRegion(o.writes)
    requires Added(v, ApplyAll(v, o.writes), live, dir, FirstFree(v.inodeMap), q[|q| - 1])
    ensures Refines(v, o, |o.writes|, live, q, kind)
  {
    NodeHasInode(v, live, dir, parent, q[|q| - 1], kind, o);
    assert o.writes[..|o.writes|] == o.writes;
    AddedRefines(v, ApplyAll(v, o.writes), live, dir, FirstFree(v.inodeMap), q[|q| - 1], Front(q));
    assert q == Front(q) + [q[|q| - 1]];
  }

  lemma NodeRefines(v: Store, live: set<nat>, dir: nat, parent: nat, q: seq<string>, kind: Kind, o: Outcome, k: nat)
    requires TreeOk(v, live) && dir in live && ParentOk(v, live, dir, parent)
    requires q != [] && NewName(v, q, dir)
    requires o == NodeWrites(v, dir, parent, q[|q| - 1], kind) && k <= |o.writes|
    ensures AllInRegion(o.writes) && Refines(v, o, k, live, q, kind)
  {
    NodeCrash(v, live, dir, parent, q[|q| - 1], kind);
    if o.ok && k == |o.writes| {
      NodeRefinesAll(v, live, dir, parent, q, kind, o);
    } else {
      SamePathsSameTree(v, ApplyAll(v, o.writes[..k]));
    }
  }

  lemma NothingRefines(v: Store, live: set<nat>, q: seq<string>, kind: Kind)
    requires TreeOk(v, live)
    ensures Refines(v, Outcome(false, []), 0, live, q, kind)
  {}

  /** Either the operation writes nothing, or it works in a live directory named by all but the last
      component of the binding. */
  lemma MakeCases(v: Store, live: set<nat>, path: string, kind: Kind) returns (dir: nat, parent: nat)
    requires TreeOk(v, live) && Nameable(path)
    ensures Make(v, path, kind) == Outcome(false, []) ||
            var q := Binding(v, path);
            && dir in live && ParentOk(v, live, dir, parent) && NewName(v, q, dir)
            && Make(v, path, kind) == NodeWrites(v, dir, parent, q[|q| - 1], kind)
  {
    var i := LastSlash(path, |path|);
    dir, parent := 0, 0;
    if |path| < MAX_PATH && i >= 0 && NavPath(v, path[..i]).found {
      var comps := Components(path[..i]);
      assert DotFree(comps) by { assert forall j :: 0 <= j < |comps| ==> comps[j] in comps; }
      NavFindsParent(v, live, comps);
      dir, parent := Nav(v, 0, comps).targ, Nav(v, 0, comps).par;
      assert Front(Binding(v, path)) == Surviving(v, 0, comps);
    }
  }

  /** What a create or mkdir does to the abstract tree, whatever prefix of its writes reaches the
      disk: before the last write nothing; after it, the new path is bound to a fresh inode of the
      right kind, unless the name was taken. A failed operation binds nothing. */
  lemma MakeRefinesTree(v: Store, live: set<nat>, path: string, kind: Kind, o: Outcome, k: nat)
    requires TreeOk(v, live) && Nameable(path) && o == Make(v, path, kind) && k <= |o.writes|
    ensures AllInRegion(o.writes)
    ensures Refines(v, o, k, live, Binding(v, path), kind)
  {
    var dir, parent := MakeCases(v, live, path, kind);
    if o == Outcome(false, []) {
      NothingRefines(v, live, Binding(v, path), kind);
    } else {
      NodeRefines(v, live, dir, parent, Binding(v, path), kind, o, k);
    }
  }
}
