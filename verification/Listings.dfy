/** Listing a directory and looking a path up, compared on whole paths, and where the two part. */
module Listings {
  import opened Volume
  import opened Lookup
  import opened Paths
  import opened Tree
  import opened TreeWrites
  import opened Creation
  import opened Operations
  import opened Runs

  /** What readdir lists for a path, with a filler that takes everything; None where it refuses. */
  ghost function Listed(v: Store, path: string): Option<seq<string>>
    requires v.Sized()
  {
    var d := NavPath(v, path).targ;
    if d < INODES && v.inodes[d].kind == Directory then Some(Listing(v, v.inodes[d].directp, 0)) else None
  }

  /** navPath on a canonical path that resolves. */
  lemma NavOfCanonical(v: Store, dir: seq<string>)
    requires Proper(dir) && |dir| <= MAX_STEPS && Resolve(v, 0, dir).Some?
    ensures NavPath(v, Render(dir)).found && NavPath(v, Render(dir)).targ == Resolve(v, 0, dir).value
  {
    ComponentsRoundTrip(dir);
    if dir != [] { FoundByNav(v, dir); }
  }

  lemma NavOfEntry(v: Store, dir: seq<string>, name: string)
    requires Proper(dir + [name]) && |dir| < MAX_STEPS && Resolve(v, 0, dir).Some?
    ensures NavPath(v, Render(dir + [name])).found <==> LookupIn(v, Resolve(v, 0, dir).value, name).Some?
  {
    ComponentsRoundTrip(dir + [name]);
    NavLands(v, 0, dir, name);
    LandsWhereItResolves(v, 0, dir);
  }

  /** readdir on a path lists a name exactly if the path leads to a directory and navPath finds path/name. */
  lemma ListedIffPathFound(v: Store, dir: seq<string>, name: string)
    requires v.Sized() && Proper(dir + [name]) && |dir| < MAX_STEPS
    requires Resolve(v, 0, dir).Some? && Resolve(v, 0, dir).value < INODES
    ensures var d := v.inodes[Resolve(v, 0, dir).value];
            && (Listed(v, Render(dir)).Some? <==> d.kind == Directory)
            && (Listed(v, Render(dir)).Some? && name in Listed(v, Render(dir)).value
                <==> d.kind == Directory && NavPath(v, Render(dir + [name])).found)
  {
    assert Proper(dir) by { assert forall c :: c in dir ==> c in dir + [name]; }
    NavOfCanonical(v, dir);
    NavOfEntry(v, dir, name);
    ListedIffFound(v, v.inodes[Resolve(v, 0, dir).value].directp, name, 0);
  }

  // ---------------------------------------------------------------- two runs

  /** A name that can stand in a path and fits the buffers. */
  ghost predicate Good(name: string) { ProperName(name) && !IsDot(name) && |name| < MAX_FNAME }

  lemma GoodPath(dir: seq<string>, name: string)
    requires |dir| <= 1 && (forall c :: c in dir ==> Good(c)) && Good(name)
    ensures Proper(dir + [name]) && DotFree(dir + [name])
    ensures Nameable(Render(dir + [name])) && |Render(dir + [name])| < MAX_PATH
  {
    assert forall c :: c in dir + [name] ==> c in dir || c == name;
    SplitRoundTrip(dir, name);
    RenderAppend(dir, name);
    assert Proper(dir);
    ComponentsRoundTrip(dir);
    if dir != [] { assert dir == [dir[0]] && Render(dir) == "/" + (dir[0] + Render(dir[1..])) && dir[0] in dir; }
    assert forall i :: 0 <= i < |dir + [name]| ==> (dir + [name])[i] in dir + [name];
  }

  lemma MakeCut(v: Store, path: string, kind: Kind)
    requires v.Sized() && |path| < MAX_PATH && LastSlash(path, |path|) >= 0
    ensures var i := LastSlash(path, |path|); Make(v, path, kind) == MakeIn(v, path[..i], path[i + 1..], kind)
  {
  }

  lemma MakeInIs(v: Store, dir: string, name: string, kind: Kind)
    requires v.Sized() && NavPath(v, dir).found && NavPath(v, dir).targ < INODES
    ensures MakeIn(v, dir, name, kind) == NodeWrites(v, NavPath(v, dir).targ, NavPath(v, dir).par, name, kind)
  {
  }

  lemma GoodMakes(v: Store, dir: seq<string>, name: string, kind: Kind) returns (parent: nat)
    requires v.Sized() && |dir| <= 1 && (forall c :: c in dir ==> Good(c)) && Good(name)
    requires Resolve(v, 0, dir).Some? && Resolve(v, 0, dir).value < INODES
    ensures Make(v, Render(dir + [name]), kind) == NodeWrites(v, Resolve(v, 0, dir).value, parent, name, kind)
  {
    var path := Render(dir + [name]);
    assert |path| < MAX_PATH && Proper(dir) by {
      GoodPath(dir, name);
      assert forall c :: c in dir ==> c in dir + [name];
    }
    parent := NavPath(v, Render(dir)).par;
    assert MakeIn(v, Render(dir), name, kind) == NodeWrites(v, Resolve(v, 0, dir).value, parent, name, kind) by {
      NavOfCanonical(v, dir);
      MakeInIs(v, Render(dir), name, kind);
    }
    assert Make(v, path, kind) == MakeIn(v, Render(dir), name, kind) by {
      SplitRoundTrip(dir, name);
      MakeCut(v, path, kind);
    }
  }

  /** There is room for an entry in a formatted root, and in an inode without blocks. */
  lemma RootTakes(v: Store, parent: nat, name: string, kind: Kind)
    requires Formatted(v)
    ensures FirstFree(v.inodeMap) == 1 && NodeWrites(v, 0, parent, name, kind).ok
  {
    FirstFreeIs(v.inodeMap, 1);
    var w := WithInode(v, 1, kind);
    assert w.inodes[0] == v.inodes[0] && SlotsAt(w, DLIST) == v.dirs[0];
    assert HasRoom(w, w.inodes[0].directp[0]);
    HomeIs(w, w.inodes[0].directp, 0, 0);
  }

  lemma EmptyTakes(v: Store, n: nat, parent: nat, name: string, kind: Kind)
    requires v.Sized() && n < INODES && v.inodes[n].directp[0] == 0 && FirstFree(v.dataMap) < DATA
    requires n < FirstFree(v.inodeMap) < INODES
    ensures NodeWrites(v, n, parent, name, kind).ok
  {
    var w := WithInode(v, FirstFree(v.inodeMap), kind);
    HomeIs(w, w.inodes[n].directp, 0, 0);
  }

  lemma OneStepRun(v: Store, path: string, kind: Kind, o: Outcome, w: Store)
    requires v.Sized() && Nameable(path) && o == Make(v, path, kind)
    requires AllInRegion(o.writes) && w == ApplyAll(v, o.writes)
    ensures IsRun([v, w], [Step(path, kind, |o.writes|)])
  {
    WholeStep(v, path, kind, o, w);
  }

  lemma WholeStep(v: Store, path: string, kind: Kind, o: Outcome, w: Store)
    requires v.Sized() && o == Make(v, path, kind) && AllInRegion(o.writes) && w == ApplyAll(v, o.writes)
    ensures Next(v, w, Step(path, kind, |o.writes|))
  {
    assert o.writes[..|o.writes|] == o.writes;
  }

  lemma FirstWorks(v: Store, name: string)
    requires Formatted(v) && Good(name)
    ensures FirstFree(v.inodeMap) == 1 && Make(v, Render([name]), Regular).ok && Binding(v, Render([name])) == [name]
    ensures Nameable(Render([name]))
  {
    assert [] + [name] == [name];
    GoodPath([], name);
    var parent := GoodMakes(v, [], name, Regular);
    RootTakes(v, parent, name, Regular);
    BindingOfCanonical(v, [], name);
  }

  /** The disk after one file was created in a formatted root. */
  lemma AfterFirst(v: Store, name: string) returns (o: Outcome, w: Store)
    requires Formatted(v) && Good(name)
    ensures o == Make(v, Render([name]), Regular) && o.ok && AllInRegion(o.writes) && w == ApplyAll(v, o.writes)
    ensures Nameable(Render([name])) && TreeOk(w, {0, 1}) && w.inodes[1].kind == Regular && w.inodes[1].directp[0] == 0
    ensures TreeOf(w) == imap[[] := 0, [name] := 1]
  {
    FormattedIsTree(v);
    FirstWorks(v, name);
    o := Make(v, Render([name]), Regular);
    MakeRefinesTree(v, {0}, Render([name]), Regular, o, |o.writes|);
    assert o.writes[..|o.writes|] == o.writes;
    w := ApplyAll(v, o.writes);
    assert {0} + {1} == {0, 1};
    assert imap[[] := 0][[name] := 1] == imap[[] := 0, [name] := 1];
  }

  /** A run after which navPath finds a path that leads through a directory that does not exist. */
  lemma SkippedOnRun(v: Store, m: string, b: string) returns (w: Store)
    requires Formatted(v) && Good(m) && Good(b) && m != b
    ensures exists cut :: IsRun([v, w], [Step(Render([b]), Regular, cut)])
    ensures NavPath(w, Render([m, b])).found && Resolve(w, 0, [m, b]) == None
  {
    var o;
    o, w := AfterFirst(v, b);
    OneStepRun(v, Render([b]), Regular, o, w);
    Skipped(w, m, b);
  }

  lemma Skipped(w: Store, m: string, b: string)
    requires w.Sized() && Good(m) && Good(b) && m != b && TreeOf(w) == imap[[] := 0, [b] := 1]
    ensures NavPath(w, Render([m, b])).found && Resolve(w, 0, [m, b]) == None
  {
    NamesInRoot(w, m);
    NamesInRoot(w, b);
    MissingDirectoryIsSkipped(w, m, b);
    ComponentsRoundTrip([m, b]);
  }

  lemma NamesInRoot(w: Store, name: string)
    requires Good(name)
    ensures LookupIn(w, 0, name).Some? <==> [name] in TreeOf(w)
  {
    assert DotFree([name]) && [name][1..] == [];
    if c :| LookupIn(w, 0, name) == Some(c) { assert Resolve(w, c, []) == Some(c); }
  }

  /** Rewriting an inode with the same kind keeps its kind. */
  lemma {:induction false} KindKept(v: Store, ws: seq<Write>, n: nat)
    requires v.Sized() && AllInRegion(ws) && n < INODES
    requires forall i :: 0 <= i < |ws| && ws[i].PutInode? && ws[i].n == n ==> ws[i].inode.kind == v.inodes[n].kind
    ensures ApplyAll(v, ws).inodes[n].kind == v.inodes[n].kind
    decreases |ws|
  {
    if ws != [] { KindKept(v, ws[..|ws| - 1], n); }
  }

  lemma AfterKeepsKind(v: Store, c: nat, kind: Kind, b: Outcome, n: nat)
    requires v.Sized() && n < INODES && n != c && AllInRegion(After(c, kind, b).writes)
    requires forall w :: w in b.writes && w.PutInode? ==> w.inode.kind == v.inodes[n].kind
    ensures ApplyAll(v, After(c, kind, b).writes).inodes[n].kind == v.inodes[n].kind
  {
    var ws := After(c, kind, b).writes;
    forall i | 0 <= i < |ws| && ws[i].PutInode? && ws[i].n == n ensures ws[i].inode.kind == v.inodes[n].kind {
      if i >= 2 { assert ws[i] == b.writes[i - 2] && b.writes[i - 2] in b.writes; }
    }
    KindKept(v, ws, n);
  }

  lemma NodeKeepsKind(v: Store, n: nat, parent: nat, name: string, kind: Kind, o: Outcome)
    requires v.Sized() && n < INODES && FirstFree(v.inodeMap) < INODES && n != FirstFree(v.inodeMap)
    requires o == NodeWrites(v, n, parent, name, kind) && AllInRegion(o.writes)
    ensures ApplyAll(v, o.writes).inodes[n].kind == v.inodes[n].kind
  {
    var c := FirstFree(v.inodeMap);
    EntryPutsKind(WithInode(v, c, kind), n, parent, name, c);
    AfterKeepsKind(v, c, kind, EntryWrites(WithInode(v, c, kind), n, parent, name, c), n);
  }

  lemma EntryPutsKind(v: Store, dir: nat, parent: nat, name: string, n: nat)
    requires v.Sized() && dir < INODES
    ensures forall w :: w in EntryWrites(v, dir, parent, name, n).writes && w.PutInode? ==>
              w.inode.kind == v.inodes[dir].kind
  {
  }

  /** What the maps are like after the first create. */
  lemma MapsAfterFirst(v: Store, name: string, o: Outcome, w: Store)
    requires Formatted(v) && Good(name) && o == Make(v, Render([name]), Regular)
    requires AllInRegion(o.writes) && w == ApplyAll(v, o.writes)
    ensures w.dataMap == v.dataMap && FirstFree(w.inodeMap) == 2
  {
    assert [] + [name] == [name];
    var parent := GoodMakes(v, [], name, Regular);
    RootTakes(v, parent, name, Regular);
    RootWrites(v, parent, name, o, w);
    FirstFreeIs(w.inodeMap, 2);
  }

  lemma RootWrites(v: Store, parent: nat, name: string, o: Outcome, w: Store)
    requires Formatted(v) && FirstFree(v.inodeMap) == 1 && o == NodeWrites(v, 0, parent, name, Regular)
    requires AllInRegion(o.writes) && w == ApplyAll(v, o.writes)
    ensures w.dataMap == v.dataMap && w.inodeMap == v.inodeMap[1 := true]
  {
    var u := WithInode(v, 1, Regular);
    assert u.inodes[0] == v.inodes[0] && SlotsAt(u, DLIST) == v.dirs[0];
    assert HasRoom(u, u.inodes[0].directp[0]);
    HomeIs(u, u.inodes[0].directp, 0, 0);
    var b := EntryWrites(u, 0, parent, name, 1);
    assert |b.writes| == 1 && b.writes[0].PutDir?;
    PartInRegion(1, Regular, b);
    InodeWritesApply(v, 1, Regular);
    ApplyConcat(v, InodeWrites(1, Regular), b.writes);
    assert b.writes[..0] == [];
  }

  /** A second file can be created with the first as its parent. */
  lemma SecondWorks(w: Store, a: string, x: string, o: Outcome) returns (parent: nat)
    requires TreeOk(w, {0, 1}) && TreeOf(w) == imap[[] := 0, [a] := 1] && w.inodes[1].directp[0] == 0
    requires Good(a) && Good(x) && FirstFree(w.inodeMap) == 2 && FirstFree(w.dataMap) < DATA
    requires o == Make(w, Render([a] + [x]), Regular)
    ensures o == NodeWrites(w, 1, parent, x, Regular) && o.ok
  {
    ResolvesByTree(w, [a], 1);
    parent := GoodMakes(w, [a], x, Regular);
    EmptyTakes(w, 1, parent, x, Regular);
  }

  lemma SecondIsFound(w: Store, a: string, x: string, o: Outcome)
    requires TreeOk(w, {0, 1}) && TreeOf(w) == imap[[] := 0, [a] := 1] && Good(a) && Good(x)
    requires o == Make(w, Render([a] + [x]), Regular) && o.ok
    ensures Nameable(Render([a] + [x])) && AllInRegion(o.writes)
    ensures NavPath(ApplyAll(w, o.writes), Render([a] + [x])).found
  {
    ResolvesByTree(w, [a], 1);
    NotInTree(w, [a] + [x]);
    GoodPath([a], x);
    CreatedPathIsFound(w, {0, 1}, [a], x, Regular);
  }

  lemma AfterSecond(w: Store, a: string, x: string) returns (o: Outcome, u: Store)
    requires TreeOk(w, {0, 1}) && TreeOf(w) == imap[[] := 0, [a] := 1]
    requires w.inodes[1].kind == Regular && w.inodes[1].directp[0] == 0
    requires Good(a) && Good(x) && FirstFree(w.inodeMap) == 2 && FirstFree(w.dataMap) < DATA
    ensures o == Make(w, Render([a, x]), Regular) && AllInRegion(o.writes) && u == ApplyAll(w, o.writes)
    ensures Nameable(Render([a, x])) && NavPath(u, Render([a, x])).found && Listed(u, Render([a])) == None
  {
    assert [a] + [x] == [a, x];
    o := Make(w, Render([a, x]), Regular);
    var parent := SecondWorks(w, a, x, o);
    SecondIsFound(w, a, x, o);
    u := ApplyAll(w, o.writes);
    StillAFile(w, u, o, parent, a, x);
  }

  /** create takes a regular file for a parent. After it has, navPath finds the new path, and readdir on the parent
      refuses to list it. */
  lemma FileAsParentOnRun(v: Store, a: string, x: string) returns (w: Store, u: Store)
    requires Formatted(v) && Good(a) && Good(x)
    ensures exists c, d :: IsRun([v, w, u], [Step(Render([a]), Regular, c), Step(Render([a, x]), Regular, d)])
    ensures NavPath(u, Render([a, x])).found && u.Sized() && Listed(u, Render([a])) == None
  {
    var o, o';
    o, w := AfterFirst(v, a);
    MapsAfterFirst(v, a, o, w);
    assert FirstFree(v.dataMap) <= 1;
    o', u := AfterSecond(w, a, x);
    OneStepRun(v, Render([a]), Regular, o, w);
    OneStepRun(w, Render([a, x]), Regular, o', u);
    TwoStepRun(v, w, u, Step(Render([a]), Regular, |o.writes|), Step(Render([a, x]), Regular, |o'.writes|));
  }

  lemma TwoStepRun(v: Store, w: Store, u: Store, s: Step, t: Step)
    requires IsRun([v, w], [s]) && IsRun([w, u], [t])
    ensures IsRun([v, w, u], [s, t])
  {
    assert Nameable([s][0].path) && Next([v, w][0], [v, w][1], [s][0]);
    assert Nameable([t][0].path) && Next([w, u][0], [w, u][1], [t][0]);
  }

  lemma ResolvesByTree(w: Store, p: seq<string>, n: nat)
    requires p in TreeOf(w) && TreeOf(w)[p] == n
    ensures Resolve(w, 0, p) == Some(n)
  {
  }

  lemma NotInTree(w: Store, p: seq<string>)
    requires p !in TreeOf(w) && DotFree(p)
    ensures Resolve(w, 0, p) == None
  {
  }

  lemma StillThere(w: Store, u: Store, path: string, o: Outcome, p: seq<string>)
    requires TreeOk(w, {0, 1}) && Nameable(path) && o == Make(w, path, Regular) && AllInRegion(o.writes)
    requires u == ApplyAll(w, o.writes) && p in TreeOf(w)
    ensures p in TreeOf(u) && TreeOf(u)[p] == TreeOf(w)[p]
  {
    WholeStep(w, path, Regular, o, u);
    var live' := StepKeepsPaths(w, {0, 1}, u, Step(path, Regular, |o.writes|));
  }

  lemma StillAFile(w: Store, u: Store, o: Outcome, parent: nat, a: string, x: string)
    requires TreeOk(w, {0, 1}) && TreeOf(w) == imap[[] := 0, [a] := 1] && w.inodes[1].kind == Regular
    requires Good(a) && Good(x) && Nameable(Render([a, x]))
    requires o == Make(w, Render([a, x]), Regular) && AllInRegion(o.writes)
    requires o == NodeWrites(w, 1, parent, x, Regular) && FirstFree(w.inodeMap) == 2 && u == ApplyAll(w, o.writes)
    ensures Listed(u, Render([a])) == None
  {
    NodeKeepsKind(w, 1, parent, x, Regular, o);
    StillThere(w, u, Render([a, x]), o, [a]);
    ResolvesByTree(u, [a], 1);
    NavOfCanonical(u, [a]);
  }
}
