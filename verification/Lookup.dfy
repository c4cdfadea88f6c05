/** Name lookup. `Find` and `Nav` follow the loops of navPath; `Resolve` is the plain
    component-by-component resolver they are compared with. */
module Lookup {
  import opened Volume

  predicate InUse(s: Slot) { s.inum != INUM_FREE }

  predicate IsDot(name: string) { name == "." || name == ".." }

  predicate Matches(s: Slot, name: string) { InUse(s) && s.name == name }

  /** First slot at or after `k` that is in use under `name`, or the number of slots. */
  function FindSlot(slots: seq<Slot>, name: string, k: nat): (r: nat)
    requires k <= |slots|
    ensures k <= r <= |slots|
    ensures r < |slots| ==> Matches(slots[r], name)
    ensures forall i :: k <= i < r ==> !Matches(slots[i], name)
    decreases |slots| - k
  {
    if k == |slots| || Matches(slots[k], name) then k else FindSlot(slots, name, k + 1)
  }

  /** The directory block behind a direct pointer. */
  ghost function SlotsAt(v: Store, p: nat): Slots {
    if DLIST <= p < DLIST + |v.dirs| then v.dirs[p - DLIST] else seq(SLOTS, _ => Slot(INUM_FREE, ""))
  }

  /** Search the blocks of one directory from direct pointer `q` on, skipping unused pointers. */
  ghost function Find(v: Store, directp: Direct, name: string, q: nat): Option<nat>
    requires q <= NUM_DIRECT
    decreases |directp| - q
  {
    if q == NUM_DIRECT then None
    else if directp[q] == 0 then Find(v, directp, name, q + 1)
    else
      var k := FindSlot(SlotsAt(v, directp[q]), name, 0);
      if k < SLOTS then Some(SlotsAt(v, directp[q])[k].inum) else Find(v, directp, name, q + 1)
  }

  ghost function LookupIn(v: Store, dir: nat, name: string): Option<nat> {
    if dir < |v.inodes| then Find(v, v.inodes[dir].directp, name, 0) else None
  }

  ghost function Resolve(v: Store, cur: nat, comps: seq<string>): Option<nat>
    decreases |comps|
  {
    if comps == [] then Some(cur)
    else match LookupIn(v, cur, comps[0])
      case None => None
      case Some(c) => Resolve(v, c, comps[1..])
  }

  /** What navPath computes: whether the last component was found, the inode of the directory that
      was searched for it, and the inode found (the searched directory again on a miss). */
  datatype NavResult = NavResult(found: bool, par: nat, targ: nat)

  /** A component that is missing is only reported when it is the last one; otherwise the search
      for the next component goes on in the same directory. */
  ghost function Nav(v: Store, cur: nat, comps: seq<string>): NavResult
    decreases |comps|
  {
    if comps == [] then NavResult(true, cur, cur)
    else match LookupIn(v, cur, comps[0])
      case None => if |comps| == 1 then NavResult(false, cur, cur) else Nav(v, cur, comps[1..])
      case Some(c) => if |comps| == 1 then NavResult(true, cur, c) else Nav(v, c, comps[1..])
  }

  ghost function NavInode(r: NavResult): Option<nat> { if r.found then Some(r.targ) else None }

  ghost function Front(comps: seq<string>): seq<string>
    requires comps != []
  {
    comps[..|comps| - 1]
  }

  /** The components that count: missing ones are dropped, except the last. */
  ghost function Surviving(v: Store, cur: nat, comps: seq<string>): (r: seq<string>)
    ensures comps != [] ==> r != [] && r[|r| - 1] == comps[|comps| - 1]
    ensures forall i :: 0 <= i < |r| ==> r[i] in comps
    decreases |comps|
  {
    if |comps| <= 1 then comps
    else match LookupIn(v, cur, comps[0])
      case None => Surviving(v, cur, comps[1..])
      case Some(c) => [comps[0]] + Surviving(v, c, comps[1..])
  }

  /** navPath is the plain resolver on the surviving components, and the parent it returns is the
      directory named by all of them but the last. */
  lemma {:induction false} NavResolvesSurviving(v: Store, cur: nat, comps: seq<string>)
    requires comps != []
    ensures var s := Surviving(v, cur, comps); var r := Nav(v, cur, comps);
            && NavInode(r) == Resolve(v, cur, s)
            && Resolve(v, cur, Front(s)) == Some(r.par)
            && (!r.found ==> r.targ == r.par)
    decreases |comps|
  {
    var s := Surviving(v, cur, comps);
    if |comps| > 1 {
      match LookupIn(v, cur, comps[0])
      case None => NavResolvesSurviving(v, cur, comps[1..]);
      case Some(c) =>
        NavResolvesSurviving(v, c, comps[1..]);
        var t := Surviving(v, c, comps[1..]);
        assert s[1..] == t && Front(s) == [comps[0]] + Front(t) && Front(s)[1..] == Front(t);
    }
  }

  /** All components survive exactly when the directory part of the path resolves. */
  lemma {:induction false} SurvivingIsAll(v: Store, cur: nat, comps: seq<string>)
    requires comps != []
    ensures Surviving(v, cur, comps) == comps <==> Resolve(v, cur, Front(comps)).Some?
    decreases |comps|
  {
    if |comps| > 1 {
      assert Front(comps)[1..] == Front(comps[1..]);
      match LookupIn(v, cur, comps[0])
      case None => SurvivingLength(v, cur, comps[1..]);
      case Some(c) =>
        SurvivingIsAll(v, c, comps[1..]);
        assert comps == [comps[0]] + comps[1..];
        assert ([comps[0]] + Surviving(v, c, comps[1..]))[1..] == Surviving(v, c, comps[1..]);
    }
  }

  lemma {:induction false} SurvivingLength(v: Store, cur: nat, comps: seq<string>)
    ensures |Surviving(v, cur, comps)| <= |comps|
    decreases |comps|
  {
    if |comps| > 1 {
      match LookupIn(v, cur, comps[0])
      case None => SurvivingLength(v, cur, comps[1..]);
      case Some(c) => SurvivingLength(v, c, comps[1..]);
    }
  }

  /** The directory in which navPath looks up the last name, after it has gone through `dir`. */
  ghost function Landing(v: Store, cur: nat, dir: seq<string>): nat
    decreases |dir|
  {
    if dir == [] then cur
    else match LookupIn(v, cur, dir[0])
      case None => Landing(v, cur, dir[1..])
      case Some(c) => Landing(v, c, dir[1..])
  }

  lemma {:induction false} NavLands(v: Store, cur: nat, dir: seq<string>, name: string)
    ensures NavInode(Nav(v, cur, dir + [name])) == LookupIn(v, Landing(v, cur, dir), name)
    ensures Nav(v, cur, dir + [name]).par == Landing(v, cur, dir)
    decreases |dir|
  {
    var comps := dir + [name];
    if dir == [] {
      assert comps == [name];
    } else {
      assert comps[1..] == dir[1..] + [name];
      match LookupIn(v, cur, dir[0])
      case None => NavLands(v, cur, dir[1..], name);
      case Some(c) => NavLands(v, c, dir[1..], name);
    }
  }

  lemma {:induction false} LandsWhereItResolves(v: Store, cur: nat, dir: seq<string>)
    requires Resolve(v, cur, dir).Some?
    ensures Landing(v, cur, dir) == Resolve(v, cur, dir).value
    decreases |dir|
  {
    if dir != [] { LandsWhereItResolves(v, LookupIn(v, cur, dir[0]).value, dir[1..]); }
  }

  lemma ResolveLast(v: Store, cur: nat, dir: seq<string>, name: string)
    ensures Resolve(v, cur, dir + [name]) ==
              match Resolve(v, cur, dir) case None => None case Some(m) => LookupIn(v, m, name)
  {
    ResolveSplit(v, cur, dir, [name]);
    if m :| Resolve(v, cur, dir) == Some(m) {
      match LookupIn(v, m, name) case None => case Some(c) => assert [name][1..] == [];
    }
  }

  /** navPath and the plain resolver give the same for this name in this directory. */
  ghost predicate Agree(v: Store, cur: nat, dir: seq<string>, name: string) {
    NavInode(Nav(v, cur, dir + [name])) == Resolve(v, cur, dir + [name])
  }

  ghost predicate Known(v: Store, dir: nat, name: string) { LookupIn(v, dir, name).Some? }

  lemma AgreeOn(v: Store, cur: nat, dir: seq<string>, name: string)
    ensures Agree(v, cur, dir, name) <==> Resolve(v, cur, dir).Some? || !Known(v, Landing(v, cur, dir), name)
  {
    NavLands(v, cur, dir, name);
    ResolveLast(v, cur, dir, name);
    if Resolve(v, cur, dir).Some? { LandsWhereItResolves(v, cur, dir); }
  }

  /** navPath agrees with the plain resolver on every name in a directory exactly if the directory resolves, or
      the directory where navPath lands instead has no names at all. */
  lemma NavAgreesExactly(v: Store, cur: nat, dir: seq<string>)
    ensures (forall name :: Agree(v, cur, dir, name))
       <==> Resolve(v, cur, dir).Some? || forall name :: !Known(v, Landing(v, cur, dir), name)
  {
    if name :| !Agree(v, cur, dir, name) { AgreeOn(v, cur, dir, name); }
    if name :| Known(v, Landing(v, cur, dir), name) { AgreeOn(v, cur, dir, name); }
  }

  lemma {:induction false} ResolveSplit(v: Store, cur: nat, a: seq<string>, b: seq<string>)
    ensures Resolve(v, cur, a + b) == match Resolve(v, cur, a) case None => None case Some(m) => Resolve(v, m, b)
    decreases |a|
  {
    if a == [] {
      assert a + b == b;
    } else {
      assert (a + b)[1..] == a[1..] + b;
      match LookupIn(v, cur, a[0])
      case None =>
      case Some(c) => ResolveSplit(v, c, a[1..], b);
    }
  }

  /** A missing directory does not stop navPath: with `b` in the root and no `m`, the path /m/b
      leads to /b, which the plain resolver rejects. */
  lemma MissingDirectoryIsSkipped(v: Store, m: string, b: string)
    requires LookupIn(v, 0, m) == None && LookupIn(v, 0, b).Some?
    ensures NavInode(Nav(v, 0, [m, b])) == LookupIn(v, 0, b)
    ensures Resolve(v, 0, [m, b]) == None
  {
    assert [m, b][1..] == [b];
  }

  /** The names readdir passes to the filler, in order. */
  function UsedNames(slots: seq<Slot>, k: nat): (r: seq<string>)
    requires k <= |slots|
    ensures forall name :: name in r <==> FindSlot(slots, name, k) < |slots|
    decreases |slots| - k
  {
    if k == |slots| then []
    else (if InUse(slots[k]) then [slots[k].name] else []) + UsedNames(slots, k + 1)
  }

  ghost function Listing(v: Store, directp: Direct, q: nat): seq<string>
    requires q <= NUM_DIRECT
    decreases |directp| - q
  {
    if q == NUM_DIRECT then []
    else if directp[q] == 0 then Listing(v, directp, q + 1)
    else UsedNames(SlotsAt(v, directp[q]), 0) + Listing(v, directp, q + 1)
  }

  /** A name is listed exactly when looking it up in the same directory succeeds. */
  lemma {:induction false} ListedIffFound(v: Store, directp: Direct, name: string, q: nat)
    requires q <= NUM_DIRECT
    ensures name in Listing(v, directp, q) <==> Find(v, directp, name, q).Some?
    decreases |directp| - q
  {
    if q < NUM_DIRECT { ListedIffFound(v, directp, name, q + 1); }
  }
}
