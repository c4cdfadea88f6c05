/** The file system code itself, working on the blocks of the disk image. */
module FileSystem {
  import opened Volume
  import opened DiskLayout
  import opened Lookup
  import opened Paths
  import opened Tree
  import opened TreeWrites
  import opened Creation
  import opened Operations
  import opened Runs
  import opened Entries

  /** The map that starts at block `first` has no zero byte before block `b`, byte `j`. */
  ghost predicate MarkedUpTo(d: seq<Block>, first: nat, b: nat, j: nat) {
    forall m :: 0 <= m < 512 * (b - first) + j ==> MapBit(d, first, m)
  }

  lemma MarkedBlock(d: seq<Block>, first: nat, b: nat, j: nat)
    requires first <= b < |d| && j <= 512 && MarkedUpTo(d, first, b, 0)
    requires forall k :: 0 <= k < j ==> AsMap(d[b])[k] != 0
    ensures MarkedUpTo(d, first, b, j)
    ensures j < 512 ==> MapBit(d, first, 512 * (b - first) + j) == (AsMap(d[b])[j] != 0)
  {
    forall m | 512 * (b - first) <= m <= 512 * (b - first) + j && m < 512 * (b - first) + 512
      ensures m / 512 == b - first && m % 512 == m - 512 * (b - first)
    {}
  }

  lemma FirstZeroByte(d: seq<Block>, first: nat, b: nat, j: nat)
    requires ImageSized(d) && first <= b && j < 512 && MarkedUpTo(d, first, b, j)
            && !MapBit(d, first, 512 * (b - first) + j)
    ensures first == 5 && b < 65 ==> FirstFree(View(d).dataMap) == 512 * (b - 5) + j
    ensures first == 1 && b < 5 ==> FirstFree(View(d).inodeMap) == 512 * (b - 1) + j
  {
    if first == 5 && b < 65 { FirstFreeIs(View(d).dataMap, 512 * (b - 5) + j); }
    if first == 1 && b < 5 { FirstFreeIs(View(d).inodeMap, 512 * (b - 1) + j); }
  }

  lemma NoZeroByte(d: seq<Block>)
    requires ImageSized(d)
    ensures MarkedUpTo(d, 5, 65, 0) ==> FirstFree(View(d).dataMap) == DATA
    ensures MarkedUpTo(d, 1, 5, 0) ==> FirstFree(View(d).inodeMap) == INODES
  {
    if MarkedUpTo(d, 5, 65, 0) { FirstFreeIs(View(d).dataMap, DATA); }
    if MarkedUpTo(d, 1, 5, 0) { FirstFreeIs(View(d).inodeMap, INODES); }
  }

  method ZeroByte(bytes: MapBytes) returns (j: nat)
    ensures j <= 512 && (j < 512 ==> bytes[j] == 0)
    ensures forall k :: 0 <= k < j ==> bytes[k] != 0
  {
    j := 0;
    while j < 512
      invariant j <= 512 && forall k :: 0 <= k < j ==> bytes[k] != 0
    {
      if bytes[j] == 0 { return; }
      j := j + 1;
    }
  }

  /** Copy the word at `i` into the name buffer, up to the next slash or the end of the path. */
  method ReadWord(path: string, i: nat) returns (name: string, e: nat)
    requires i <= |path| && WordEnd(path, i) - i < MAX_FNAME
    ensures e == WordEnd(path, i) && name == path[i..e]
  {
    var currname := new char[MAX_FNAME];
    ghost var end := WordEnd(path, i);
    e := i;
    var j := 0;
    while e < |path| && path[e] != '/'
      invariant i <= e <= end && j == e - i && forall k :: 0 <= k < j ==> currname[k] == path[i + k]
    {
      currname[j] := path[e];
      e, j := e + 1, j + 1;
    }
    currname[j] := '\0';
    name := currname[..j];
  }

  class Disk {
    const blocks: array<Block>
    /** Inodes linked into the tree. */
    ghost var live: set<nat>
    /** The writes to maps, inodes and directory blocks so far, in order. */
    ghost var log: seq<Write>

    ghost predicate Ready()
      reads this, blocks
    {
      blocks.Length == DISK_BLOCKS && blocks[0] == SUPER
    }

    ghost function Tables(): (v: Store)
      requires blocks.Length == DISK_BLOCKS
      reads this, blocks
      ensures v.Sized()
    {
      View(blocks[..])
    }

    ghost predicate Valid()
      reads this, blocks
    {
      Ready() && TreeOk(Tables(), live)
    }

    /** Since the tables were `v` and the log `l`, exactly the writes of `o` have been performed. */
    ghost predicate Performed(v: Store, l: seq<Write>, o: Outcome)
      reads this, blocks
    {
      Ready() && v.Sized() && AllInRegion(o.writes) && log == l + o.writes && Tables() == ApplyAll(v, o.writes)
    }

    constructor (image: array<Block>)
      ensures blocks == image && log == [] && live == {0}
    {
      blocks, log, live := image, [], {0};
    }

    /** block_write, with the write it stands for. */
    method BlockWrite(b: nat, block: Block, ghost w: Write)
      requires Ready() && w.InRegion() && b == Target(w) && b < blocks.Length && block == Image(blocks[b], w)
      modifies blocks, `log
      ensures Ready() && log == old(log) + [w] && Tables() == Apply(old(Tables()), w)
    {
      ghost var before := blocks[..];
      WriteChangesOneCell(before, w);
      blocks[b] := block;
      assert blocks[..] == before[b := block];
      log := log + [w];
    }

    /** Mark the first zero byte of the data map; -1 if there is none. */
    method ReserveFreeData() returns (r: int)
      requires Ready()
      modifies blocks, `log
      ensures Ready()
      ensures var b := FirstFree(old(Tables()).dataMap);
              if b == DATA then r == -1 && blocks[..] == old(blocks[..]) && log == old(log)
              else r == DLIST + b && log == old(log) + [MarkData(b)] && Tables() == Apply(old(Tables()), MarkData(b))
    {
      var s := blocks[0];
      var bnum := s.dataMap;
      ghost var d := blocks[..];
      while bnum < s.iList
        invariant 5 <= bnum <= 65 && blocks[..] == d && log == old(log)
        invariant MarkedUpTo(d, 5, bnum, 0)
      {
        var bytes := AsMap(blocks[bnum]);
        var j := ZeroByte(bytes);
        MarkedBlock(d, 5, bnum, j);
        if j < 512 {
          FirstZeroByte(d, 5, bnum, j);
          BlockWrite(bnum, Map(bytes[j := 1]), MarkData(512 * (bnum - 5) + j));
          return 512 * (bnum - s.dataMap) + j + s.dList;
        }
        bnum := bnum + 1;
      }
      NoZeroByte(d);
      return -1;
    }

    method PutFreshInode(n: nat, kind: Kind)
      requires Ready() && n < INODES
      modifies blocks, `log
      ensures Ready() && log == old(log) + [PutInode(n, FreshInode(n, kind))]
      ensures Tables() == Apply(old(Tables()), PutInode(n, FreshInode(n, kind)))
    {
      var inode := FreshInode(n, kind);
      BlockWrite(65 + n / 2, WithHalf(blocks[65 + n / 2], n, inode), PutInode(n, inode));
    }

    /** Mark inode `n` in its map block, then write it. */
    method TakeInode(n: nat, kind: Kind)
      requires Ready() && n < INODES
      modifies blocks, `log
      ensures Ready() && log == old(log) + InodeWrites(n, kind) && Tables() == WithInode(old(Tables()), n, kind)
    {
      BlockWrite(1 + n / 512, Map(AsMap(blocks[1 + n / 512])[n % 512 := 1]), MarkInode(n));
      PutFreshInode(n, kind);
    }

    /** Mark the first zero byte of the inode map and write a fresh inode; 0 if there is none. */
    method ReserveFreeInode(kind: Kind) returns (inum: nat)
      requires Ready() && Tables().inodeMap[0]
      modifies blocks, `log
      ensures Ready()
      ensures var n := FirstFree(old(Tables()).inodeMap);
              if n == INODES then inum == 0 && blocks[..] == old(blocks[..]) && log == old(log)
              else
                inum == n != 0 && log == old(log) + InodeWrites(n, kind) && Tables() == WithInode(old(Tables()), n, kind)
      ensures inum == 0 <==> forall i :: 0 <= i < INODES ==> old(Tables()).inodeMap[i]
      ensures inum != 0 ==> inum < INODES && !old(Tables()).inodeMap[inum] && Tables().inodeMap[inum]
                            && IsNew(Tables().inodes[inum], inum, kind)
    {
      var s := blocks[0];
      var iplace := s.inodeMap;
      ghost var d := blocks[..];
      while iplace < s.dataMap
        invariant 1 <= iplace <= 5 && blocks[..] == d && log == old(log)
        invariant MarkedUpTo(d, 1, iplace, 0)
      {
        var bytes := AsMap(blocks[iplace]);
        var j := ZeroByte(bytes);
        MarkedBlock(d, 1, iplace, j);
        if j < 512 {
          FirstZeroByte(d, 1, iplace, j);
          inum := 512 * (iplace - s.inodeMap) + j;
          TakeInode(inum, kind);
          return;
        }
        iplace := iplace + 1;
      }
      NoZeroByte(d);
      return 0;
    }

    /** Prepare data block `b` as a directory block. */
    method InitDir(b: nat, self: nat, parent: nat)
      requires Ready() && DLIST <= b < DLIST + DATA
      modifies blocks, `log
      ensures Ready()
      ensures var w := PutDir(b - DLIST, FreshSlots(old(Tables()).dirs[b - DLIST], self, parent));
              log == old(log) + [w] && Tables() == Apply(old(Tables()), w)
    {
      var m := AsDir(blocks[b]);
      ghost var before := m;
      assert before == Tables().dirs[b - DLIST];
      m := m[0 := Slot(self, ".")];
      if self != parent {
        m := m[1 := Slot(parent, "..")];
      } else {
        m := m[1 := m[1].(inum := INUM_FREE)];
      }
      for i := 2 to SLOTS
        invariant |m| == SLOTS
        invariant forall k :: 0 <= k < i ==> m[k] == FreshSlot(before, self, parent, k)
        invariant forall k :: i <= k < SLOTS ==> m[k] == before[k]
      {
        m := m[i := m[i].(inum := INUM_FREE)];
      }
      assert m == FreshSlots(before, self, parent);
      BlockWrite(b, Dir(m), PutDir(b - DLIST, m));
    }

    /** The search loop of navPath: the first slot in use under `name` among the blocks of `inode`. */
    method FindEntry(inode: Inode, name: string) returns (success: bool, inum: nat)
      requires Ready()
      requires forall q :: 0 <= q < NUM_DIRECT && inode.directp[q] != 0 ==> DLIST <= inode.directp[q] < DLIST + DATA
      ensures (if success then Some(inum) else None) == Find(Tables(), inode.directp, name, 0)
    {
      success, inum := false, 0;
      var q := 0;
      while q < NUM_DIRECT
        invariant 0 <= q <= NUM_DIRECT
        invariant Find(Tables(), inode.directp, name, 0) == Find(Tables(), inode.directp, name, q)
      {
        if inode.directp[q] != 0 {
          var m := AsDir(blocks[inode.directp[q]]);
          assert m == SlotsAt(Tables(), inode.directp[q]);
          var k := 0;
          while k < SLOTS
            invariant 0 <= k <= SLOTS && FindSlot(m, name, 0) == FindSlot(m, name, k)
          {
            if m[k].inum != INUM_FREE && m[k].name == name {
              return true, m[k].inum;
            }
            k := k + 1;
          }
        }
        q := q + 1;
      }
    }

    /** The direct pointers of a live inode are zero or in the data region. */
    lemma PointersInRegion(n: nat)
      requires Valid() && n in live
      ensures forall q :: 0 <= q < NUM_DIRECT && Tables().inodes[n].directp[q] != 0 ==>
                DLIST <= Tables().inodes[n].directp[q] < DLIST + DATA
    {
      assert Obeys(Tables(), live, Pointers);
      assert forall q :: 0 <= q < NUM_DIRECT ==> Ptr(Tables(), n, q) == Tables().inodes[n].directp[q];
    }

    /** One round of navPath: look `name` up in inode `t`, and move there if it is found. */
    method LookUp(t: Inode, name: string, ghost cur: nat) returns (success: bool, next: Inode, ghost n: nat)
      requires Valid() && cur in live && t == Tables().inodes[cur]
      ensures success == LookupIn(Tables(), cur, name).Some?
      ensures LookupIn(Tables(), cur, name) == if success then Some(n) else None
      ensures n in live && next == Tables().inodes[n] && (!success ==> n == cur)
    {
      PointersInRegion(cur);
      var inum;
      success, inum := FindEntry(t, name);
      next, n := t, cur;
      if success {
        LookupStaysLive(Tables(), live, cur, name);
        next, n := Half(blocks[65 + inum / 2], inum), inum;
      }
    }

    /** The body of navPath's loop: take one word, look it up, and tell whether it was the last. */
    method NavRound(path: string, i: nat, t: Inode, ghost cur: nat)
      returns (last: bool, success: bool, i': nat, next: Inode, ghost n: nat)
      requires Valid() && cur in live && t == Tables().inodes[cur]
      requires i <= |path| && forall c :: c in Words(path, i) ==> |c| < MAX_FNAME
      ensures n in live && next == Tables().inodes[n] && Round(Tables(), cur, path, i, last, success, n, i')
    {
      ShortWord(path, i);
      var name, e := ReadWord(path, i);
      i' := e + 1;
      last := e == |path| || i' == |path| || (path[i'] == '/' && i' + 1 == |path|);
      success, next, n := LookUp(t, name, cur);
      RoundIs(Tables(), cur, path, i, e, last, success, n);
    }

    method NavPath(path: string) returns (found: bool, par: Inode, targ: Inode)
      requires Valid() && forall c :: c in Components(path) ==> |c| < MAX_FNAME
      ensures var r := Operations.NavPath(Tables(), path);
              && found == r.found
              && (|Components(path)| <= MAX_STEPS ==>
                    r.par in live && par == Tables().inodes[r.par] && r.targ in live && targ == Tables().inodes[r.targ])
    {
      par, targ := Half(blocks[65], 0), Half(blocks[65], 0);
      if |path| <= 1 {
        return true, par, targ;
      }
      var i, failcounter := 1, 0;
      var last, success := false, false;
      ghost var v, comps := Tables(), Components(path);
      ghost var cur: nat, dir: nat := 0, 0;
      while !last
        invariant cur in live && targ == v.inodes[cur]
        invariant !last ==>
          && 1 <= i <= |path| && (forall c :: c in Words(path, i) ==> c in comps)
          && |comps| == failcounter + |Words(path, i)| && Nav(v, 0, comps) == Nav(v, cur, Words(path, i))
        invariant last ==>
          && |comps| <= MAX_STEPS && dir in live && par == v.inodes[dir]
          && Nav(v, 0, comps) == NavResult(success, dir, cur)
        decreases !last, |path| - i
      {
        failcounter := failcounter + 1;
        if failcounter > MAX_STEPS {
          return false, par, targ;
        }
        par, dir := targ, cur;
        ghost var words := Words(path, i);
        ghost var before := i;
        last, success, i, targ, cur := NavRound(path, i, targ, cur);
        assert IsRound(Tables(), dir, path, before, last, success, cur, i, Unit);
        assert !last ==> forall c :: c in words[1..] ==> c in words;
      }
      return success, par, targ;
    }

    /** Reserve a data block, prepare it and link it as pointer `i` of `inode`; -1 if none is left. */
    method AddBlock(inode: Inode, i: nat, parent: nat) returns (b: int)
      requires Ready() && inode.ino < INODES && i < NUM_DIRECT && inode == Tables().inodes[inode.ino]
      modifies blocks, `log
      ensures Ready()
      ensures var n := FirstFree(old(Tables()).dataMap);
              if n == DATA then b == -1 && blocks[..] == old(blocks[..]) && log == old(log)
              else
                var w1, w2, w3 := MarkData(n), PutDir(n, FreshSlots(old(Tables()).dirs[n], inode.ino, parent)),
                                  PutInode(inode.ino, WithPointer(inode, i, DLIST + n));
                && b == DLIST + n && log == old(log) + [w1, w2, w3]
                && Tables() == Apply(Apply(Apply(old(Tables()), w1), w2), w3)
    {
      b := ReserveFreeData();
      if b == -1 {
        return;
      }
      InitDir(b, inode.ino, parent);
      var block := blocks[65 + inode.ino / 2];
      var half := WithPointer(Half(block, inode.ino), i, b);
      assert Half(block, inode.ino) == Tables().inodes[inode.ino];
      BlockWrite(65 + inode.ino / 2, WithHalf(block, inode.ino, half), PutInode(inode.ino, half));
    }

    /** Pass over the full blocks of a directory: the first pointer that is unused or has room. */
    method FindHome(dir: Inode) returns (i: nat)
      requires Ready()
      requires forall q :: 0 <= q < NUM_DIRECT && dir.directp[q] != 0 ==> DLIST <= dir.directp[q] < DLIST + DATA
      ensures i == Home(Tables(), dir.directp, 0)
    {
      i := 0;
      ghost var v := Tables();
      while i < NUM_DIRECT
        invariant 0 <= i <= NUM_DIRECT && forall q :: 0 <= q < i ==> !HasRoom(v, dir.directp[q])
      {
        if dir.directp[i] == 0 {
          break;
        }
        var m := AsDir(blocks[dir.directp[i]]);
        assert m == SlotsAt(v, dir.directp[i]);
        var j := UnusedSlot(m);
        if j < SLOTS {
          break;
        }
        i := i + 1;
      }
      HomeIs(v, dir.directp, 0, i);
    }

    /** Write the entry (`newname`, `newino`) into the first unused slot of data block `p`. */
    method PutEntry(p: nat, newname: string, newino: nat)
      requires Ready() && DLIST <= p < DLIST + DATA && FreeSlot(Tables().dirs[p - DLIST], 0) < SLOTS
      modifies blocks, `log
      ensures Ready()
      ensures var slots := old(Tables()).dirs[p - DLIST];
              var w := PutDir(p - DLIST, slots[FreeSlot(slots, 0) := Slot(newino, newname)]);
              log == old(log) + [w] && Tables() == Apply(old(Tables()), w)
    {
      var m := AsDir(blocks[p]);
      assert m == Tables().dirs[p - DLIST];
      var j := UnusedSlot(m);
      m := m[j := Slot(newino, newname)];
      BlockWrite(p, Dir(m), PutDir(p - DLIST, m));
    }

    /** Put the entry into a new block, linked as pointer `i` of `dir`. */
    method PutInNewBlock(dir: Inode, i: nat, parent: nat, newname: string, newino: nat) returns (ok: bool)
      requires Ready() && dir.ino < INODES && i < NUM_DIRECT && dir == Tables().inodes[dir.ino]
      modifies blocks, `log
      ensures ok <==> FirstFree(old(Tables()).dataMap) < DATA
      ensures Performed(old(Tables()), old(log), NewBlockOutcome(old(Tables()), dir, i, parent, newname, newino))
    {
      ghost var v := Tables();
      var p := AddBlock(dir, i, parent);
      if p == -1 {
        return false;
      }
      FreshRoom(v.dirs[p - DLIST], dir.ino, parent);
      assert Tables().dirs[p - DLIST] == FreshSlots(v.dirs[p - DLIST], dir.ino, parent);
      PutEntry(p, newname, newino);
      NewBlockPerformed(v, old(log), dir, i, parent, newname, newino, Tables(), log);
      return true;
    }

    /** Put the entry where there is room: into block `i` of `dir`, which may have to be made. */
    method PutAt(i: nat, newname: string, parent: nat, dir: Inode, newino: nat) returns (ok: bool)
      requires Ready() && dir.ino < INODES && dir == Tables().inodes[dir.ino]
      requires i <= NUM_DIRECT && (i < NUM_DIRECT ==> HasRoom(Tables(), dir.directp[i]))
      requires i < NUM_DIRECT && dir.directp[i] != 0 ==> DLIST <= dir.directp[i] < DLIST + DATA
      modifies blocks, `log
      ensures var o := EntryWritesAt(old(Tables()), i, dir.ino, parent, newname, newino);
              ok == o.ok && Performed(old(Tables()), old(log), o)
    {
      if i == NUM_DIRECT {
        ok := false;
      } else if dir.directp[i] == 0 {
        ok := PutInNewBlock(dir, i, parent, newname, newino);
      } else {
        OneWrite(Tables(), EntryWritesAt(Tables(), i, dir.ino, parent, newname, newino).writes);
        PutEntry(dir.directp[i], newname, newino);
        ok := true;
      }
    }

    /** Put the entry (`newname`, `newino`) into the first unused slot of directory `dir`. */
    method UpdateDir(newname: string, par: Inode, dir: Inode, newino: nat) returns (ok: bool)
      requires Ready() && dir.ino < INODES && dir == Tables().inodes[dir.ino]
      requires forall q :: 0 <= q < NUM_DIRECT && dir.directp[q] != 0 ==> DLIST <= dir.directp[q] < DLIST + DATA
      modifies blocks, `log
      ensures var o := EntryWrites(old(Tables()), dir.ino, par.ino, newname, newino);
              ok == o.ok && Performed(old(Tables()), old(log), o)
      ensures ok <==> EntryFits(old(Tables()), dir.ino)
    {
      EntryFitsExactly(Tables(), dir.ino, par.ino, newname, newino);
      var i := FindHome(dir);
      ok := PutAt(i, newname, par.ino, dir, newino);
    }

    /** Split a path at its last slash, searching from the terminating zero backwards. */
    method FindSlash(path: string) returns (i: int)
      ensures i == LastSlash(path, |path|)
    {
      i := |path|;
      while i >= 0 && (i == |path| || path[i] != '/')
        invariant -1 <= i <= |path| && LastSlash(path, |path|) == LastSlash(path, i)
      {
        i := i - 1;
      }
    }

    /** Reserve an inode and enter it into directory `targ`. */
    method MakeIn(par: Inode, targ: Inode, name: string, kind: Kind) returns (ok: bool)
      requires Ready() && targ.ino < INODES && targ == Tables().inodes[targ.ino]
      requires Tables().inodeMap[0] && Tables().inodeMap[targ.ino]
      requires forall q :: 0 <= q < NUM_DIRECT && targ.directp[q] != 0 ==> DLIST <= targ.directp[q] < DLIST + DATA
      modifies blocks, `log
      ensures var o := NodeWrites(old(Tables()), targ.ino, par.ino, name, kind);
              ok == o.ok && Performed(old(Tables()), old(log), o)
    {
      ghost var v := Tables();
      var inum := ReserveFreeInode(kind);
      if inum == 0 {
        return false;
      }
      ghost var u := Tables();
      ghost var b := EntryWrites(u, targ.ino, par.ino, name, inum);
      ok := UpdateDir(name, par, targ, inum);
      InodeThen(v, inum, kind, b, old(log));
    }

    /** The inode navPath returns carries its own number. */
    lemma KnowsItsNumber(n: nat)
      requires Valid() && n in live
      ensures Tables().inodes[n].ino == n && Tables().inodeMap[n] && Tables().inodeMap[0]
    {
      assert Obeys(Tables(), live, Inodes);
    }

    /** Find the directory part of the path, and make the new node in it. */
    method MakeBelow(dir: string, name: string, kind: Kind) returns (ok: bool)
      requires Valid() && |Components(dir)| <= MAX_STEPS && forall c :: c in Components(dir) ==> |c| < MAX_FNAME
      modifies blocks, `log
      ensures var o := Operations.MakeIn(old(Tables()), dir, name, kind);
              ok == o.ok && Performed(old(Tables()), old(log), o)
    {
      ghost var r := Operations.NavPath(Tables(), dir);
      var found, par, targ := NavPath(dir);
      if !found {
        return false;
      }
      KnowsItsNumber(r.par);
      KnowsItsNumber(r.targ);
      PointersInRegion(r.targ);
      ok := MakeIn(par, targ, name, kind);
    }

    /** The path is cut at its last slash. */
    method MakeAt(path: string, i: nat, kind: Kind) returns (ok: bool)
      requires Valid() && Nameable(path) && |path| < MAX_PATH && i == LastSlash(path, |path|)
      modifies blocks, `log
      ensures var o := Operations.Make(old(Tables()), path, kind);
              ok == o.ok && Performed(old(Tables()), old(log), o)
    {
      ShortComponents(path, i);
      ok := MakeBelow(path[..i], path[i + 1..], kind);
    }

    /** create (with a regular inode) and mkdir (with a directory inode). */
    method Make(path: string, kind: Kind) returns (ok: bool)
      requires Valid() && Nameable(path)
      modifies blocks, `log, `live
      ensures Valid()
      ensures var o := Operations.Make(old(Tables()), path, kind);
              ok == o.ok && Performed(old(Tables()), old(log), o)
      ensures ok <==> CanMake(old(Tables()), path)
      ensures live == if ok then old(live) + {FirstFree(old(Tables()).inodeMap)} else old(live)
    {
      ghost var o := Operations.Make(Tables(), path, kind);
      MakeEnds(Tables(), live, path, kind, o);
      MakeSucceedsExactly(Tables(), live, path, kind);
      if |path| >= MAX_PATH {
        return false;
      }
      var i := FindSlash(path);
      if i < 0 {
        return false;
      }
      ok := MakeAt(path, i, kind);
      if ok { live := live + {FirstFree(old(Tables()).inodeMap)}; }
    }

    /** Pass the names in the blocks of `dir` to a filler that accepts `room` of them. */
    method ListDir(dir: Inode, room: nat) returns (names: seq<string>)
      requires Ready()
      requires forall q :: 0 <= q < NUM_DIRECT && dir.directp[q] != 0 ==> DLIST <= dir.directp[q] < DLIST + DATA
      ensures names == Take(Listing(Tables(), dir.directp, 0), room)
    {
      names := [];
      ghost var v := Tables();
      var i := 0;
      while i < NUM_DIRECT
        invariant 0 <= i <= NUM_DIRECT && |names| <= room
        invariant Listing(v, dir.directp, 0) == names + Listing(v, dir.directp, i)
      {
        if dir.directp[i] != 0 {
          var m := AsDir(blocks[dir.directp[i]]);
          assert m == SlotsAt(v, dir.directp[i]);
          ghost var before, rest := names, Listing(v, dir.directp, i + 1);
          var full;
          names, full := FillNames(m, names, room);
          TakeSplits(before, UsedNames(m, 0), rest, room);
          if full {
            return;
          }
        }
        i := i + 1;
      }
    }

    /** readdir. When the path is not found, the directory in which navPath gave up is listed. */
    method ReadDir(path: string, room: nat) returns (ok: bool, names: seq<string>)
      requires Valid() && forall c :: c in Components(path) ==> |c| < MAX_FNAME
      requires |Components(path)| <= MAX_STEPS
      ensures Operations.NavPath(Tables(), path).targ in live
      ensures var dir := Tables().inodes[Operations.NavPath(Tables(), path).targ];
              (ok <==> dir.kind == Directory) && (ok ==> names == Take(Listing(Tables(), dir.directp, 0), room))
    {
      var found, par, targ := NavPath(path);
      if targ.kind != Directory {
        return false, [];
      }
      PointersInRegion(Operations.NavPath(Tables(), path).targ);
      names := ListDir(targ, room);
      return true, names;
    }

    /** Format the disk unless it carries our magic number. `stack` is what the unwritten half of the
        first inode block happens to hold. */
    method Init(stack: Inode)
      requires blocks.Length == DISK_BLOCKS
      modifies this, blocks
      ensures old(blocks[0].Super? && blocks[0].magic == MAGIC) ==>
                blocks[..] == old(blocks[..]) && live == old(live) && log == old(log)
      ensures !old(blocks[0].Super? && blocks[0].magic == MAGIC) ==>
                Valid() && Formatted(Tables()) && live == {0} && TreeOf(Tables()) == imap[[] := 0]
    {
      if blocks[0].Super? && blocks[0].magic == MAGIC {
        return;
      }
      blocks[0] := SUPER;
      var temp: MapBytes := seq(BLOCK_SIZE, _ => 0);
      var i := 1;
      while i < 65
        invariant 1 <= i <= 65 && blocks[0] == SUPER && |temp| == 512 && (forall j :: 0 < j < 512 ==> temp[j] == 0)
        invariant forall b :: 1 <= b < i ==> ClearMap(blocks[b], b == 1)
      {
        temp := temp[0 := if i == 1 then 1 else 0];
        blocks[i] := Map(temp);
        i := i + 1;
      }
      MapsAreClear(blocks[..]);
      var b := ReserveFreeData();
      InitDir(b, 0, 0);
      RootBlock(blocks[..], stack);
      blocks[i] := Pair(WithPointer(ZeroInode().(kind := Directory), 0, b), stack);
      live := {0};
      FormattedIsTree(Tables());
    }
  }

  /** A map block of zeroes, but for the first byte if `first`. */
  ghost predicate ClearMap(b: Block, first: bool) {
    b.Map? && forall j :: 0 <= j < 512 ==> b.bytes[j] == if first && j == 0 then 1 else 0
  }

  lemma MapsAreClear(d: seq<Block>)
    requires ImageSized(d) && forall b :: 1 <= b < 65 ==> ClearMap(d[b], b == 1)
    ensures FirstFree(View(d).dataMap) == 0 && forall b :: 0 <= b < DATA ==> !View(d).dataMap[b]
    ensures forall n :: 0 <= n < INODES ==> (View(d).inodeMap[n] <==> n == 0)
  {
    forall b | 0 <= b < DATA ensures !View(d).dataMap[b] { assert ClearMap(d[5 + b / 512], false); }
    forall n | 0 <= n < INODES ensures View(d).inodeMap[n] <==> n == 0 {
      assert ClearMap(d[1 + n / 512], 1 + n / 512 == 1);
    }
  }

  /** Writing the first inode block changes the first two inodes and nothing else. */
  lemma RootBlock(d: seq<Block>, stack: Inode)
    requires ImageSized(d)
    ensures forall root :: var v, w := View(d), View(d[65 := Pair(root, stack)]);
              w.inodes[0] == root && w.inodeMap == v.inodeMap && w.dataMap == v.dataMap && w.dirs == v.dirs
  {
    forall root ensures var v, w := View(d), View(d[65 := Pair(root, stack)]);
      w.inodes[0] == root && w.inodeMap == v.inodeMap && w.dataMap == v.dataMap && w.dirs == v.dirs {}
  }

  /** A new inode: of the given kind, with its own number and without any block. */
  ghost predicate IsNew(inode: Inode, n: nat, kind: Kind) {
    inode.kind == kind && inode.ino == n && forall q :: 0 <= q < 44 ==> inode.directp[q] == 0
  }

  /** What a filler with room for `n` names gets of `s`: as much of its front as fits. */
  function Take(s: seq<string>, n: nat): (r: seq<string>)
    ensures r <= s && |r| == if n < |s| then n else |s|
  {
    if n < |s| then s[..n] else s
  }

  lemma TakeSplits(a: seq<string>, b: seq<string>, c: seq<string>, n: nat)
    ensures a + (b + c) == (a + b) + c
    ensures |a + b| > n ==> Take(a + (b + c), n) == Take(a + b, n)
    ensures |a + b| <= n ==> Take(a + b, n) == a + b
  {}

  /** Pass the names of one block to the filler, until it refuses one. */
  method FillNames(m: Slots, before: seq<string>, room: nat) returns (names: seq<string>, full: bool)
    requires |before| <= room
    ensures names == Take(before + UsedNames(m, 0), room)
    ensures full <==> |before + UsedNames(m, 0)| > room
  {
    names := before;
    var j := 0;
    while j < SLOTS
      invariant 0 <= j <= SLOTS && |names| <= room && names + UsedNames(m, j) == before + UsedNames(m, 0)
    {
      if m[j].inum != INUM_FREE {
        if |names| == room {
          return names, true;
        }
        names := names + [m[j].name];
      }
      j := j + 1;
    }
    return names, false;
  }

  lemma InodeThen(v: Store, n: nat, kind: Kind, b: Outcome, l: seq<Write>)
    requires v.Sized() && n < INODES && AllInRegion(b.writes)
    ensures var o := After(n, kind, b);
            && AllInRegion(o.writes) && ApplyAll(v, o.writes) == ApplyAll(WithInode(v, n, kind), b.writes)
            && l + InodeWrites(n, kind) + b.writes == l + o.writes
  {
    InodeWritesApply(v, n, kind);
    ApplyConcat(v, InodeWrites(n, kind), b.writes);
  }

  lemma FreshRoom(slots: Slots, ino: nat, parent: nat)
    ensures FreeSlot(FreshSlots(slots, ino, parent), 0) < SLOTS
  {
    assert !InUse(FreshSlots(slots, ino, parent)[2]);
  }

  /** The four writes of a new block, performed one by one. */
  lemma NewBlockPerformed(v: Store, l: seq<Write>, dir: Inode, i: nat, parent: nat, name: string, n: nat,
                          now: Store, log: seq<Write>)
    requires v.Sized() && dir.ino < INODES && i < NUM_DIRECT && FirstFree(v.dataMap) < DATA
    requires var b := FirstFree(v.dataMap); var ws := NewBlockWrites(v.dirs[b], b, dir, i, parent, name, n);
             && AllInRegion(ws) && now == Apply(Apply(Apply(Apply(v, ws[0]), ws[1]), ws[2]), ws[3])
             && log == l + [ws[0], ws[1], ws[2]] + [ws[3]]
    ensures var o := NewBlockOutcome(v, dir, i, parent, name, n);
            AllInRegion(o.writes) && log == l + o.writes && now == ApplyAll(v, o.writes)
  {
    var b := FirstFree(v.dataMap);
    FourWrites(v, NewBlockWrites(v.dirs[b], b, dir, i, parent, name, n));
  }

  lemma ShortComponents(path: string, i: nat)
    requires i <= |path| < MAX_PATH
    ensures |Components(path[..i])| <= MAX_STEPS
  {
    if i > 1 { ShortPath(path[..i], 1); }
  }

  lemma MakeEnds(v: Store, live: set<nat>, path: string, kind: Kind, o: Outcome)
    requires TreeOk(v, live) && Nameable(path) && o == Operations.Make(v, path, kind)
    ensures AllInRegion(o.writes)
    ensures TreeOk(ApplyAll(v, o.writes), if o.ok then live + {FirstFree(v.inodeMap)} else live)
  {
    MakeRefinesTree(v, live, path, kind, o, |o.writes|);
    RefinesAtEnd(v, o, live, Binding(v, path), kind);
  }

  lemma RefinesAtEnd(v: Store, o: Outcome, live: set<nat>, q: seq<string>, kind: Kind)
    requires v.Sized() && AllInRegion(o.writes) && Refines(v, o, |o.writes|, live, q, kind)
    ensures TreeOk(ApplyAll(v, o.writes), if o.ok then live + {FirstFree(v.inodeMap)} else live)
  {
    assert o.writes[..|o.writes|] == o.writes;
  }

  method UnusedSlot(m: Slots) returns (j: nat)
    ensures j == FreeSlot(m, 0)
  {
    j := 0;
    while j < SLOTS
      invariant 0 <= j <= SLOTS && FreeSlot(m, 0) == FreeSlot(m, j)
    {
      if m[j].inum == INUM_FREE { return; }
      j := j + 1;
    }
  }

  lemma WordsSplit(path: string, i: nat)
    requires i <= |path|
    ensures var e := WordEnd(path, i); var words := Words(path, i);
            && words[0] == path[i..e] && words[0] in words && (LastWord(path, e) <==> |words| == 1)
            && (!LastWord(path, e) ==> words[1..] == Words(path, e + 1) && forall c :: c in words[1..] ==> c in words)
  {}

  ghost predicate IsRound(v: Store, cur: nat, path: string, i: nat, last: bool, success: bool, n: nat, i': nat, u: Unit) {
    && i <= |path| && (last <==> |Words(path, i)| == 1)
    && (last ==> Nav(v, cur, Words(path, i)) == NavResult(success, cur, n))
    && (!last ==> i < i' <= |path| && Words(path, i)[1..] == Words(path, i')
                  && Nav(v, cur, Words(path, i)) == Nav(v, n, Words(path, i')))
  }

  /** The round that starts at `i` has dealt with one word, and the rest of the path starts at `i'`. The quantifier
      keeps this folded. */
  ghost predicate Round(v: Store, cur: nat, path: string, i: nat, last: bool, success: bool, n: nat, i': nat) {
    forall u :: IsRound(v, cur, path, i, last, success, n, i', u)
  }

  /** What a round of navPath that has found inode `n`, or stays in its directory, means for the words of the path. */
  lemma RoundIs(v: Store, cur: nat, path: string, i: nat, e: nat, last: bool, success: bool, n: nat)
    requires i <= |path| && e == WordEnd(path, i) && (last <==> LastWord(path, e))
    requires LookupIn(v, cur, path[i..e]) == (if success then Some(n) else None) && (!success ==> n == cur)
    ensures Round(v, cur, path, i, last, success, n, e + 1)
  {
    NavWord(v, cur, path, i, n);
  }

  lemma ShortWord(path: string, i: nat)
    requires i <= |path| && forall c :: c in Words(path, i) ==> |c| < MAX_FNAME
    ensures |path[i..WordEnd(path, i)]| < MAX_FNAME
  {
    WordsSplit(path, i);
  }

  /** One round of navPath on a path string. */
  lemma NavWord(v: Store, dir: nat, path: string, i: nat, cur: nat)
    requires i <= |path|
    requires var name := path[i..WordEnd(path, i)];
             LookupIn(v, dir, name) == Some(cur) || (LookupIn(v, dir, name) == None && cur == dir)
    ensures var e := WordEnd(path, i); var words := Words(path, i);
            && (LastWord(path, e) ==>
                  |words| == 1 && Nav(v, dir, words) == NavResult(LookupIn(v, dir, path[i..e]).Some?, dir, cur))
            && (!LastWord(path, e) ==>
                  && |words| > 1 && words[1..] == Words(path, e + 1)
                  && Nav(v, dir, words) == Nav(v, cur, Words(path, e + 1)))
  {
    WordsSplit(path, i);
    NavStep(v, dir, Words(path, i), cur);
  }

  lemma NavStep(v: Store, dir: nat, words: seq<string>, cur: nat)
    requires words != [] && (LookupIn(v, dir, words[0]) == Some(cur) || (LookupIn(v, dir, words[0]) == None
            && cur == dir))
    ensures |words| == 1 ==> Nav(v, dir, words) == NavResult(LookupIn(v, dir, words[0]).Some?, dir, cur)
    ensures |words| > 1 ==> Nav(v, dir, words) == Nav(v, cur, words[1..])
  {}
}
