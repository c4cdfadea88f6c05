/** What single operations of the page manager do, in terms of frames, headers and bytes: which frame is given up,
    what an exchange moves, where a load puts the first pages, what a claimed page looks like, and what joining free
    space does to the chunk at the end of a page. */
module PageLaws {
  import opened Bytes
  import opened Chunks
  import opened Carving
  import opened PageTable
  import opened Frames
  import opened PageManager

  // ---------------------------------------------------------------- the victim and the exchange

  /** A page of the requester that still has a chance: all but the last are charged with one more before the look. */
  ghost predicate Spared(fs: seq<Frame>, pid: nat, i: nat)
    requires i < |fs|
  {
    fs[i].pid == pid && fs[i].swapclock + (if i + 1 == |fs| then 0 else 1) < 3
  }

  /** The victim is the last page that is not spared; there is none exactly if all are. */
  lemma VictimExactly(fs: seq<Frame>, pid: nat, v: nat)
    ensures Victim(fs, pid) == v <==>
              v <= |fs| && (v > 0 ==> !Spared(fs, pid, v - 1)) && forall i :: v <= i < |fs| ==> Spared(fs, pid, i)
  {
    forall i | 0 <= i < |fs| ensures Spared(fs, pid, i) == Passed(fs, pid, i) {}
    var w := Victim(fs, pid);
    assert w > 0 ==> !Spared(fs, pid, w - 1);
  }

  /** swapPages exchanges everything in the two headers but address and links, and leaves the other frames alone. */
  lemma SwapMovesHeaders(m: Memory, i: nat, j: nat, k: nat)
    requires i < |m.frames| && j < |m.frames| && k < |m.frames| && |m.pages| == |m.frames|
    ensures var f, g := Swapped(m, i, j).frames[k], m.frames[if k == i then j else if k == j then i else k];
            && f.pid == g.pid && f.reference == g.reference && f.free == g.free && f.order == g.order
            && f.size == g.size && f.shared == g.shared && f.swapclock == g.swapclock
            && f.start == m.frames[k].start && f.next == m.frames[k].next && f.prev == m.frames[k].prev
    ensures k != i && k != j ==> Swapped(m, i, j).pages[k] == m.pages[k]
  {
  }

  // ---------------------------------------------------------------- where a load puts the first pages

  lemma {:induction false} FirstTwoStay(t: Table, pid: nat, p1: nat, k: int, top: int, l: Loading)
    requires LoadsTo(t, pid, p1, k, top, l) && k >= 3 && p1 >= 1 && |t| >= 2 && Is(t[0], pid, 1) && Is(t[1], pid, 2)
    ensures l.Loaded? ==> |l.table| >= 2 && Is(l.table[0], pid, 1) && Is(l.table[1], pid, 2)
    decreases top + 1 - k
  {
    var p2 := Find(t, pid, k);
    if p2 == |t| {
      LoadsToEnd(t, pid, p1, k, top, l);
    } else {
      LoadsToStep(t, pid, p1, k, top, l, p2);
      if p1 == p2 || p1 + 1 < |t| { FirstTwoStay(Followed(t, p1, p2), pid, p2, k + 1, top, l); }
    }
  }

  lemma LoadSecond(t: Table, pid: nat, top: int, l: Loading)
    requires LoadsTo(t, pid, 0, 2, top, l) && t != [] && Is(t[0], pid, 1)
    ensures l.Loaded? ==> |l.table| == |t| && Is(l.table[0], pid, 1)
    ensures l.Loaded? && Find(t, pid, 2) < |t| ==> |t| >= 2 && Is(l.table[1], pid, 2)
  {
    var p2 := Find(t, pid, 2);
    var swaps := LoadFromExchanges(t, pid, 0, 2, top, l);
    if p2 == |t| {
      LoadsToEnd(t, pid, 0, 2, top, l);
    } else {
      LoadsToStep(t, pid, 0, 2, top, l, p2);
      assert p2 != 0;
      FirstTwoStay(Followed(t, 0, p2), pid, p2, 3, top, l);
    }
  }

  /** After every load that does not crash, page 1 is in the first frame and page 2, if there is one, in the second,
      wherever the pages were and whatever became of the others. */
  lemma LoadPlacesFirstTwo(t: Table, pid: nat)
    requires Load(t, pid).Loaded?
    ensures var r := Load(t, pid).table;
            && |r| == |t| > 0 && Is(r[0], pid, 1)
            && (forall i :: 0 <= i < |t| && Is(t[i], pid, 2) ==> |t| >= 2 && Is(r[1], pid, 2))
  {
    var n := Find(t, pid, 1);
    LoadStarts(t, pid, n);
    var u := Exchange(t, 0, n);
    LoadSecond(u, pid, Top(t), Load(t, pid));
    forall i | 0 <= i < |t| && Is(t[i], pid, 2) ensures Find(u, pid, 2) < |u| {
      assert Is(u[if i == 0 then n else i], pid, 2);
    }
  }

  // ---------------------------------------------------------------- a claimed page

  /** One free chunk over the whole page at `base`. */
  ghost predicate IsEmpty(page: seq<Byte>, base: nat) {
    |page| == PAGE_SIZE && Tiled(page, base, 0) && IsFree(page, 0) && SizeOf(page, 0) == 4040 && NextOf(page, 0) == NULL
  }

  lemma FreshIsEmpty(page: seq<Byte>, base: nat)
    requires |page| == PAGE_SIZE && Addressable(page, base)
    ensures IsEmpty(Fresh(page, base), base)
  {
    FreshTiles(page, base);
  }

  lemma EmptyMoves(page: seq<Byte>, here: nat, there: nat)
    requires IsEmpty(page, here) && here > 0 && there > 0 && there + PAGE_SIZE <= ADDRESSES
    ensures IsEmpty(Restored(page, there), there)
  {
    var moved := Restored(page, there);
    MoveKeepsBlocks(page, here, there, 0);
    MoveKeepsListExactly(page, here, there);
    RestoredIsLinked(page, there);
    LinkedHere(moved, there, 0, NULL);
  }

  /** getFreePage with a free frame: the first one, empty and in use by the process, changes places with the first
      page; no other frame changes. */
  lemma ClaimedIsEmpty(t: Table, pid: nat)
    requires FirstFree(t) < |t| && (forall i :: 0 <= i < |t| ==> |t[i].body| == PAGE_SIZE) && BaseOf(|t|) <= ADDRESSES
    ensures var n, r := FirstFree(t), Claim(t, pid);
            && t[n].free && (forall i :: 0 <= i < n ==> !t[i].free)
            && r[0].pid == pid && !r[0].free && r[0].order == t[n].order && r[0].shared == t[n].shared
            && IsEmpty(r[0].body, BaseOf(0))
            && (n != 0 ==> r[n].pid == t[0].pid && r[n].order == t[0].order && r[n].shared == t[0].shared && !r[n].free)
            && forall i :: 0 < i < |t| && i != n ==> r[i] == t[i]
  {
    var n := FirstFree(t);
    FreshIsEmpty(t[n].body, BaseOf(n));
    if n != 0 { EmptyMoves(Fresh(t[n].body, BaseOf(n)), BaseOf(n), BaseOf(0)); }
  }

  // ---------------------------------------------------------------- joining free space

  /** The chunk that is enlarged is the last of the list, if that is free. */
  lemma EndJoinExactly(page: seq<Byte>, base: nat, at: nat)
    requires ListOk(page, base, 0)
    ensures EndJoin(page, base) == Into(at) <==>
              OnList(page, base, 0, at) && Inside(page, at) && NextOf(page, at) == NULL && IsFree(page, at)
    ensures EndJoin(page, base) == Alone <==> !IsFree(page, ListEnd(page, base, 0))
  {
    LastIsEnd(page, base, 0, at);
  }

  lemma {:induction false} LastIsEnd(page: seq<Byte>, base: nat, t: nat, at: nat)
    requires ListOk(page, base, t)
    ensures OnList(page, base, t, at) && Inside(page, at) && NextOf(page, at) == NULL <==> at == ListEnd(page, base, t)
    decreases |page| - t
  {
    if NextOf(page, t) != NULL { LastIsEnd(page, base, NextOf(page, t) - base, at); }
  }

  /** joinFreeSpace adds the size of the new page to the chunk and marks the new page as its continuation. Nothing
      else changes: not the links, not the block, not another page. The size wraps around in 32 bits. */
  lemma JoinEnlarges(t: Table, last: nat, at: nat)
    requires 0 < last < |t| && Inside(t[last].body, at)
    ensures var b, r := t[last].body, Joined(t, last, Into(at));
            && |r| == |t| && r[0] == t[0].(shared := true) && r[last] == t[last].(body := r[last].body)
            && |r[last].body| == |b| && SizeOf(r[last].body, at) == (SizeOf(b, at) + |t[0].body|) % 4294967296
            && (forall i :: 0 <= i < |b| && !(at + 24 <= i < at + 28) ==> r[last].body[i] == b[i])
            && forall i :: 0 < i < |t| && i != last ==> r[i] == t[i]
  {
    SizePut(t[last].body, at, SizeOf(t[last].body, at) + |t[0].body|);
  }

  /** Without a free chunk at the end nothing changes, but for the mark if the chunk is in another page. */
  lemma JoinLeaves(t: Table, last: nat)
    requires last < |t|
    ensures Joined(t, last, Alone) == t && Joined(t, last, Elsewhere) == t[0 := t[0].(shared := true)]
  {
  }

  lemma SizePut(b: seq<Byte>, at: nat, size: nat)
    requires Inside(b, at)
    ensures SizeOf(Put(b, at + 24, 4, size), at) == size % 4294967296
  {
    var r := Put(b, at + 24, 4, size);
    WordOfFour(r, at + 24);
    LowFour(size);
    assert r[at + 24] == Digit(size, 0) && r[at + 25] == Digit(size, 1);
    assert r[at + 26] == Digit(size, 2) && r[at + 27] == Digit(size, 3);
  }

  function Four(a: int, b: int, c: int, d: int): int { a + 256 * b + 65536 * c + 16777216 * d }

  lemma WordOfFour(b: seq<Byte>, i: nat)
    requires i + 4 <= |b|
    ensures Word(b, i, 4) == Four(b[i], b[i + 1], b[i + 2], b[i + 3])
  {
    var w3, w2, w1 := Word(b, i + 3, 1), Word(b, i + 2, 2), Word(b, i + 1, 3);
    assert Word(b, i + 4, 0) == 0 && w3 == b[i + 3] + 256 * Word(b, i + 4, 0);
    assert w2 == b[i + 2] + 256 * w3;
    assert w1 == b[i + 1] + 256 * w2;
  }

  lemma DigitIs(v: nat, k: nat)
    requires k > 0
    ensures Digit(v, k) == Digit(v / 256, k - 1)
  {
  }

  lemma Remainder(v: nat, low: nat, high: nat)
    requires v == low + 4294967296 * high && low < 4294967296
    ensures v % 4294967296 == low
  {
  }

  lemma Halves(v: nat, a: nat, b: nat, c: nat)
    requires a == v / 256 && b == a / 256 && c == b / 256
    ensures v == Four(v % 256, a % 256, b % 256, c % 256) + 4294967296 * (c / 256)
  {
  }

  /** The four lowest bytes of a number. */
  lemma LowFour(v: nat)
    ensures Four(Digit(v, 0), Digit(v, 1), Digit(v, 2), Digit(v, 3)) == v % 4294967296
  {
    var a := v / 256;
    var b := a / 256;
    var c := b / 256;
    DigitIs(v, 1);
    DigitIs(v, 2);
    DigitIs(a, 1);
    DigitIs(v, 3);
    DigitIs(a, 2);
    DigitIs(b, 1);
    Halves(v, a, b, c);
    Remainder(v, Four(v % 256, a % 256, b % 256, c % 256), c / 256);
  }

  /** The one free chunk of an empty page, once joined, ends where the page behind it does. */
  lemma JoinedCoversNext(t: Table, last: nat)
    requires 0 < last < |t| && IsEmpty(t[last].body, BaseOf(last)) && |t[0].body| == PAGE_SIZE
    ensures EndJoin(t[last].body, BaseOf(last)) == Into(0)
    ensures BaseOf(last) + EndOf(Joined(t, last, Into(0))[last].body, 0) == BaseOf(last + 2)
  {
    EndJoinExactly(t[last].body, BaseOf(last), 0);
    JoinEnlarges(t, last, 0);
  }
}
