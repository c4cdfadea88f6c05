/** The chunk headers inside the bytes of one page, the walk that rebuilds their links after the page has moved,
    and the list that allocation follows. */
module Chunks {
  import opened Bytes

  /** Size of a chunk header. */
  const HEADER: nat := 56
  const NULL: nat := 0

  // ---------------------------------------------------------------- a header in memory

  /** The header at offset `s` lies in the page. */
  predicate Inside(page: seq<Byte>, s: nat) { s + HEADER <= |page| }

  function IsFree(page: seq<Byte>, s: nat): bool
    requires Inside(page, s)
  {
    Word(page, s + 8, 4) != 0
  }

  function StartOf(page: seq<Byte>, s: nat): nat
    requires Inside(page, s)
  {
    Word(page, s + 16, 8)
  }

  function SizeOf(page: seq<Byte>, s: nat): nat
    requires Inside(page, s)
  {
    Word(page, s + 24, 4)
  }

  function NextOf(page: seq<Byte>, s: nat): nat
    requires Inside(page, s)
  {
    Word(page, s + 32, 8)
  }

  function PrevOf(page: seq<Byte>, s: nat): nat
    requires Inside(page, s)
  {
    Word(page, s + 40, 8)
  }

  /** The bytes of the links in the header at `s`: `start`, `next` and `prev`. */
  predicate LinkAt(s: nat, i: nat) { s + 16 <= i < s + 24 || s + 32 <= i < s + 48 }

  function WithLinks(page: seq<Byte>, s: nat, start: nat, next: nat, prev: nat): (r: seq<Byte>)
    requires Inside(page, s)
    ensures |r| == |page| && forall i :: 0 <= i < |page| && !LinkAt(s, i) ==> r[i] == page[i]
  {
    Put(Put(Put(page, s + 16, 8, start), s + 32, 8, next), s + 40, 8, prev)
  }

  lemma ReadLinks(page: seq<Byte>, s: nat, start: nat, next: nat, prev: nat)
    requires Inside(page, s) && start < ADDRESSES && next < ADDRESSES && prev < ADDRESSES
    ensures var r := WithLinks(page, s, start, next, prev);
            StartOf(r, s) == start && NextOf(r, s) == next && PrevOf(r, s) == prev
  {
    var a := Put(page, s + 16, 8, start);
    var b := Put(a, s + 32, 8, next);
    var r := Put(b, s + 40, 8, prev);
    Widths();
    WordPut(page, s + 16, 8, start);
    WordPut(a, s + 32, 8, next);
    WordPut(b, s + 40, 8, prev);
    WordAgrees(a, r, s + 16, 8);
    WordAgrees(b, r, s + 32, 8);
  }

  lemma WithLinksAgrees(p: seq<Byte>, q: seq<Byte>, s: nat, start: nat, next: nat, prev: nat, i: nat)
    requires |p| == |q| && Inside(p, s) && i < |p| && (LinkAt(s, i) || p[i] == q[i])
    ensures WithLinks(p, s, start, next, prev)[i] == WithLinks(q, s, start, next, prev)[i]
  {
  }

  /** The page from offset `s` on is the same. */
  ghost predicate SameFrom(p: seq<Byte>, q: seq<Byte>, s: nat) {
    |p| == |q| && forall i :: s <= i < |p| ==> p[i] == q[i]
  }

  lemma HeaderAgrees(p: seq<Byte>, q: seq<Byte>, s: nat)
    requires SameFrom(p, q, s) && Inside(p, s)
    ensures IsFree(p, s) == IsFree(q, s) && SizeOf(p, s) == SizeOf(q, s) && NextOf(p, s) == NextOf(q, s)
  {
    WordAgrees(p, q, s + 8, 4);
    WordAgrees(p, q, s + 24, 4);
    WordAgrees(p, q, s + 32, 8);
  }

  // ---------------------------------------------------------------- the walk

  /** The walk stops where no further header fits. */
  predicate Stops(size: nat, s: nat) { s >= size || size - s <= HEADER }

  function EndOf(page: seq<Byte>, s: nat): nat
    requires Inside(page, s)
  {
    s + HEADER + SizeOf(page, s)
  }

  /** The offsets that the walk takes for chunk headers, from offset `s` on. */
  function Visited(page: seq<Byte>, s: nat): seq<nat>
    decreases |page| - s
  {
    if Stops(|page|, s) then [] else [s] + Visited(page, EndOf(page, s))
  }

  /** The page after the walk has given the header at `s` its links, having come from `prev`. */
  function Relinked(page: seq<Byte>, base: nat, s: nat, prev: nat): (r: seq<Byte>)
    requires Inside(page, s)
    ensures |r| == |page| && forall i :: 0 <= i < |page| && !LinkAt(s, i) ==> r[i] == page[i]
  {
    var e := EndOf(page, s);
    WithLinks(page, s, base + s + HEADER, if Stops(|page|, e) then NULL else base + e, prev)
  }

  function RestoredFrom(page: seq<Byte>, base: nat, s: nat, prev: nat): (r: seq<Byte>)
    ensures |r| == |page|
    decreases |page| - s
  {
    if Stops(|page|, s) then page
    else RestoredFrom(Relinked(page, base, s, prev), base, EndOf(page, s), base + s)
  }

  /** The page after its links were rebuilt for address `base`. */
  function Restored(page: seq<Byte>, base: nat): (r: seq<Byte>)
    ensures |r| == |page|
  {
    RestoredFrom(page, base, 0, NULL)
  }

  datatype Unit = Unit

  ghost predicate Walks(page: seq<Byte>, base: nat, s: nat, prev: nat, r: seq<Byte>, u: Unit) {
    RestoredFrom(page, base, s, prev) == r
  }

  /** The walk from `s` on leads from `page` to `r`. The quantifier keeps its definition folded. */
  ghost predicate WalksTo(page: seq<Byte>, base: nat, s: nat, prev: nat, r: seq<Byte>) {
    forall u :: Walks(page, base, s, prev, r, u)
  }

  lemma WalksToStep(page: seq<Byte>, base: nat, s: nat, prev: nat, r: seq<Byte>)
    requires WalksTo(page, base, s, prev, r)
    ensures |r| == |page|
    ensures if Stops(|page|, s) then r == page
            else WalksTo(Relinked(page, base, s, prev), base, EndOf(page, s), base + s, r)
  {
    assert Walks(page, base, s, prev, r, Unit);
  }

  lemma RelinkedEnd(page: seq<Byte>, base: nat, s: nat, prev: nat)
    requires Inside(page, s)
    ensures EndOf(Relinked(page, base, s, prev), s) == EndOf(page, s)
  {
    WordAgrees(page, Relinked(page, base, s, prev), s + 24, 4);
  }

  /** The bytes that the walk from `s` on sets. */
  ghost predicate LinkByteFrom(page: seq<Byte>, s: nat, i: nat)
    decreases |page| - s
  {
    !Stops(|page|, s) && (LinkAt(s, i) || LinkByteFrom(page, EndOf(page, s), i))
  }

  /** The bytes that a move sets: the links of the headers that the walk visits. */
  ghost predicate LinkByte(page: seq<Byte>, i: nat) { exists s :: s in Visited(page, 0) && LinkAt(s, i) }

  lemma {:induction false} LinkByteIsVisited(page: seq<Byte>, s: nat, i: nat)
    ensures LinkByteFrom(page, s, i) <==> exists t :: t in Visited(page, s) && LinkAt(t, i)
    decreases |page| - s
  {
    if !Stops(|page|, s) {
      LinkByteIsVisited(page, EndOf(page, s), i);
      assert s in Visited(page, s);
    }
  }

  lemma {:induction false} LinkBytesAhead(page: seq<Byte>, s: nat, i: nat)
    requires LinkByteFrom(page, s, i)
    ensures s + 16 <= i < |page|
    decreases |page| - s
  {
    if !LinkAt(s, i) { LinkBytesAhead(page, EndOf(page, s), i); }
  }

  // ---------------------------------------------------------------- what the walk looks at

  /** The walk from `s` on sees the same in both pages: they agree from `s` on, but for the bytes it sets. */
  ghost predicate Alike(p: seq<Byte>, q: seq<Byte>, s: nat) {
    |p| == |q| && forall i :: s <= i < |p| && !LinkByteFrom(p, s, i) ==> p[i] == q[i]
  }

  lemma AlikeAhead(p: seq<Byte>, q: seq<Byte>, s: nat)
    requires Alike(p, q, s) && !Stops(|p|, s)
    ensures EndOf(q, s) == EndOf(p, s) && Alike(p, q, EndOf(p, s))
  {
    var e := EndOf(p, s);
    forall i | s + 24 <= i < s + 28 ensures p[i] == q[i] {
      if LinkByteFrom(p, e, i) { LinkBytesAhead(p, e, i); }
    }
    WordAgrees(p, q, s + 24, 4);
  }

  lemma {:induction false} AlikeVisited(p: seq<Byte>, q: seq<Byte>, s: nat)
    requires Alike(p, q, s)
    ensures Visited(p, s) == Visited(q, s)
    decreases |p| - s
  {
    if !Stops(|p|, s) {
      AlikeAhead(p, q, s);
      AlikeVisited(p, q, EndOf(p, s));
    }
  }

  lemma {:induction false} AlikeLinkBytes(p: seq<Byte>, q: seq<Byte>, s: nat, i: nat)
    requires Alike(p, q, s)
    ensures LinkByteFrom(p, s, i) == LinkByteFrom(q, s, i)
    decreases |p| - s
  {
    if !Stops(|p|, s) {
      AlikeAhead(p, q, s);
      AlikeLinkBytes(p, q, EndOf(p, s), i);
    }
  }

  /** The page after one step of the walk. */
  lemma RelinkedAlike(page: seq<Byte>, base: nat, s: nat, prev: nat)
    requires !Stops(|page|, s)
    ensures var r := Relinked(page, base, s, prev); Alike(page, r, s) && SameFrom(page, r, EndOf(page, s))
  {
  }

  lemma SameIsAlike(p: seq<Byte>, q: seq<Byte>, s: nat)
    requires SameFrom(p, q, s)
    ensures Alike(p, q, s)
  {
  }

  // ---------------------------------------------------------------- what the walk does

  /** Only the links of the headers visited change. */
  lemma {:induction false} WalkKeeps(page: seq<Byte>, base: nat, s: nat, prev: nat, r: seq<Byte>, i: nat)
    requires WalksTo(page, base, s, prev, r) && i < |page| && !LinkByteFrom(page, s, i)
    ensures |r| == |page| && r[i] == page[i]
    decreases |page| - s
  {
    WalksToStep(page, base, s, prev, r);
    if !Stops(|page|, s) {
      var e, page' := EndOf(page, s), Relinked(page, base, s, prev);
      assert LinkByteFrom(page', e, i) == LinkByteFrom(page, e, i) by {
        RelinkedAlike(page, base, s, prev);
        SameIsAlike(page, page', e);
        AlikeLinkBytes(page, page', e, i);
      }
      WalkKeeps(page', base, e, base + s, r, i);
    }
  }

  lemma WalkIsAlike(page: seq<Byte>, base: nat, s: nat, prev: nat, r: seq<Byte>)
    requires WalksTo(page, base, s, prev, r)
    ensures Alike(page, r, s)
  {
    WalksToStep(page, base, s, prev, r);
    forall i | s <= i < |page| && !LinkByteFrom(page, s, i) ensures r[i] == page[i] {
      WalkKeeps(page, base, s, prev, r, i);
    }
  }

  lemma WalkKeepsEarlier(page: seq<Byte>, base: nat, s: nat, prev: nat, r: seq<Byte>, i: nat)
    requires WalksTo(page, base, s, prev, r) && i < |page| && i < s + 16
    ensures |r| == |page| && r[i] == page[i]
  {
    if LinkByteFrom(page, s, i) { LinkBytesAhead(page, s, i); }
    WalkKeeps(page, base, s, prev, r, i);
  }

  /** Up to its end, a chunk visited stays as the walk left it. */
  lemma WalkHere(page: seq<Byte>, base: nat, s: nat, prev: nat, r: seq<Byte>, i: nat)
    requires WalksTo(page, base, s, prev, r) && !Stops(|page|, s) && i < |page| && i < EndOf(page, s)
    ensures |r| == |page| && r[i] == Relinked(page, base, s, prev)[i]
  {
    WalksToStep(page, base, s, prev, r);
    WalkKeepsEarlier(Relinked(page, base, s, prev), base, EndOf(page, s), base + s, r, i);
  }

  /** What the walk sets does not depend on what was there. */
  lemma {:induction false} WalkAgrees(p: seq<Byte>, q: seq<Byte>, base: nat, s: nat, prev: nat,
                                      r: seq<Byte>, w: seq<Byte>, i: nat)
    requires Alike(p, q, s) && s <= i < |p| && WalksTo(p, base, s, prev, r) && WalksTo(q, base, s, prev, w)
    ensures |r| == |w| == |p| && r[i] == w[i]
    decreases |p| - s
  {
    WalksToStep(p, base, s, prev, r);
    WalksToStep(q, base, s, prev, w);
    if !Stops(|p|, s) {
      AlikeAhead(p, q, s);
      if i < EndOf(p, s) {
        WalkHere(p, base, s, prev, r, i);
        WalkHere(q, base, s, prev, w, i);
        StepAgreesAt(p, q, base, s, prev, i);
      } else {
        StepAgrees(p, q, base, s, prev);
        WalkAgrees(Relinked(p, base, s, prev), Relinked(q, base, s, prev), base, EndOf(p, s), base + s, r, w, i);
      }
    }
  }

  lemma StepAgreesAt(p: seq<Byte>, q: seq<Byte>, base: nat, s: nat, prev: nat, i: nat)
    requires Alike(p, q, s) && !Stops(|p|, s) && s <= i < |p| && i < EndOf(p, s)
    ensures Relinked(p, base, s, prev)[i] == Relinked(q, base, s, prev)[i]
  {
    AlikeAhead(p, q, s);
    var e := EndOf(p, s);
    if LinkByteFrom(p, e, i) { LinkBytesAhead(p, e, i); }
    WithLinksAgrees(p, q, s, base + s + HEADER, if Stops(|p|, e) then NULL else base + e, prev, i);
  }

  lemma StepAgrees(p: seq<Byte>, q: seq<Byte>, base: nat, s: nat, prev: nat)
    requires Alike(p, q, s) && !Stops(|p|, s)
    ensures Alike(Relinked(p, base, s, prev), Relinked(q, base, s, prev), EndOf(p, s))
  {
    var e := EndOf(p, s);
    AlikeAhead(p, q, s);
    var p', q' := Relinked(p, base, s, prev), Relinked(q, base, s, prev);
    RelinkedAlike(p, base, s, prev);
    SameIsAlike(p, p', e);
    forall i | e <= i < |p| && !LinkByteFrom(p', e, i) ensures p'[i] == q'[i] {
      AlikeLinkBytes(p, p', e, i);
      assert p[i] == q[i];
    }
  }

  ghost predicate IsLinked(page: seq<Byte>, base: nat, s: nat, prev: nat, u: Unit)
    decreases |page| - s, 0
  {
    Stops(|page|, s) || (page == Relinked(page, base, s, prev) && Linked(page, base, EndOf(page, s), base + s))
  }

  /** Every header visited carries the links that the walk would give it. The quantifier keeps this folded. */
  ghost predicate Linked(page: seq<Byte>, base: nat, s: nat, prev: nat)
    decreases |page| - s, 1
  {
    forall u :: IsLinked(page, base, s, prev, u)
  }

  /** A page whose links are right is left alone. */
  lemma {:induction false} LinkedIsFixed(page: seq<Byte>, base: nat, s: nat, prev: nat)
    requires Linked(page, base, s, prev)
    ensures RestoredFrom(page, base, s, prev) == page
    decreases |page| - s
  {
    assert IsLinked(page, base, s, prev, Unit);
    if !Stops(|page|, s) { LinkedIsFixed(page, base, EndOf(page, s), base + s); }
  }

  /** Links that were rebuilt once are rebuilt again without a trace of the first time. */
  lemma RestoredTwice(page: seq<Byte>, base: nat, base': nat)
    ensures Restored(Restored(page, base), base') == Restored(page, base')
  {
    var one := Restored(page, base);
    assert WalksTo(page, base, 0, NULL, one);
    WalkIsAlike(page, base, 0, NULL, one);
    SameAfterwards(page, one, base');
  }

  /** Two pages that the walk cannot tell apart are the same after it. */
  lemma SameAfterwards(p: seq<Byte>, q: seq<Byte>, base: nat)
    requires Alike(p, q, 0)
    ensures Restored(p, base) == Restored(q, base)
  {
    var r, w := Restored(p, base), Restored(q, base);
    assert WalksTo(p, base, 0, NULL, r) && WalksTo(q, base, 0, NULL, w);
    forall i | 0 <= i < |p| ensures r[i] == w[i] { WalkAgrees(p, q, base, 0, NULL, r, w, i); }
  }

  /** After the walk the first header visited has its links. */
  lemma FirstIsLinked(page: seq<Byte>, base: nat, s: nat, prev: nat, r: seq<Byte>)
    requires WalksTo(page, base, s, prev, r) && !Stops(|page|, s)
    ensures |r| == |page| && EndOf(r, s) == EndOf(page, s) && r == Relinked(r, base, s, prev)
  {
    WalkIsAlike(page, base, s, prev, r);
    AlikeAhead(page, r, s);
    forall i | 0 <= i < |r| ensures r[i] == Relinked(r, base, s, prev)[i] {
      if LinkAt(s, i) {
        WalkHere(page, base, s, prev, r, i);
        StepAgreesAt(page, r, base, s, prev, i);
      }
    }
  }

  /** After the walk every link is right. */
  lemma {:induction false} WalkLinks(page: seq<Byte>, base: nat, s: nat, prev: nat, r: seq<Byte>)
    requires WalksTo(page, base, s, prev, r)
    ensures Linked(r, base, s, prev)
    decreases |page| - s
  {
    WalksToStep(page, base, s, prev, r);
    if !Stops(|page|, s) {
      FirstIsLinked(page, base, s, prev, r);
      WalkLinks(Relinked(page, base, s, prev), base, EndOf(page, s), base + s, r);
    }
  }

  lemma RestoredIsLinked(page: seq<Byte>, base: nat)
    ensures Linked(Restored(page, base), base, 0, NULL)
  {
    assert WalksTo(page, base, 0, NULL, Restored(page, base));
    WalkLinks(page, base, 0, NULL, Restored(page, base));
  }

  /** Moving a page away and back is the identity on linked pages. */
  lemma MovedTwice(page: seq<Byte>, here: nat, there: nat)
    requires Linked(page, here, 0, NULL)
    ensures Restored(Restored(page, there), here) == page
  {
    RestoredTwice(page, there, here);
    LinkedIsFixed(page, here, 0, NULL);
  }

  // ---------------------------------------------------------------- what a move does to the bytes

  /** After the move the byte that was `b` is still `b`. */
  ghost predicate Survives(page: seq<Byte>, base: nat, i: nat, b: Byte)
    requires i < |page|
  {
    Restored(page[i := b], base)[i] == b
  }

  /** A link byte is overwritten, whatever it was: the moved page bears no trace of it. */
  lemma LinkByteIsLost(page: seq<Byte>, base: nat, i: nat, b: Byte)
    requires i < |page| && LinkByte(page, i)
    ensures Restored(page[i := b], base) == Restored(page, base)
  {
    LinkByteIsVisited(page, 0, i);
    SameAfterwards(page, page[i := b], base);
  }

  /** Any other byte is kept. */
  lemma OtherByteIsKept(page: seq<Byte>, base: nat, i: nat)
    requires i < |page| && !LinkByte(page, i)
    ensures Restored(page, base)[i] == page[i]
  {
    LinkByteIsVisited(page, 0, i);
    assert WalksTo(page, base, 0, NULL, Restored(page, base));
    WalkKeeps(page, base, 0, NULL, Restored(page, base), i);
  }

  /** Whether a byte is a link byte does not depend on the byte. */
  lemma LinkByteByOthers(page: seq<Byte>, i: nat, b: Byte)
    requires i < |page|
    ensures LinkByte(page[i := b], i) == LinkByte(page, i)
  {
    var q := page[i := b];
    LinkByteIsVisited(page, 0, i);
    LinkByteIsVisited(q, 0, i);
    if LinkByteFrom(page, 0, i) {
      AlikeLinkBytes(page, q, 0, i);
    } else if LinkByteFrom(q, 0, i) {
      AlikeLinkBytes(q, page, 0, i);
    }
  }

  /** A byte survives the move of its page, whatever it is, exactly if it is not a link byte. */
  lemma ByteSurvivesExactly(page: seq<Byte>, base: nat, i: nat)
    requires i < |page|
    ensures (forall b :: Survives(page, base, i, b)) <==> !LinkByte(page, i)
  {
    if LinkByte(page, i) {
      LinkByteIsLost(page, base, i, 0);
      LinkByteIsLost(page, base, i, 1);
      assert !(Survives(page, base, i, 0) && Survives(page, base, i, 1));
    } else {
      forall b ensures Survives(page, base, i, b) {
        LinkByteByOthers(page, i, b);
        OtherByteIsKept(page[i := b], base, i);
      }
    }
  }

  /** The block behind a header that the walk visits has no link bytes. */
  lemma {:induction false} NoLinksInBlock(page: seq<Byte>, t: nat, s: nat, i: nat)
    requires s in Visited(page, t) && Inside(page, s) && s + HEADER <= i < EndOf(page, s)
    ensures t <= s && !LinkByteFrom(page, t, i)
    decreases |page| - t
  {
    var e := EndOf(page, t);
    if s == t {
      if LinkByteFrom(page, e, i) { LinkBytesAhead(page, e, i); }
    } else {
      NoLinksInBlock(page, e, s, i);
    }
  }

  /** A page that holds data from its first byte on loses the bytes where a first header would have its links. */
  lemma FirstLinkBytes(page: seq<Byte>, i: nat)
    requires |page| > HEADER && LinkAt(0, i)
    ensures LinkByte(page, i)
  {
    assert 0 in Visited(page, 0);
  }

  // ---------------------------------------------------------------- the loop of the walk

  /** While the loop runs, the last header points past the end; that link is cut after the loop. */
  ghost function Cut(r: seq<Byte>, s: nat, prev: nat): (c: seq<Byte>)
    ensures |c| == |r|
  {
    if s > 0 && Stops(|r|, s) && Inside(r, prev) then Put(r, prev + 32, 8, NULL) else r
  }

  lemma CutIsRelinked(page: seq<Byte>, base: nat, s: nat, prev: nat)
    requires Inside(page, s)
    ensures var e := EndOf(page, s);
            Cut(WithLinks(page, s, base + s + HEADER, base + e, prev), e, s) == Relinked(page, base, s, prev)
  {
  }

  /** restorePointers, for a page at `base`. */
  method RestorePointers(page: seq<Byte>, base: nat) returns (r: seq<Byte>)
    requires |page| > HEADER
    ensures r == Restored(page, base)
  {
    r := page;
    var s: nat, old_: nat := 0, NULL;
    ghost var prev: nat, to := 0, Restored(page, base);
    while s < |page| && |page| - s > HEADER
      invariant |r| == |page| && AtHeader(r, base, s, prev, old_, to)
      decreases |page| - s
    {
      WalksToStep(r, base, s, old_, to);
      var e := EndOf(r, s);
      NextHeader(r, base, s, prev, old_, to);
      r := WithLinks(r, s, base + s + HEADER, base + e, old_);
      prev := s;
      old_, s := base + s, e;
    }
    WalksToStep(Cut(r, s, prev), base, s, old_, to);
    r := Put(r, old_ - base + 32, 8, NULL);
  }

  /** The loop is at `s`, having come from `prev`, and will end in `to`. */
  ghost predicate AtHeader(r: seq<Byte>, base: nat, s: nat, prev: nat, old_: nat, to: seq<Byte>) {
    && (if s == 0 then old_ == NULL else Inside(r, prev) && old_ == base + prev)
    && WalksTo(Cut(r, s, prev), base, s, old_, to)
  }

  lemma NextHeader(r: seq<Byte>, base: nat, s: nat, prev: nat, old_: nat, to: seq<Byte>)
    requires AtHeader(r, base, s, prev, old_, to) && !Stops(|r|, s)
    ensures var e := EndOf(r, s); AtHeader(WithLinks(r, s, base + s + HEADER, base + e, old_), base, e, s, base + s, to)
  {
    WalksToStep(r, base, s, old_, to);
    CutIsRelinked(r, base, s, old_);
  }

  lemma LinkedHere(page: seq<Byte>, base: nat, s: nat, prev: nat)
    requires Linked(page, base, s, prev) && !Stops(|page|, s) && base + |page| <= ADDRESSES && prev < ADDRESSES
    ensures StartOf(page, s) == base + s + HEADER && PrevOf(page, s) == prev
    ensures NextOf(page, s) == if Stops(|page|, EndOf(page, s)) then NULL else base + EndOf(page, s)
    ensures Linked(page, base, EndOf(page, s), base + s)
  {
    var e := EndOf(page, s);
    assert IsLinked(page, base, s, prev, Unit);
    ReadLinks(page, s, base + s + HEADER, if Stops(|page|, e) then NULL else base + e, prev);
  }

  /** In a linked page every header visited starts its data right behind itself, `next` leads to the
      header visited after it and `prev` to the one before. */
  lemma {:induction false} LinksAreInverse(page: seq<Byte>, base: nat, s: nat, prev: nat, i: nat)
    requires Linked(page, base, s, prev) && i < |Visited(page, s)| && base + |page| <= ADDRESSES && prev < ADDRESSES
    ensures var v := Visited(page, s);
            && Inside(page, v[i]) && StartOf(page, v[i]) == base + v[i] + HEADER
            && NextOf(page, v[i]) == (if i + 1 < |v| then base + v[i + 1] else NULL)
            && PrevOf(page, v[i]) == (if i > 0 then base + v[i - 1] else prev)
    decreases |page| - s
  {
    var e := EndOf(page, s);
    assert Visited(page, s) == [s] + Visited(page, e);
    assert Visited(page, e) != [] ==> Visited(page, e)[0] == e;
    LinkedHere(page, base, s, prev);
    if i > 0 { LinksAreInverse(page, base, e, base + s, i - 1); }
  }

  // ---------------------------------------------------------------- the list that allocation uses

  /** The link at `s` leads upward, to a header in the page. */
  predicate Leads(page: seq<Byte>, base: nat, s: nat)
    requires Inside(page, s)
  {
    NextOf(page, s) != NULL && base + s < NextOf(page, s) && Inside(page, NextOf(page, s) - base)
  }

  /** The offsets of the headers that the list from `s` leads to while it goes upward in the page. */
  function ListFrom(page: seq<Byte>, base: nat, s: nat): (l: seq<nat>)
    requires Inside(page, s)
    ensures l != [] && l[0] == s
    decreases |page| - s
  {
    [s] + if Leads(page, base, s) then ListFrom(page, base, NextOf(page, s) - base) else []
  }

  /** The last of these headers. */
  ghost function ListEnd(page: seq<Byte>, base: nat, s: nat): (e: nat)
    requires Inside(page, s)
    ensures Inside(page, e) && !Leads(page, base, e)
    decreases |page| - s
  {
    if Leads(page, base, s) then ListEnd(page, base, NextOf(page, s) - base) else s
  }

  /** The list that starts at `s` ends in the page. */
  predicate ListOk(page: seq<Byte>, base: nat, s: nat)
    decreases |page| - s
  {
    && Inside(page, s)
    && (NextOf(page, s) == NULL || (Leads(page, base, s) && ListOk(page, base, NextOf(page, s) - base)))
  }

  /** Otherwise it goes on somewhere else. */
  lemma {:induction false} ListOkExactly(page: seq<Byte>, base: nat, s: nat)
    requires Inside(page, s)
    ensures ListOk(page, base, s) <==> NextOf(page, ListEnd(page, base, s)) == NULL
    decreases |page| - s
  {
    if Leads(page, base, s) { ListOkExactly(page, base, NextOf(page, s) - base); }
  }

  /** getLastElement, as far as the list stays in the page; `whole` if that is all of it. */
  method GetLastElement(page: seq<Byte>, base: nat) returns (e: nat, whole: bool)
    requires Inside(page, 0)
    ensures e == ListEnd(page, base, 0) && (whole <==> ListOk(page, base, 0))
  {
    e := 0;
    while Leads(page, base, e)
      invariant Inside(page, e) && ListEnd(page, base, 0) == ListEnd(page, base, e)
      decreases |page| - e
    {
      e := NextOf(page, e) - base;
    }
    whole := NextOf(page, e) == NULL;
    ListOkExactly(page, base, 0);
  }

  /** The list from `t` on leads to `s`. */
  ghost predicate OnList(page: seq<Byte>, base: nat, t: nat, s: nat)
    requires Inside(page, t)
    decreases |page| - t
  {
    s == t || (Leads(page, base, t) && OnList(page, base, NextOf(page, t) - base, s))
  }

  ghost predicate Lists(page: seq<Byte>, base: nat, s: nat, l: seq<nat>, u: Unit) {
    Inside(page, s) && ListFrom(page, base, s) == l
  }

  /** The list from `s` on is `l`. The quantifier keeps the definition folded. */
  ghost predicate ListsTo(page: seq<Byte>, base: nat, s: nat, l: seq<nat>) { forall u :: Lists(page, base, s, l, u) }

  lemma ListsToStep(page: seq<Byte>, base: nat, s: nat, l: seq<nat>) returns (rest: seq<nat>)
    requires ListsTo(page, base, s, l)
    ensures Inside(page, s) && l == [s] + rest
    ensures if Leads(page, base, s) then ListsTo(page, base, NextOf(page, s) - base, rest) else rest == []
  {
    assert Lists(page, base, s, l, Unit);
    rest := l[1..];
  }

  lemma {:induction false} OnListIsMember(page: seq<Byte>, base: nat, t: nat, s: nat, l: seq<nat>)
    requires Inside(page, t) && ListsTo(page, base, t, l)
    ensures OnList(page, base, t, s) <==> s in l
    decreases |page| - t
  {
    var rest := ListsToStep(page, base, t, l);
    InFront(t, rest, s);
    if Leads(page, base, t) { OnListIsMember(page, base, NextOf(page, t) - base, s, rest); }
  }

  lemma InFront(t: nat, rest: seq<nat>, s: nat)
    ensures s in [t] + rest <==> s == t || s in rest
  {
  }

  /** Every chunk of the list ends where the next one starts, and the last one at the end of the page. */
  ghost predicate Tiles(page: seq<Byte>, base: nat, s: nat)
    requires ListOk(page, base, s)
    decreases |page| - s
  {
    && !Stops(|page|, s)
    && if NextOf(page, s) == NULL then Stops(|page|, EndOf(page, s))
       else NextOf(page, s) == base + EndOf(page, s) && Tiles(page, base, EndOf(page, s))
  }

  /** The list from `t` on is in the page and tiles it. */
  ghost predicate Tiled(page: seq<Byte>, base: nat, t: nat) { ListOk(page, base, t) && Tiles(page, base, t) }

  lemma {:induction false} LinkedList(page: seq<Byte>, base: nat, s: nat, prev: nat)
    requires Linked(page, base, s, prev) && !Stops(|page|, s) && base > 0
    requires base + |page| <= ADDRESSES && prev < ADDRESSES
    ensures ListOk(page, base, s) && ListFrom(page, base, s) == Visited(page, s)
    decreases |page| - s
  {
    var e := EndOf(page, s);
    LinkedHere(page, base, s, prev);
    if !Stops(|page|, e) { LinkedList(page, base, e, base + s); }
  }

  /** A list is what the walk visits exactly when it tiles the page. */
  lemma {:induction false} TilesIffVisited(page: seq<Byte>, base: nat, s: nat)
    requires ListOk(page, base, s) && base > 0
    ensures Tiles(page, base, s) <==> Visited(page, s) == ListFrom(page, base, s)
    decreases |page| - s
  {
    if !Stops(|page|, s) {
      var e := EndOf(page, s);
      if NextOf(page, s) == NULL {
        SameHead(s, Visited(page, e), []);
      } else {
        var n := NextOf(page, s) - base;
        SameHead(s, Visited(page, e), ListFrom(page, base, n));
        if n == e { TilesIffVisited(page, base, e); } else { FirstVisited(page, e); }
      }
    }
  }

  lemma SameHead(s: nat, a: seq<nat>, b: seq<nat>)
    ensures [s] + a == [s] + b <==> a == b
  {
    assert ([s] + a)[1..] == a && ([s] + b)[1..] == b;
  }

  lemma FirstVisited(page: seq<Byte>, s: nat)
    ensures Visited(page, s) != [] ==> Visited(page, s)[0] == s
  {
  }

  lemma RestoredVisits(page: seq<Byte>, base: nat)
    ensures Visited(Restored(page, base), 0) == Visited(page, 0)
  {
    assert WalksTo(page, base, 0, NULL, Restored(page, base));
    WalkIsAlike(page, base, 0, NULL, Restored(page, base));
    AlikeVisited(page, Restored(page, base), 0);
  }

  /** A chunk list survives the move of its page, at the same offsets, exactly when it tiles the page. */
  lemma MoveKeepsListExactly(page: seq<Byte>, here: nat, there: nat)
    requires |page| > HEADER && here > 0 && ListOk(page, here, 0)
    requires there > 0 && there + |page| <= ADDRESSES
    ensures var moved := Restored(page, there);
            ListOk(moved, there, 0) && (ListFrom(moved, there, 0) == ListFrom(page, here, 0) <==> Tiles(page, here, 0))
  {
    RestoredIsLinked(page, there);
    RestoredVisits(page, there);
    LinkedList(Restored(page, there), there, 0, NULL);
    TilesIffVisited(page, here, 0);
  }

  /** And then the block of each of its chunks survives, byte by byte, with its size and its free mark. */
  lemma MoveKeepsBlocks(page: seq<Byte>, here: nat, there: nat, s: nat)
    requires here > 0 && Tiled(page, here, 0) && OnList(page, here, 0, s)
    ensures Inside(page, s)
    ensures var moved := Restored(page, there);
            && SizeOf(moved, s) == SizeOf(page, s) && IsFree(moved, s) == IsFree(page, s)
            && forall i :: s + HEADER <= i < EndOf(page, s) && i < |page| ==> moved[i] == page[i]
  {
    TilesIffVisited(page, here, 0);
    assert ListsTo(page, here, 0, ListFrom(page, here, 0));
    OnListIsMember(page, here, 0, s, ListFrom(page, here, 0));
    VisitedInside(page, 0, s);
    HeaderKept(page, there, s);
    forall i | s + HEADER <= i < EndOf(page, s) && i < |page| ensures Restored(page, there)[i] == page[i] {
      NoLinksInBlock(page, 0, s, i);
      LinkByteIsVisited(page, 0, i);
      OtherByteIsKept(page, there, i);
    }
  }

  lemma {:induction false} VisitedInside(page: seq<Byte>, t: nat, s: nat)
    requires s in Visited(page, t)
    ensures t <= s && Inside(page, s)
    decreases |page| - t
  {
    if s != t { VisitedInside(page, EndOf(page, t), s); }
  }

  /** A byte of a header visited, other than a link, is not a link of another one. */
  lemma {:induction false} NoLinksInHeader(page: seq<Byte>, t: nat, s: nat, i: nat)
    requires s in Visited(page, t) && s <= i < s + HEADER && !LinkAt(s, i)
    ensures !LinkByteFrom(page, t, i)
    decreases |page| - t
  {
    var e := EndOf(page, t);
    if s == t {
      if LinkByteFrom(page, e, i) { LinkBytesAhead(page, e, i); }
    } else {
      VisitedInside(page, e, s);
      NoLinksInHeader(page, e, s, i);
    }
  }

  lemma HeaderKept(page: seq<Byte>, base: nat, s: nat)
    requires s in Visited(page, 0) && Inside(page, s)
    ensures var r := Restored(page, base); SizeOf(r, s) == SizeOf(page, s) && IsFree(r, s) == IsFree(page, s)
  {
    var r := Restored(page, base);
    forall i | s <= i < s + HEADER && !LinkAt(s, i) ensures r[i] == page[i] {
      NoLinksInHeader(page, 0, s, i);
      LinkByteIsVisited(page, 0, i);
      OtherByteIsKept(page, base, i);
    }
    WordAgrees(page, r, s + 24, 4);
    WordAgrees(page, r, s + 8, 4);
  }
}
