/** Where the chunks of a page start, how they are linked, and that the blocks handed out keep clear of each other
    and of the headers. */
module Blocks {
  import opened Bytes
  import opened Chunks
  import opened Carving

  /** The data of the chunk at `s` starts right behind its header. */
  ghost predicate StartsRight(page: seq<Byte>, base: nat, s: nat) {
    Inside(page, s) && StartOf(page, s) == base + s + HEADER
  }

  /** So it is for every chunk of the list. */
  ghost predicate AllStartRight(page: seq<Byte>, base: nat) {
    Inside(page, 0) && forall s :: OnList(page, base, 0, s) ==> StartsRight(page, base, s)
  }

  /** A page that also ends before the last address, so that the end of the page is an address. */
  predicate Placeable(page: seq<Byte>, base: nat) { Addressable(page, base) && base + |page| < ADDRESSES }

  // ---------------------------------------------------------------- start and prev of a header

  /** `start` and `prev` of the header at `s` are the same. */
  ghost predicate SameEnds(p: seq<Byte>, q: seq<Byte>, s: nat) {
    |p| == |q| && Inside(p, s) && StartOf(p, s) == StartOf(q, s) && PrevOf(p, s) == PrevOf(q, s)
  }

  lemma EndsAgree(p: seq<Byte>, q: seq<Byte>, s: nat)
    requires |p| == |q| && Inside(p, s)
    requires forall i :: s + 16 <= i < s + 24 || s + 40 <= i < s + 48 ==> p[i] == q[i]
    ensures SameEnds(p, q, s)
  {
    WordAgrees(p, q, s + 16, 8);
    WordAgrees(p, q, s + 40, 8);
  }

  lemma UsedKeepsEnds(page: seq<Byte>, s: nat, n: nat)
    requires Inside(page, s)
    ensures SameEnds(page, Used(page, s, n), s)
  {
    EndsAgree(page, Used(page, s, n), s);
  }

  lemma SplitKeepsEnds(page: seq<Byte>, base: nat, s: nat, n: nat)
    requires Inside(page, s) && n <= SizeOf(page, s) && Inside(page, s + HEADER + n)
    ensures SameEnds(page, Split(page, base, s, n), s)
  {
    EndsAgree(page, Split(page, base, s, n), s);
  }

  // ---------------------------------------------------------------- pages that were only allocated from

  /** The list from `t` on: every chunk starts right behind its header and knows the one before it; every chunk but
      the last is in use and ends where the next one starts. */
  ghost predicate Chain(page: seq<Byte>, base: nat, t: nat, prev: nat)
    decreases |page| - t
  {
    && StartsRight(page, base, t) && PrevOf(page, t) == prev
    && (NextOf(page, t) == NULL ||
        (&& !IsFree(page, t) && NextOf(page, t) == base + EndOf(page, t)
         && Inside(page, EndOf(page, t)) && Chain(page, base, EndOf(page, t), base + t)))
  }

  lemma FreshIsChain(page: seq<Byte>, base: nat)
    requires Placeable(page, base)
    ensures Chain(Fresh(page, base), base, 0, NULL)
  {
    FreshTiles(page, base);
    ReadHeader(page, 0, |page| - HEADER, base + HEADER, NULL, NULL);
  }

  /** The last chunk is the only one that can be free. */
  lemma {:induction false} FreeIsLast(page: seq<Byte>, base: nat, t: nat, prev: nat, s: nat)
    requires base > 0 && Chain(page, base, t, prev) && OnList(page, base, t, s)
    ensures t <= s && Inside(page, s) && StartsRight(page, base, s) && (IsFree(page, s) ==> NextOf(page, s) == NULL)
    decreases |page| - t
  {
    if s != t { FreeIsLast(page, base, EndOf(page, t), base + t, s); }
  }

  /** Splitting the last chunk, where it is. */
  lemma CarvedChainHere(page: seq<Byte>, base: nat, s: nat, prev: nat, n: nat)
    requires Placeable(page, base) && Chain(page, base, s, prev) && NextOf(page, s) == NULL
    requires n <= SizeOf(page, s) && Carved(page, base, s, n).InPage?
    ensures Chain(Carved(page, base, s, n).page, base, s, prev)
  {
    CarvedIsSplit(page, base, s, n);
    if SizeOf(page, s) - n <= HEADER {
      SizeIsBelow(page, s);
      ReadUsed(page, s, n);
      UsedKeepsEnds(page, s, n);
    } else {
      SplitIsRead(page, base, s, n);
      SplitKeepsEnds(page, base, s, n);
      SplitStartsRight(page, base, s, n);
      assert Chain(Split(page, base, s, n), base, s + HEADER + n, base + s);
    }
  }

  /** And seen from any chunk before it. */
  lemma {:induction false} CarvedChain(page: seq<Byte>, base: nat, t: nat, prev: nat, s: nat, n: nat)
    requires Placeable(page, base) && Chain(page, base, t, prev) && OnList(page, base, t, s)
    requires Fits(page, n, s) && Carved(page, base, s, n).InPage?
    ensures Chain(Carved(page, base, s, n).page, base, t, prev)
    decreases |page| - t
  {
    FreeIsLast(page, base, t, prev, s);
    if s == t {
      CarvedChainHere(page, base, s, prev, n);
    } else {
      var e, c := EndOf(page, t), Carved(page, base, s, n).page;
      FreeIsLast(page, base, e, base + t, s);
      CarvedChain(page, base, e, base + t, s, n);
      forall i | t <= i < t + HEADER ensures c[i] == page[i] { CarvedBefore(page, base, s, n, i); }
      ChainBefore(page, c, base, t, prev);
    }
  }

  lemma ChainBefore(page: seq<Byte>, c: seq<Byte>, base: nat, t: nat, prev: nat)
    requires Chain(page, base, t, prev) && NextOf(page, t) != NULL && |c| == |page|
    requires (forall i :: t <= i < t + HEADER ==> c[i] == page[i]) && Chain(c, base, EndOf(page, t), base + t)
    ensures Chain(c, base, t, prev)
  {
    EndsAgree(page, c, t);
    FieldsAgree(page, c, t);
  }

  lemma FieldsAgree(p: seq<Byte>, q: seq<Byte>, s: nat)
    requires |p| == |q| && Inside(p, s) && forall i :: s <= i < s + HEADER ==> q[i] == p[i]
    ensures IsFree(p, s) == IsFree(q, s) && SizeOf(p, s) == SizeOf(q, s) && NextOf(p, s) == NextOf(q, s)
  {
    WordAgrees(p, q, s + 8, 4);
    WordAgrees(p, q, s + 24, 4);
    WordAgrees(p, q, s + 32, 8);
  }

  /** Some free chunk that is large enough gives `n` bytes, and the page stays the place of the whole list. */
  ghost predicate Gives(page: seq<Byte>, base: nat, n: nat, s: nat, next: seq<Byte>) {
    Inside(page, 0) && OnList(page, base, 0, s) && Fits(page, n, s) && Carved(page, base, s, n) == InPage(next)
  }

  ghost predicate Allocates(page: seq<Byte>, base: nat, n: nat, next: seq<Byte>) {
    exists s :: Gives(page, base, n, s, next)
  }

  /** A sequence of allocations in one page. */
  ghost predicate Allocations(pages: seq<seq<Byte>>, base: nat, ns: seq<nat>) {
    |pages| == |ns| + 1 && forall i :: 0 <= i < |ns| ==> Allocates(pages[i], base, ns[i], pages[i + 1])
  }

  lemma AllocationKeepsChain(page: seq<Byte>, base: nat, n: nat, next: seq<Byte>)
    requires Placeable(page, base) && Chain(page, base, 0, NULL) && Allocates(page, base, n, next)
    ensures |next| == |page| && Chain(next, base, 0, NULL)
  {
    var s :| Gives(page, base, n, s, next);
    CarvedChain(page, base, 0, NULL, s, n);
  }

  lemma {:induction false} AllocationsKeepChain(pages: seq<seq<Byte>>, base: nat, ns: seq<nat>, page: seq<Byte>, k: nat)
    requires Placeable(page, base) && Allocations(pages, base, ns) && pages[0] == Fresh(page, base) && k <= |ns|
    ensures |pages[k]| == |page| && Chain(pages[k], base, 0, NULL)
    decreases k
  {
    if k == 0 {
      FreshIsChain(page, base);
    } else {
      AllocationsKeepChain(pages, base, ns, page, k - 1);
      AllocationKeepsChain(pages[k - 1], base, ns[k - 1], pages[k]);
    }
  }

  /** After any sequence of allocations from a fresh page every chunk starts right behind its header, and only the last
      one can be free. */
  lemma AllocationsStartRight(pages: seq<seq<Byte>>, base: nat, ns: seq<nat>, page: seq<Byte>, k: nat)
    requires Placeable(page, base) && Allocations(pages, base, ns) && pages[0] == Fresh(page, base) && k <= |ns|
    ensures AllStartRight(pages[k], base)
    ensures forall s :: OnList(pages[k], base, 0, s) && IsFree(pages[k], s) ==> NextOf(pages[k], s) == NULL
  {
    AllocationsKeepChain(pages, base, ns, page, k);
    forall s | OnList(pages[k], base, 0, s)
      ensures StartsRight(pages[k], base, s) && (IsFree(pages[k], s) ==> NextOf(pages[k], s) == NULL)
    {
      FreeIsLast(pages[k], base, 0, NULL, s);
    }
  }

  /** The links of neighbours after any sequence of allocations: `next` and `prev` are inverse, and the block of the
      first ends where the header of the second starts. */
  lemma {:induction false} NeighboursInChain(page: seq<Byte>, base: nat, t: nat, prev: nat, s: nat)
    requires base > 0 && Chain(page, base, t, prev) && OnList(page, base, t, s)
    ensures Inside(page, s)
    ensures NextOf(page, s) != NULL ==>
              var q := EndOf(page, s);
              OnList(page, base, t, q) && Inside(page, q) && NextOf(page, s) == base + q && PrevOf(page, q) == base + s
    decreases |page| - t
  {
    if s != t {
      NeighboursInChain(page, base, EndOf(page, t), base + t, s);
    } else if NextOf(page, s) != NULL {
      assert OnList(page, base, EndOf(page, s), EndOf(page, s));
    }
  }

  // ---------------------------------------------------------------- tiled pages

  ghost predicate StartFrom(page: seq<Byte>, base: nat, t: nat)
    decreases |page| - t
  {
    StartsRight(page, base, t) && (Leads(page, base, t) ==> StartFrom(page, base, NextOf(page, t) - base))
  }

  lemma {:induction false} StartFromExactly(page: seq<Byte>, base: nat, t: nat)
    requires Inside(page, t)
    ensures StartFrom(page, base, t) <==> forall s :: OnList(page, base, t, s) ==> StartsRight(page, base, s)
    decreases |page| - t
  {
    if Leads(page, base, t) {
      var e := NextOf(page, t) - base;
      StartFromExactly(page, base, e);
      assert forall s :: OnList(page, base, t, s) <==> s == t || OnList(page, base, e, s);
    } else {
      assert forall s :: OnList(page, base, t, s) <==> s == t;
    }
  }

  lemma {:induction false} StartsLookAhead(p: seq<Byte>, q: seq<Byte>, base: nat, t: nat)
    requires StartFrom(p, base, t) && SameFrom(p, q, t)
    ensures StartFrom(q, base, t)
    decreases |p| - t
  {
    HeaderAgrees(p, q, t);
    WordAgrees(p, q, t + 16, 8);
    if Leads(p, base, t) { StartsLookAhead(p, q, base, NextOf(p, t) - base); }
  }

  lemma SplitStartFrom(page: seq<Byte>, base: nat, s: nat, n: nat, c: seq<Byte>)
    requires Tiled(page, base, s) && StartFrom(page, base, s) && n + HEADER < SizeOf(page, s)
    requires SplitRead(page, base, s, n, c) && StartsRight(c, base, s) && StartsRight(c, base, s + HEADER + n)
    ensures StartFrom(c, base, s)
  {
    var q, e := s + HEADER + n, EndOf(page, s);
    if NextOf(page, s) != NULL { StartsLookAhead(page, c, base, e); }
    assert StartFrom(c, base, q);
  }

  lemma UsedStartFrom(page: seq<Byte>, base: nat, s: nat, n: nat)
    requires Tiled(page, base, s) && StartFrom(page, base, s) && n < WORDS
    ensures StartFrom(Used(page, s, n), base, s)
  {
    ReadUsed(page, s, n);
    UsedKeepsEnds(page, s, n);
    if NextOf(page, s) != NULL { StartsLookAhead(page, Used(page, s, n), base, EndOf(page, s)); }
  }

  lemma {:induction false} StartUpTo(page: seq<Byte>, c: seq<Byte>, base: nat, t: nat, s: nat)
    requires Tiled(page, base, t) && OnList(page, base, t, s) && StartFrom(page, base, t)
    requires |c| == |page| && (forall i :: 0 <= i < s && i < |c| ==> c[i] == page[i])
    ensures t <= s && Tiled(page, base, s) && StartFrom(page, base, s)
    ensures StartFrom(c, base, s) ==> StartFrom(c, base, t)
    decreases |page| - t
  {
    if s != t {
      var e := EndOf(page, t);
      StartUpTo(page, c, base, e, s);
      FieldsAgree(page, c, t);
      WordAgrees(page, c, t + 16, 8);
    }
  }

  /** In a tiled page a split anywhere leaves every chunk of the list starting right behind its header, the new one
      among them. */
  lemma CarveStartsRight(page: seq<Byte>, base: nat, s: nat, n: nat)
    requires Placeable(page, base) && Tiled(page, base, 0) && AllStartRight(page, base)
    requires OnList(page, base, 0, s) && Inside(page, s) && n <= SizeOf(page, s) && Carved(page, base, s, n).InPage?
    ensures AllStartRight(Carved(page, base, s, n).page, base)
  {
    var c := Carved(page, base, s, n).page;
    StartFromExactly(page, base, 0);
    forall i | 0 <= i < s && i < |c| ensures c[i] == page[i] { CarvedBefore(page, base, s, n, i); }
    StartUpTo(page, c, base, 0, s);
    CarvedIsSplit(page, base, s, n);
    SizeIsBelow(page, s);
    if SizeOf(page, s) - n <= HEADER {
      UsedStartFrom(page, base, s, n);
    } else {
      SplitIsRead(page, base, s, n);
      SplitKeepsEnds(page, base, s, n);
      SplitStartsRight(page, base, s, n);
      SplitStartFrom(page, base, s, n, c);
    }
    StartFromExactly(c, base, 0);
  }

  /** A move leaves them so, at the new address. */
  lemma MoveStartsRight(page: seq<Byte>, there: nat)
    requires |page| > HEADER && there > 0 && there + |page| <= ADDRESSES
    ensures AllStartRight(Restored(page, there), there)
  {
    var r := Restored(page, there);
    RestoredIsLinked(page, there);
    LinkedList(r, there, 0, NULL);
    forall s | OnList(r, there, 0, s) ensures StartsRight(r, there, s) {
      assert ListsTo(r, there, 0, ListFrom(r, there, 0));
      OnListIsMember(r, there, 0, s, ListFrom(r, there, 0));
      var i :| 0 <= i < |Visited(r, 0)| && Visited(r, 0)[i] == s;
      LinksAreInverse(r, there, 0, NULL, i);
    }
  }

  /** In a tiled page the block of a chunk ends before the header of every chunk behind it. */
  lemma {:induction false} TiledBlocksApart(page: seq<Byte>, base: nat, t: nat, a: nat, b: nat)
    requires Tiled(page, base, t) && OnList(page, base, t, a) && OnList(page, base, t, b) && a < b
    ensures Inside(page, a) && Inside(page, b) && EndOf(page, a) <= b
    decreases |page| - t
  {
    var e := EndOf(page, t);
    StartsBehind(page, base, t, a);
    if a == t { StartsBehind(page, base, e, b); } else { TiledBlocksApart(page, base, e, a, b); }
  }

  lemma {:induction false} StartsBehind(page: seq<Byte>, base: nat, t: nat, s: nat)
    requires Tiled(page, base, t) && OnList(page, base, t, s)
    ensures t <= s && Inside(page, s)
    decreases |page| - t
  {
    if s != t { StartsBehind(page, base, EndOf(page, t), s); }
  }

  // ---------------------------------------------------------------- an allocation in one page

  lemma FoundIsListed(page: seq<Byte>, base: nat, n: nat, s: nat)
    requires Inside(page, 0) && FirstFit(page, ListFrom(page, base, 0), n, s)
    ensures OnList(page, base, 0, s) && Fits(page, n, s)
  {
    assert ListsTo(page, base, 0, ListFrom(page, base, 0));
    OnListIsMember(page, base, 0, s, ListFrom(page, base, 0));
  }

  /** findFreeSpace and createSpace: the first chunk that fits is split, and what is handed out starts right behind its
      header. */
  method TakeSpace(page: seq<Byte>, base: nat, n: nat) returns (found: bool, s: nat, start: nat, c: Carve)
    requires AllStartRight(page, base)
    ensures found ==> FirstFit(page, ListFrom(page, base, 0), n, s) && Fits(page, n, s)
                      && c == Carved(page, base, s, n) && start == base + s + HEADER
    ensures !found ==> NoneFits(page, ListFrom(page, base, 0), n) && c == InPage(page)
  {
    var whole;
    found, s, whole := FindFreeSpace(page, base, n);
    c, start := InPage(page), 0;
    if found {
      FoundIsListed(page, base, n, s);
      var ok;
      ok, c := CreateSpace(page, base, s, n);
      start := StartOf(page, s);
    }
  }
}
