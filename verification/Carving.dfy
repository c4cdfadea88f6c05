/** Allocation in one page: a fresh page, first fit, and the split of a chunk. */
module Carving {
  import opened Bytes
  import opened Chunks

  /** The header of a free chunk, written at offset `s`. Its padding, and two fields that are not initialised,
      are left as they are. */
  function WithHeader(page: seq<Byte>, s: nat, size: nat, start: nat, next: nat, prev: nat): (r: seq<Byte>)
    requires Inside(page, s)
    ensures |r| == |page| && forall i :: 0 <= i < |page| && !(s <= i < s + HEADER) ==> r[i] == page[i]
  {
    WithLinks(WithFields(page, s, size), s, start, next, prev)
  }

  /** Its fields other than the links: process 0, not referenced, free, order 1, and the size. */
  function WithFields(page: seq<Byte>, s: nat, size: nat): (r: seq<Byte>)
    requires Inside(page, s)
    ensures |r| == |page| && forall i :: 0 <= i < |page| && !(s <= i < s + 28) ==> r[i] == page[i]
  {
    Put(Put(Put(Put(page, s, 8, 0), s + 12, 4, 1), s + 8, 4, 1), s + 24, 4, size)
  }

  lemma ReadFields(page: seq<Byte>, s: nat, size: nat)
    requires Inside(page, s) && size < WORDS
    ensures var r := WithFields(page, s, size); IsFree(r, s) && SizeOf(r, s) == size
    ensures var r := WithFields(page, s, size); Word(r, s, 8) == 0 && Word(r, s + 12, 4) == 1
  {
    Widths();
    var a := Put(Put(page, s, 8, 0), s + 12, 4, 1);
    var b := Put(a, s + 8, 4, 1);
    WordPut(page, s, 8, 0);
    WordPut(Put(page, s, 8, 0), s + 12, 4, 1);
    WordAgrees(Put(page, s, 8, 0), WithFields(page, s, size), s, 8);
    WordAgrees(a, WithFields(page, s, size), s + 12, 4);
    WordPut(a, s + 8, 4, 1);
    WordPut(b, s + 24, 4, size);
    WordAgrees(b, WithFields(page, s, size), s + 8, 4);
  }

  lemma ReadNext(page: seq<Byte>, s: nat, start: nat, next: nat, prev: nat)
    requires Inside(page, s) && next < ADDRESSES
    ensures NextOf(WithLinks(page, s, start, next, prev), s) == next
  {
    Widths();
    var a := Put(page, s + 16, 8, start);
    var b := Put(a, s + 32, 8, next);
    WordPut(a, s + 32, 8, next);
    WordAgrees(b, WithLinks(page, s, start, next, prev), s + 32, 8);
  }

  /** The mark, the size and the next link are read back; the size and the link fit their fields. */
  lemma ReadSize(page: seq<Byte>, s: nat, size: nat, start: nat, next: nat, prev: nat)
    requires Inside(page, s) && size < WORDS && next < ADDRESSES
    ensures var r := WithHeader(page, s, size, start, next, prev);
            IsFree(r, s) && SizeOf(r, s) == size && NextOf(r, s) == next
  {
    var f := WithFields(page, s, size);
    ReadFields(page, s, size);
    ReadNext(f, s, start, next, prev);
    LinksKeepFields(f, s, start, next, prev);
  }

  lemma ReadHeader(page: seq<Byte>, s: nat, size: nat, start: nat, next: nat, prev: nat)
    requires Inside(page, s) && start < ADDRESSES && next < ADDRESSES && prev < ADDRESSES
    ensures var r := WithHeader(page, s, size, start, next, prev); StartOf(r, s) == start && PrevOf(r, s) == prev
  {
    ReadLinks(WithFields(page, s, size), s, start, next, prev);
  }

  lemma LinksKeepFields(page: seq<Byte>, s: nat, start: nat, next: nat, prev: nat)
    requires Inside(page, s)
    ensures var r := WithLinks(page, s, start, next, prev);
            IsFree(r, s) == IsFree(page, s) && SizeOf(r, s) == SizeOf(page, s)
  {
    var r := WithLinks(page, s, start, next, prev);
    WordAgrees(page, r, s + 8, 4);
    WordAgrees(page, r, s + 24, 4);
  }

  /** initializeSpace: one free chunk. */
  function Fresh(page: seq<Byte>, base: nat): (r: seq<Byte>)
    requires |page| > HEADER
    ensures |r| == |page|
  {
    WithHeader(page, 0, |page| - HEADER, base + HEADER, NULL, NULL)
  }

  /** A page that fits the widths of the header fields. */
  predicate Addressable(page: seq<Byte>, base: nat) {
    HEADER < |page| < WORDS && 0 < base && base + |page| <= ADDRESSES
  }

  lemma FreshTiles(page: seq<Byte>, base: nat)
    requires Addressable(page, base)
    ensures var p := Fresh(page, base);
            IsFree(p, 0) && SizeOf(p, 0) == |p| - HEADER && NextOf(p, 0) == NULL && Tiled(p, base, 0)
  {
    ReadSize(page, 0, |page| - HEADER, base + HEADER, NULL, NULL);
  }

  // ---------------------------------------------------------------- first fit

  ghost predicate Fits(page: seq<Byte>, n: nat, s: nat) { Inside(page, s) && IsFree(page, s) && SizeOf(page, s) >= n }

  /** `s` is the first chunk of the list that is free and has room for `n` bytes. */
  ghost predicate FirstFit(page: seq<Byte>, list: seq<nat>, n: nat, s: nat) {
    exists k :: 0 <= k < |list| && s == list[k] && Fits(page, n, s) && NoneBefore(page, list, n, k)
  }

  ghost predicate NoneBefore(page: seq<Byte>, list: seq<nat>, n: nat, k: nat)
    requires k <= |list|
  {
    forall j :: 0 <= j < k ==> !Fits(page, n, list[j])
  }

  ghost predicate NoneFits(page: seq<Byte>, list: seq<nat>, n: nat) { NoneBefore(page, list, n, |list|) }

  /** What following the list from `s` finds in the page, or the size of the page. */
  ghost function FitFrom(page: seq<Byte>, base: nat, n: nat, s: nat): (r: nat)
    requires Inside(page, s)
    ensures r <= |page|
    decreases |page| - s
  {
    if Fits(page, n, s) then s
    else if Leads(page, base, s) then FitFrom(page, base, n, NextOf(page, s) - base)
    else |page|
  }

  ghost predicate IsOutcome(page: seq<Byte>, list: seq<nat>, n: nat, r: nat, u: Unit) {
    if r < |page| then FirstFit(page, list, n, r) else NoneFits(page, list, n)
  }

  /** Following the list has found `r`, or nothing if that is the size of the page. The quantifier keeps this folded. */
  ghost predicate Outcome(page: seq<Byte>, list: seq<nat>, n: nat, r: nat) {
    forall u :: IsOutcome(page, list, n, r, u)
  }

  lemma FitsHere(page: seq<Byte>, s: nat, rest: seq<nat>, n: nat)
    requires Fits(page, n, s)
    ensures Outcome(page, [s] + rest, n, s)
  {
    assert ([s] + rest)[0] == s && NoneBefore(page, [s] + rest, n, 0);
  }

  lemma FitsBehind(page: seq<Byte>, s: nat, rest: seq<nat>, n: nat, r: nat)
    requires Outcome(page, rest, n, r) && !Fits(page, n, s)
    ensures Outcome(page, [s] + rest, n, r)
  {
    var list := [s] + rest;
    assert IsOutcome(page, rest, n, r, Unit);
    if r < |page| {
      var k :| 0 <= k < |rest| && r == rest[k] && Fits(page, n, r) && NoneBefore(page, rest, n, k);
      assert list[k + 1] == r && NoneBefore(page, list, n, k + 1);
    }
  }

  lemma {:induction false} FitFromIsFirstFit(page: seq<Byte>, base: nat, n: nat, s: nat)
    requires Inside(page, s)
    ensures Outcome(page, ListFrom(page, base, s), n, FitFrom(page, base, n, s))
    decreases |page| - s
  {
    if Leads(page, base, s) {
      var rest := ListFrom(page, base, NextOf(page, s) - base);
      FitFromIsFirstFit(page, base, n, NextOf(page, s) - base);
      if Fits(page, n, s) { FitsHere(page, s, rest, n); }
      else { FitsBehind(page, s, rest, n, FitFrom(page, base, n, s)); }
    } else if Fits(page, n, s) {
      FitsHere(page, s, [], n);
    } else {
      assert Outcome(page, [], n, |page|);
      FitsBehind(page, s, [], n, |page|);
    }
  }

  /** findFreeSpace: the first chunk of the list that is free and large enough, as far as the list stays in the
      page; `whole` if nothing fits and that is all of it. */
  method FindFreeSpace(page: seq<Byte>, base: nat, n: nat) returns (found: bool, s: nat, whole: bool)
    requires Inside(page, 0)
    ensures if found then FirstFit(page, ListFrom(page, base, 0), n, s) else NoneFits(page, ListFrom(page, base, 0), n)
    ensures !found ==> (whole <==> ListOk(page, base, 0))
  {
    s := 0;
    found := IsFree(page, 0) && SizeOf(page, 0) >= n;
    while !found && Leads(page, base, s)
      invariant Inside(page, s) && found == Fits(page, n, s)
      invariant FitFrom(page, base, n, 0) == FitFrom(page, base, n, s)
      invariant ListEnd(page, base, 0) == ListEnd(page, base, s)
      decreases |page| - s
    {
      s := NextOf(page, s) - base;
      found := IsFree(page, s) && SizeOf(page, s) >= n;
    }
    whole := NextOf(page, s) == NULL;
    FitFromIsFirstFit(page, base, n, 0);
    assert IsOutcome(page, ListFrom(page, base, 0), n, FitFrom(page, base, n, 0), Unit);
    ListOkExactly(page, base, 0);
  }

  // ---------------------------------------------------------------- the split of a chunk

  /** A page after createSpace. Behind: the new header, for a chunk of `size` bytes, does not lie wholly in the
      page; it was written at offset `at`, over what is there. */
  datatype Carve = InPage(page: seq<Byte>) | Behind(page: seq<Byte>, at: nat, size: nat)

  /** The chunk at `s` is in use, with `n` bytes. */
  function Used(page: seq<Byte>, s: nat, n: nat): (r: seq<Byte>)
    requires Inside(page, s)
    ensures |r| == |page| && forall i :: 0 <= i < |page| && !(s <= i < s + 28) ==> r[i] == page[i]
  {
    Put(Put(page, s + 8, 4, 0), s + 24, 4, n)
  }

  /** createSpace: take `n` bytes from the chunk at `s`. The rest becomes a chunk of its own if it is
      larger than a header; the new header comes out of the rest, whose recorded size does not shrink. */
  function Carved(page: seq<Byte>, base: nat, s: nat, n: nat): (c: Carve)
    requires Inside(page, s) && n <= SizeOf(page, s)
    ensures |c.page| == |page|
  {
    var rest, q := SizeOf(page, s) - n, s + HEADER + n;
    if rest <= HEADER then InPage(Used(page, s, n))
    else
      if Inside(page, q) then InPage(Split(page, base, s, n)) else Behind(Pointed(page, base, s, n), q, rest)
  }

  lemma ReadUsed(page: seq<Byte>, s: nat, n: nat)
    requires Inside(page, s) && n < WORDS
    ensures var u := Used(page, s, n); !IsFree(u, s) && SizeOf(u, s) == n && NextOf(u, s) == NextOf(page, s)
  {
    Widths();
    var a, u := Put(page, s + 8, 4, 0), Used(page, s, n);
    WordPut(page, s + 8, 4, 0);
    WordPut(a, s + 24, 4, n);
    WordAgrees(a, u, s + 8, 4);
    WordAgrees(page, u, s + 32, 8);
  }

  /** The page after a split that puts a header at `q`. */
  function Split(page: seq<Byte>, base: nat, s: nat, n: nat): (r: seq<Byte>)
    requires Inside(page, s) && n <= SizeOf(page, s) && Inside(page, s + HEADER + n)
    ensures |r| == |page|
  {
    var q := s + HEADER + n;
    WithHeader(Pointed(page, base, s, n), q, SizeOf(page, s) - n, base + q + HEADER, NextOf(page, s), base + s)
  }

  /** The page before that header is written. */
  function Pointed(page: seq<Byte>, base: nat, s: nat, n: nat): (r: seq<Byte>)
    requires Inside(page, s)
    ensures |r| == |page| && forall i :: 0 <= i < |page| && !(s <= i < s + HEADER) ==> r[i] == page[i]
  {
    Put(Used(page, s, n), s + 32, 8, base + s + HEADER + n)
  }

  lemma ReadPointed(page: seq<Byte>, base: nat, s: nat, n: nat)
    requires Inside(page, s) && n < WORDS && base + s + HEADER + n < ADDRESSES
    ensures var u := Pointed(page, base, s, n);
            !IsFree(u, s) && SizeOf(u, s) == n && NextOf(u, s) == base + s + HEADER + n
  {
    Widths();
    var a, u := Used(page, s, n), Pointed(page, base, s, n);
    ReadUsed(page, s, n);
    WordPut(a, s + 32, 8, base + s + HEADER + n);
    WordAgrees(a, u, s + 24, 4);
    WordAgrees(a, u, s + 8, 4);
  }

  lemma SameBefore(page: seq<Byte>, q: nat, size: nat, start: nat, next: nat, prev: nat, s: nat)
    requires Inside(page, q) && s + HEADER <= q
    ensures var r := WithHeader(page, q, size, start, next, prev);
            IsFree(r, s) == IsFree(page, s) && SizeOf(r, s) == SizeOf(page, s) && NextOf(r, s) == NextOf(page, s)
  {
    var r := WithHeader(page, q, size, start, next, prev);
    WordAgrees(page, r, s + 8, 4);
    WordAgrees(page, r, s + 24, 4);
    WordAgrees(page, r, s + 32, 8);
  }

  /** What is read after a split that leaves a chunk behind: a chunk of `n` bytes in use, and the rest. */
  ghost predicate SplitRead(page: seq<Byte>, base: nat, s: nat, n: nat, c: seq<Byte>)
    requires Inside(page, s) && n <= SizeOf(page, s)
  {
    var q := s + HEADER + n;
    && |c| == |page| && Inside(c, q) && SameFrom(page, c, q + HEADER)
    && !IsFree(c, s) && SizeOf(c, s) == n && NextOf(c, s) == base + q
    && IsFree(c, q) && SizeOf(c, q) == SizeOf(page, s) - n && NextOf(c, q) == NextOf(page, s)
  }

  lemma SizeIsBelow(page: seq<Byte>, s: nat)
    requires Inside(page, s)
    ensures SizeOf(page, s) < WORDS && NextOf(page, s) < ADDRESSES
  {
    Widths();
    WordIsBelow(page, s + 24, 4);
    WordIsBelow(page, s + 32, 8);
  }

  lemma SplitHere(page: seq<Byte>, base: nat, s: nat, n: nat)
    requires Inside(page, s) && n <= SizeOf(page, s) < WORDS && Inside(page, s + HEADER + n) && base + |page| <= ADDRESSES
    ensures var c := Split(page, base, s, n); !IsFree(c, s) && SizeOf(c, s) == n && NextOf(c, s) == base + s + HEADER + n
  {
    var q := s + HEADER + n;
    ReadPointed(page, base, s, n);
    SameBefore(Pointed(page, base, s, n), q, SizeOf(page, s) - n, base + q + HEADER, NextOf(page, s), base + s, s);
  }

  lemma SplitBehind(page: seq<Byte>, base: nat, s: nat, n: nat)
    requires Inside(page, s) && n <= SizeOf(page, s) < WORDS && Inside(page, s + HEADER + n) && NextOf(page, s) < ADDRESSES
    ensures var c, q := Split(page, base, s, n), s + HEADER + n;
            IsFree(c, q) && SizeOf(c, q) == SizeOf(page, s) - n && NextOf(c, q) == NextOf(page, s)
  {
    var q := s + HEADER + n;
    ReadSize(Pointed(page, base, s, n), q, SizeOf(page, s) - n, base + q + HEADER, NextOf(page, s), base + s);
  }

  lemma SplitAhead(page: seq<Byte>, base: nat, s: nat, n: nat)
    requires Inside(page, s) && n <= SizeOf(page, s) && Inside(page, s + HEADER + n)
    ensures SameFrom(page, Split(page, base, s, n), s + HEADER + n + HEADER)
  {
  }

  lemma SplitIsRead(page: seq<Byte>, base: nat, s: nat, n: nat)
    requires Inside(page, s) && n <= SizeOf(page, s) && Inside(page, s + HEADER + n) && base + |page| <= ADDRESSES
    ensures SplitRead(page, base, s, n, Split(page, base, s, n))
  {
    SizeIsBelow(page, s);
    SplitHere(page, base, s, n);
    SplitBehind(page, base, s, n);
    SplitAhead(page, base, s, n);
  }

  /** The chunk left over starts right behind its header, and the chunk it was split from is the one before it. */
  lemma SplitStartsRight(page: seq<Byte>, base: nat, s: nat, n: nat)
    requires Inside(page, s) && n <= SizeOf(page, s) && Inside(page, s + HEADER + n) && base + |page| < ADDRESSES
    ensures var c, q := Split(page, base, s, n), s + HEADER + n;
            StartOf(c, q) == base + q + HEADER && PrevOf(c, q) == base + s
  {
    SizeIsBelow(page, s);
    var q := s + HEADER + n;
    ReadHeader(Pointed(page, base, s, n), q, SizeOf(page, s) - n, base + q + HEADER, NextOf(page, s), base + s);
  }

  lemma CarvedIsSplit(page: seq<Byte>, base: nat, s: nat, n: nat)
    requires Inside(page, s) && n <= SizeOf(page, s)
    ensures var c := Carved(page, base, s, n);
            if SizeOf(page, s) - n <= HEADER then c == InPage(Used(page, s, n))
            else if Inside(page, s + HEADER + n) then c == InPage(Split(page, base, s, n))
            else c == Behind(Pointed(page, base, s, n), s + HEADER + n, SizeOf(page, s) - n)
  {
  }

  /** Nothing changes before the chunk. */
  lemma CarvedBefore(page: seq<Byte>, base: nat, s: nat, n: nat, i: nat)
    requires Inside(page, s) && n <= SizeOf(page, s) && i < s
    ensures Carved(page, base, s, n).page[i] == page[i]
  {
  }

  /** A list depends only on the bytes from its start on. */
  lemma {:induction false} ListLooksAhead(p: seq<Byte>, q: seq<Byte>, base: nat, s: nat)
    requires ListOk(p, base, s) && SameFrom(p, q, s)
    ensures ListOk(q, base, s) && (Tiles(q, base, s) <==> Tiles(p, base, s))
    decreases |p| - s
  {
    HeaderAgrees(p, q, s);
    if NextOf(p, s) != NULL { ListLooksAhead(p, q, base, NextOf(p, s) - base); }
  }

  /** A split that the walk understands: nothing is left over, or the chunk was the last one and the walk
      treats the end of the new chunk as createSpace does, as a header if one was put there, else as the end. */
  ghost predicate CarveFits(page: seq<Byte>, s: nat, n: nat)
    requires Inside(page, s) && n <= SizeOf(page, s)
  {
    var rest := SizeOf(page, s) - n;
    rest == 0 || (NextOf(page, s) == NULL && (rest > HEADER <==> !Stops(|page|, s + HEADER + n)))
  }

  lemma SplitLast(page: seq<Byte>, base: nat, s: nat, n: nat, c: seq<Byte>)
    requires Tiled(page, base, s) && Addressable(page, base) && n <= SizeOf(page, s) && NextOf(page, s) == NULL
    requires SplitRead(page, base, s, n, c)
    ensures ListOk(c, base, s) && (Tiles(c, base, s) <==> !Stops(|page|, s + HEADER + n))
  {
    var q := s + HEADER + n;
    assert EndOf(c, s) == q && EndOf(c, q) == EndOf(page, s) + HEADER;
    assert ListOk(c, base, q) && (Tiles(c, base, q) <==> !Stops(|page|, q));
  }

  lemma UsedLast(page: seq<Byte>, base: nat, s: nat, n: nat)
    requires Tiled(page, base, s) && n <= SizeOf(page, s) < WORDS && NextOf(page, s) == NULL
    ensures var c := Used(page, s, n); ListOk(c, base, s) && (Tiles(c, base, s) <==> Stops(|page|, s + HEADER + n))
  {
    ReadUsed(page, s, n);
  }

  lemma CarvedLast(page: seq<Byte>, base: nat, s: nat, n: nat)
    requires Tiled(page, base, s) && Addressable(page, base) && n <= SizeOf(page, s) && NextOf(page, s) == NULL
    ensures var c := Carved(page, base, s, n);
            (c.InPage? && Tiled(c.page, base, s) <==> CarveFits(page, s, n)) && (c.InPage? ==> ListOk(c.page, base, s))
  {
    CarvedIsSplit(page, base, s, n);
    if SizeOf(page, s) - n <= HEADER {
      SizeIsBelow(page, s);
      UsedLast(page, base, s, n);
    } else if Inside(page, s + HEADER + n) {
      SplitIsRead(page, base, s, n);
      SplitLast(page, base, s, n, Split(page, base, s, n));
    }
  }

  lemma SplitMiddle(page: seq<Byte>, base: nat, s: nat, n: nat, c: seq<Byte>)
    requires Tiled(page, base, s) && Addressable(page, base) && n + HEADER < SizeOf(page, s) && NextOf(page, s) != NULL
    requires SplitRead(page, base, s, n, c)
    ensures ListOk(c, base, s) && !Tiles(c, base, s)
  {
    var e, q := EndOf(page, s), s + HEADER + n;
    ListLooksAhead(page, c, base, e);
    assert ListOk(c, base, q) && EndOf(c, s) == q && EndOf(c, q) == e + HEADER;
  }

  lemma UsedMiddle(page: seq<Byte>, base: nat, s: nat, n: nat)
    requires Tiled(page, base, s) && n <= SizeOf(page, s) < WORDS && NextOf(page, s) != NULL
    ensures var c := Used(page, s, n); ListOk(c, base, s) && (Tiles(c, base, s) <==> n == SizeOf(page, s))
  {
    ReadUsed(page, s, n);
    ListLooksAhead(page, Used(page, s, n), base, EndOf(page, s));
  }

  lemma CarvedMiddle(page: seq<Byte>, base: nat, s: nat, n: nat)
    requires Tiled(page, base, s) && Addressable(page, base) && n <= SizeOf(page, s) && NextOf(page, s) != NULL
    ensures var c := Carved(page, base, s, n);
            c.InPage? && ListOk(c.page, base, s) && (Tiles(c.page, base, s) <==> n == SizeOf(page, s))
  {
    CarvedIsSplit(page, base, s, n);
    assert Inside(page, EndOf(page, s));
    if SizeOf(page, s) - n <= HEADER {
      SizeIsBelow(page, s);
      UsedMiddle(page, base, s, n);
    } else {
      SplitIsRead(page, base, s, n);
      SplitMiddle(page, base, s, n, Split(page, base, s, n));
    }
  }

  /** What happens at `s` decides about the whole list, if nothing changes before `s`. */
  lemma {:induction false} TiledUpTo(page: seq<Byte>, c: seq<Byte>, base: nat, t: nat, s: nat)
    requires Tiled(page, base, t) && OnList(page, base, t, s)
    requires |c| == |page| && forall i :: 0 <= i < s && i < |c| ==> c[i] == page[i]
    ensures t <= s && Tiled(page, base, s) && (Tiled(c, base, t) <==> Tiled(c, base, s))
    ensures ListOk(c, base, s) ==> ListOk(c, base, t)
    decreases |page| - t
  {
    if s != t {
      TiledUpTo(page, c, base, EndOf(page, t), s);
      WordAgrees(page, c, t + 24, 4);
      WordAgrees(page, c, t + 32, 8);
    }
  }

  /** A split leaves the page tiled exactly if it fits; and if the new header is in the page, so is the list. */
  lemma CarveKeepsTilingExactly(page: seq<Byte>, base: nat, t: nat, s: nat, n: nat)
    requires Tiled(page, base, t) && OnList(page, base, t, s) && Addressable(page, base)
    requires Inside(page, s) && n <= SizeOf(page, s)
    ensures t <= s
    ensures var c := Carved(page, base, s, n);
            (c.InPage? && Tiled(c.page, base, t) <==> CarveFits(page, s, n)) && (c.InPage? ==> ListOk(c.page, base, t))
  {
    var c := Carved(page, base, s, n).page;
    forall i | 0 <= i < s && i < |c| ensures c[i] == page[i] { CarvedBefore(page, base, s, n, i); }
    TiledUpTo(page, c, base, t, s);
    if NextOf(page, s) == NULL { CarvedLast(page, base, s, n); } else { CarvedMiddle(page, base, s, n); }
  }

  /** In a page that was never carved before, what is left over always fits. */
  lemma FirstCarveTiles(page: seq<Byte>, base: nat, n: nat)
    requires Addressable(page, base) && n <= |page| - HEADER
    ensures var p := Fresh(page, base);
            n <= SizeOf(p, 0) && Carved(p, base, 0, n).InPage? && Tiled(Carved(p, base, 0, n).page, base, 0)
  {
    FreshTiles(page, base);
    CarvedLast(Fresh(page, base), base, 0, n);
  }

  // ---------------------------------------------------------------- how far the records overhang the page

  /** Splitting the chunk at `s`, and each time what is left over, into chunks of `ns` leads to `page'`,
      in which the rest is at `s'`. The quantifier keeps this folded. */
  ghost predicate SplitTo(page: seq<Byte>, base: nat, s: nat, ns: seq<nat>, page': seq<Byte>, s': nat)
    decreases |ns|, 1
  {
    forall u :: IsSplit(page, base, s, ns, page', s', u)
  }

  ghost predicate IsSplit(page: seq<Byte>, base: nat, s: nat, ns: seq<nat>, page': seq<Byte>, s': nat, u: Unit)
    decreases |ns|, 0
  {
    if ns == [] then page' == page && s' == s
    else
      && Inside(page, s) && ns[0] <= SizeOf(page, s) && SizeOf(page, s) - ns[0] > HEADER
      && Carved(page, base, s, ns[0]).InPage?
      && SplitTo(Carved(page, base, s, ns[0]).page, base, s + HEADER + ns[0], ns[1..], page', s')
  }

  lemma CarvedEnd(page: seq<Byte>, base: nat, s: nat, n: nat)
    requires Inside(page, s) && n + HEADER < SizeOf(page, s) && base + |page| <= ADDRESSES
    requires Carved(page, base, s, n).InPage?
    ensures var c, q := Carved(page, base, s, n).page, s + HEADER + n;
            |c| == |page| && Inside(c, q) && EndOf(c, q) == EndOf(page, s) + HEADER
  {
    CarvedIsSplit(page, base, s, n);
    SplitIsRead(page, base, s, n);
  }

  lemma {:induction false} SplitOverhangs(page: seq<Byte>, base: nat, s: nat, ns: seq<nat>, page': seq<Byte>, s': nat)
    requires Inside(page, s) && base + |page| <= ADDRESSES && SplitTo(page, base, s, ns, page', s')
    ensures |page'| == |page| && Inside(page', s') && EndOf(page', s') == EndOf(page, s) + HEADER * |ns|
    decreases |ns|
  {
    if ns == [] {
      assert IsSplit(page, base, s, ns, page', s', Unit);
    } else {
      var c := SplitStep(page, base, s, ns, page', s');
      SplitOverhangs(c, base, s + HEADER + ns[0], ns[1..], page', s');
    }
  }

  lemma SplitStep(page: seq<Byte>, base: nat, s: nat, ns: seq<nat>, page': seq<Byte>, s': nat) returns (c: seq<Byte>)
    requires Inside(page, s) && base + |page| <= ADDRESSES && SplitTo(page, base, s, ns, page', s') && ns != []
    ensures var q := s + HEADER + ns[0];
            && |c| == |page| && Inside(c, q) && EndOf(c, q) == EndOf(page, s) + HEADER
            && SplitTo(c, base, q, ns[1..], page', s')
  {
    assert IsSplit(page, base, s, ns, page', s', Unit);
    CarvedEnd(page, base, s, ns[0]);
    c := Carved(page, base, s, ns[0]).page;
  }

  /** The recorded end of the last chunk is one header further behind the page after every split. So of the
      requests that fit its recorded size, a block of `n` bytes lies in the page exactly if `n` leaves out one
      header per split, and the header after it exactly if it leaves out one more. */
  lemma BlockInPageExactly(page: seq<Byte>, base: nat, ns: seq<nat>, page': seq<Byte>, s: nat, n: nat)
    requires Addressable(page, base) && SplitTo(Fresh(page, base), base, 0, ns, page', s)
    ensures Inside(page', s) && EndOf(page', s) == |page| + HEADER * |ns|
    ensures n <= SizeOf(page', s) ==>
              && (s + HEADER + n <= |page| <==> n + HEADER * |ns| <= SizeOf(page', s))
              && (Carved(page', base, s, n).Behind? <==>
                    SizeOf(page', s) - n > HEADER && n + HEADER * (|ns| + 1) > SizeOf(page', s))
  {
    FreshTiles(page, base);
    SplitOverhangs(Fresh(page, base), base, 0, ns, page', s);
  }

  /** A tiled page of 4096 bytes whose last chunk, at `s`, is free and records `size` bytes. */
  ghost predicate LastChunk(page: seq<Byte>, base: nat, s: nat, size: nat) {
    && |page| == 4096 && Addressable(page, base) && Tiled(page, base, 0) && OnList(page, base, 0, s) && Inside(page, s)
    && IsFree(page, s) && SizeOf(page, s) == size && NextOf(page, s) == NULL
  }

  lemma {:induction false} OnListStill(p: seq<Byte>, c: seq<Byte>, base: nat, t: nat, s: nat, q: nat)
    requires Tiled(p, base, t) && OnList(p, base, t, s) && |c| == |p| && Inside(c, q)
    requires (forall i :: 0 <= i < s && i < |c| ==> c[i] == p[i]) && Inside(c, s) && NextOf(c, s) == base + q && s < q
    ensures OnList(c, base, t, q)
    decreases |p| - t
  {
    if s == t {
      assert base + q != NULL && Leads(c, base, t) && OnList(c, base, q, q);
    } else {
      TiledUpTo(p, c, base, EndOf(p, t), s);
      WordAgrees(p, c, t + 32, 8);
      OnListStill(p, c, base, EndOf(p, t), s, q);
    }
  }

  /** Taking 100 bytes from the last chunk. */
  lemma HundredMore(page: seq<Byte>, base: nat, s: nat, size: nat)
    requires LastChunk(page, base, s, size) && size > 156 && s + 268 < 4096
    ensures Fits(page, 100, s) && Carved(page, base, s, 100).InPage?
    ensures LastChunk(Carved(page, base, s, 100).page, base, s + 156, size - 100)
  {
    var c := Carved(page, base, s, 100).page;
    CarvedIsSplit(page, base, s, 100);
    SplitIsRead(page, base, s, 100);
    CarveKeepsTilingExactly(page, base, 0, s, 100);
    forall i | 0 <= i < s && i < |c| ensures c[i] == page[i] { CarvedBefore(page, base, s, 100, i); }
    OnListStill(page, c, base, 0, s, s + 156);
  }

  lemma FreshChunk(page: seq<Byte>, base: nat)
    requires |page| == 4096 && Addressable(page, base)
    ensures LastChunk(Fresh(page, base), base, 0, 4040)
  {
    FreshTiles(page, base);
  }

  ghost predicate Carves(page: seq<Byte>, base: nat, s: nat, n: nat, c: Carve, u: Unit) {
    Fits(page, n, s) && Carved(page, base, s, n) == c
  }

  /** The chunk at `s` fits a request for `n` bytes, and the split leads to `c`. The quantifier keeps this folded. */
  ghost predicate CarvesTo(page: seq<Byte>, base: nat, s: nat, n: nat, c: Carve) {
    forall u :: Carves(page, base, s, n, c, u)
  }

  lemma TakesHundred(page: seq<Byte>, base: nat, s: nat, size: nat) returns (c: seq<Byte>)
    requires LastChunk(page, base, s, size) && size > 156 && s + 268 < 4096
    ensures CarvesTo(page, base, s, 100, InPage(c)) && LastChunk(c, base, s + 156, size - 100)
  {
    HundredMore(page, base, s, size);
    c := Carved(page, base, s, 100).page;
  }

  /** The second split can break the list: after 100 bytes, 3828 more still fit the recorded size, and then
      the third header takes the last 56 bytes of a page of 4096, where the walk does not go. */
  lemma SecondCarveLosesList(page: seq<Byte>, here: nat, there: nat) returns (once: seq<Byte>, twice: seq<Byte>)
    requires |page| == 4096 && Addressable(page, here) && Addressable(page, there)
    ensures CarvesTo(Fresh(page, here), here, 0, 100, InPage(once)) && CarvesTo(once, here, 156, 3828, InPage(twice))
    ensures ListOk(twice, here, 0) && ListOk(Restored(twice, there), there, 0)
    ensures ListFrom(Restored(twice, there), there, 0) != ListFrom(twice, here, 0)
  {
    FreshChunk(page, here);
    once := TakesHundred(Fresh(page, here), here, 0, 4040);
    CarvedIsSplit(once, here, 156, 3828);
    CarveKeepsTilingExactly(once, here, 0, 156, 3828);
    twice := Carved(once, here, 156, 3828).page;
    MoveKeepsListExactly(twice, here, there);
  }

  /** The third can leave the page: after 100 and 100 bytes the list still tiles the page, 3730 bytes fit the
      recorded size of the last chunk, and they end at 4098, with the next header behind them. */
  lemma ThirdCarveLeavesPage(page: seq<Byte>, base: nat) returns (once: seq<Byte>, twice: seq<Byte>, c: Carve)
    requires |page| == 4096 && Addressable(page, base)
    ensures CarvesTo(Fresh(page, base), base, 0, 100, InPage(once)) && CarvesTo(once, base, 156, 100, InPage(twice))
    ensures Tiled(twice, base, 0) && OnList(twice, base, 0, 312)
    ensures CarvesTo(twice, base, 312, 3730, c) && c.Behind? && c.at == 4098
  {
    FreshChunk(page, base);
    once := TakesHundred(Fresh(page, base), base, 0, 4040);
    twice := TakesHundred(once, base, 156, 3940);
    CarvedIsSplit(twice, base, 312, 3730);
    c := Carved(twice, base, 312, 3730);
  }

  /** What createSpace has yet to read is not among what it has written. */
  lemma CreateReads(page: seq<Byte>, s: nat, n: nat)
    requires Inside(page, s)
    ensures SizeOf(Put(page, s + 8, 4, 0), s) == SizeOf(page, s)
    ensures StartOf(Used(page, s, n), s) == StartOf(page, s) && NextOf(Used(page, s, n), s) == NextOf(page, s)
  {
    WordAgrees(page, Put(page, s + 8, 4, 0), s + 24, 4);
    WordAgrees(page, Used(page, s, n), s + 16, 8);
    WordAgrees(page, Used(page, s, n), s + 32, 8);
  }

  /** The chunk is marked as used, with `n` bytes; `rest` is what is left over. */
  method MarkUsed(page: seq<Byte>, s: nat, n: nat) returns (r: seq<Byte>, rest: nat)
    requires Inside(page, s) && n <= SizeOf(page, s)
    ensures r == Used(page, s, n) && rest == SizeOf(page, s) - n
  {
    CreateReads(page, s, n);
    r := Put(page, s + 8, 4, 0);
    rest := SizeOf(r, s) - n;
    r := Put(r, s + 24, 4, n);
  }

  /** A header for what is left over is written behind the block. */
  method AddHeader(used: seq<Byte>, base: nat, s: nat, n: nat, rest: nat, ghost page: seq<Byte>) returns (c: Carve)
    requires Inside(page, s) && n <= SizeOf(page, s) && used == Used(page, s, n) && rest == SizeOf(page, s) - n
    requires StartOf(page, s) == base + s + HEADER
    ensures var q := s + HEADER + n;
            c == if Inside(page, q) then InPage(Split(page, base, s, n)) else Behind(Pointed(page, base, s, n), q, rest)
  {
    CreateReads(page, s, n);
    var newPos, next := StartOf(used, s) + n - base, NextOf(used, s);
    var r := Put(used, s + 32, 8, base + newPos);
    assert r == Pointed(page, base, s, n);
    if newPos + HEADER > |used| {
      c := Behind(r, newPos, rest);
    } else {
      c := InPage(WithHeader(r, newPos, rest, base + newPos + HEADER, next, base + s));
    }
  }

  lemma CarvedReads(page: seq<Byte>, base: nat, s: nat, n: nat)
    requires Inside(page, s) && n <= SizeOf(page, s)
    ensures var c := Carved(page, base, s, n);
            && (SizeOf(page, s) - n <= HEADER ==> !IsFree(c.page, s) && SizeOf(c.page, s) == n)
            && (SizeOf(page, s) - n > HEADER && c.InPage? && base + |page| < ADDRESSES ==>
                  var q := s + HEADER + n;
                  && SplitRead(page, base, s, n, c.page)
                  && StartOf(c.page, q) == base + q + HEADER && PrevOf(c.page, q) == base + s)
  {
    CarvedIsSplit(page, base, s, n);
    if SizeOf(page, s) - n <= HEADER {
      SizeIsBelow(page, s);
      ReadUsed(page, s, n);
    } else if Inside(page, s + HEADER + n) && base + |page| < ADDRESSES {
      SplitIsRead(page, base, s, n);
      SplitStartsRight(page, base, s, n);
    }
  }

  /** createSpace. `ok` is false, and the page unchanged, if the chunk is in use. */
  method CreateSpace(page: seq<Byte>, base: nat, s: nat, n: nat) returns (ok: bool, c: Carve)
    requires Inside(page, s) && n <= SizeOf(page, s) && StartOf(page, s) == base + s + HEADER
    ensures ok == IsFree(page, s) && c == if ok then Carved(page, base, s, n) else InPage(page)
    ensures ok && SizeOf(page, s) - n <= HEADER ==> !IsFree(c.page, s) && SizeOf(c.page, s) == n
    ensures ok && SizeOf(page, s) - n > HEADER && c.InPage? && base + |page| < ADDRESSES ==>
              var q := s + HEADER + n;
              SplitRead(page, base, s, n, c.page) && StartOf(c.page, q) == base + q + HEADER && PrevOf(c.page, q) == base + s
  {
    if !IsFree(page, s) { return false, InPage(page); }
    var r, rest := MarkUsed(page, s, n);
    ok, c := true, InPage(r);
    if rest > HEADER { c := AddHeader(r, base, s, n, rest, page); }
    CarvedIsSplit(page, base, s, n);
    CarvedReads(page, base, s, n);
  }
}
