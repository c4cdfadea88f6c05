/** loadProcessPages seen from one process: only the frames of its pages matter. For which placements does the
    loop end with page k in frame k, for all k? Pages and frames are counted from 0 here. */
module Placement {
  /** The frame of every page. */
  type Places = seq<nat>

  /** No two pages are in one frame. */
  ghost predicate Apart(ps: Places) { forall i, j :: 0 <= i < j < |ps| ==> ps[i] != ps[j] }

  ghost predicate Below(ps: Places, n: nat) { forall i :: 0 <= i < |ps| ==> ps[i] < n }

  function Across(p: nat, a: nat, b: nat): nat { if p == a then b else if p == b then a else p }

  /** Frames `a` and `b` exchange their pages. */
  function Moved(ps: Places, a: nat, b: nat): (r: Places)
    ensures |r| == |ps| && forall j :: 0 <= j < |ps| ==> r[j] == Across(ps[j], a, b)
  {
    seq(|ps|, j requires 0 <= j < |ps| => Across(ps[j], a, b))
  }

  /** The first `i` pages are in their frames. */
  ghost predicate Home(ps: Places, i: nat) { i <= |ps| && forall j :: 0 <= j < i ==> ps[j] == j }

  /** A round of the loop: page `i` goes behind frame `c`, unless it is in that frame. */
  function Rounded(ps: Places, c: nat, i: nat): (r: Places)
    requires i < |ps|
    ensures |r| == |ps|
  {
    if ps[i] == c then ps else Moved(ps, c + 1, ps[i])
  }

  /** How the loop ends: on a frame behind the last one, or with the pages in these frames. */
  datatype Ending = Crash | Done(ps: Places)

  /** The loop, from page `i` on and with page `i - 1` found in frame `c`, in a memory of `n` frames. */
  ghost function Ended(ps: Places, c: nat, i: nat, n: nat): Ending
    decreases |ps| - i
  {
    if i >= |ps| then Done(ps)
    else if ps[i] != c && c + 1 >= n then Crash
    else Ended(Rounded(ps, c, i), ps[i], i + 1, n)
  }

  datatype Unit = Unit

  ghost predicate Ends(ps: Places, c: nat, i: nat, n: nat, o: Ending, u: Unit) { Ended(ps, c, i, n) == o }

  /** The loop ends in `o`. The quantifier keeps its definition folded. */
  ghost predicate EndsIn(ps: Places, c: nat, i: nat, n: nat, o: Ending) { forall u :: Ends(ps, c, i, n, o, u) }

  lemma EndsInStep(ps: Places, c: nat, i: nat, n: nat, o: Ending)
    requires EndsIn(ps, c, i, n, o)
    ensures if i >= |ps| then o == Done(ps)
            else if ps[i] != c && c + 1 >= n then o.Crash?
            else EndsIn(Rounded(ps, c, i), ps[i], i + 1, n, o)
  {
    assert Ends(ps, c, i, n, o, Unit);
  }

  // ---------------------------------------------------------------- the condition

  /** Pages `i` to `e - 1` are in their frames, or in pairs in each other's. */
  ghost predicate Paired(ps: Places, i: nat, e: nat)
    requires e <= |ps|
    decreases e - i
  {
    || i >= e
    || (ps[i] == i && Paired(ps, i + 1, e))
    || (i + 1 < e && ps[i] == i + 1 && ps[i + 1] == i && Paired(ps, i + 2, e))
  }

  /** How the pages from `x` on may be placed when the page before them was found in the last frame but one. */
  ghost predicate Crossing(ps: Places, x: nat) {
    var m := |ps|;
    || (x + 3 <= m && ps[x] == x && ps[m - 1] == m - 1 && Paired(ps, x + 1, m - 1))
    || (x + 4 <= m && ps[x] == x + 1 && ps[x + 1] == m - 1 && ps[m - 1] == x && Paired(ps, x + 2, m - 1))
  }

  /** From page `i` on, every page is in its frame or changes places with the next; the last page may be anywhere.
      Once, a page may be in the last frame but one, with the page for that frame in its own. */
  ghost predicate Ready(ps: Places, i: nat)
    decreases |ps| - i
  {
    || i + 1 >= |ps|
    || (ps[i] == i && Ready(ps, i + 1))
    || (ps[i] == i + 1 && ps[i + 1] == i && Ready(ps, i + 2))
    || (i + 4 <= |ps| && ps[i] == |ps| - 2 && Crossing(Moved(ps, i, |ps| - 2), i + 1))
  }

  // ---------------------------------------------------------------- what the loop goes through

  ghost predicate Straight(ps: Places, c: nat, i: nat) { i == c + 1 && Home(ps, i) && Ready(ps, i) }

  ghost predicate AfterPair(ps: Places, c: nat, i: nat) { i == c && Home(ps, i + 1) && Ready(ps, i + 1) }

  ghost predicate Between(ps: Places, c: nat, i: nat) { c + 2 == |ps| && Home(ps, i) && Crossing(ps, i) }

  /** The first `i` pages are in their frames, but one of them and the last page have changed places. */
  ghost predicate HomeButOne(ps: Places, i: nat) {
    var m := |ps|;
    && i < m && ps[m - 1] < i && ps[m - 1] + 3 <= m && ps[ps[m - 1]] == m - 1
    && forall j :: 0 <= j < i && j != ps[m - 1] ==> ps[j] == j
  }

  ghost predicate Crossed(ps: Places, c: nat, i: nat) {
    i == c + 1 && HomeButOne(ps, i) && Paired(ps, i, |ps| - 1)
  }

  ghost predicate CrossedAfterPair(ps: Places, c: nat, i: nat) {
    i == c && HomeButOne(ps, i + 1) && ps[|ps| - 1] < i && Paired(ps, i + 1, |ps| - 1)
  }

  /** One of these, on the way to a placement in order. The quantifier keeps this folded. */
  ghost predicate OnTheWay(ps: Places, c: nat, i: nat) { forall u :: IsOnTheWay(ps, c, i, u) }

  ghost predicate IsOnTheWay(ps: Places, c: nat, i: nat, u: Unit) {
    || Straight(ps, c, i) || AfterPair(ps, c, i) || Between(ps, c, i)
    || Crossed(ps, c, i) || CrossedAfterPair(ps, c, i)
  }

  lemma RoundApart(ps: Places, c: nat, i: nat)
    requires Apart(ps) && i < |ps|
    ensures Apart(Rounded(ps, c, i))
  {
  }

  /** Pages `i` and `j` have changed places. */
  ghost predicate Exchanged(ps: Places, qs: Places, i: nat, j: nat) {
    && |ps| == |qs| && i < |ps| && j < |ps|
    && forall k :: 0 <= k < |ps| ==> qs[k] == if k == i then ps[j] else if k == j then ps[i] else ps[k]
  }

  lemma PagesMoved(ps: Places, a: nat, b: nat, i: nat, j: nat)
    requires Apart(ps) && i < |ps| && j < |ps| && ((ps[i] == a && ps[j] == b) || (ps[i] == b && ps[j] == a))
    ensures Exchanged(ps, Moved(ps, a, b), i, j)
  {
  }

  /** Paired looks only at the pages from `i` to `e - 1`. */
  lemma {:induction false} PairedAgrees(ps: Places, qs: Places, i: nat, e: nat)
    requires |ps| == |qs| && e <= |ps| && forall j :: i <= j < e ==> ps[j] == qs[j]
    ensures Paired(ps, i, e) == Paired(qs, i, e)
    decreases e - i
  {
    if i < e {
      PairedAgrees(ps, qs, i + 1, e);
      if i + 1 < e { PairedAgrees(ps, qs, i + 2, e); }
    }
  }

  lemma {:induction false} ReadyAgrees(ps: Places, qs: Places, i: nat)
    requires |ps| == |qs| && forall j :: i <= j < |ps| ==> ps[j] == qs[j]
    ensures Ready(ps, i) == Ready(qs, i)
    decreases |ps| - i
  {
    if i + 1 < |ps| {
      ReadyAgrees(ps, qs, i + 1);
      ReadyAgrees(ps, qs, i + 2);
      MovedCrossingAgrees(ps, qs, i);
    }
  }

  lemma MovedCrossingAgrees(ps: Places, qs: Places, i: nat)
    requires |ps| == |qs| && forall j :: i <= j < |ps| ==> ps[j] == qs[j]
    ensures i + 4 <= |ps| ==> Crossing(Moved(ps, i, |ps| - 2), i + 1) == Crossing(Moved(qs, i, |ps| - 2), i + 1)
  {
    if i + 4 <= |ps| { CrossingAgrees(Moved(ps, i, |ps| - 2), Moved(qs, i, |ps| - 2), i + 1); }
  }

  lemma CrossingAgrees(ps: Places, qs: Places, x: nat)
    requires |ps| == |qs| && forall j :: x <= j < |ps| ==> ps[j] == qs[j]
    ensures Crossing(ps, x) == Crossing(qs, x)
  {
    if x + 3 <= |ps| {
      PairedAgrees(ps, qs, x + 1, |ps| - 1);
      PairedAgrees(ps, qs, x + 2, |ps| - 1);
    }
  }

  lemma MovedBack(ps: Places, a: nat, b: nat)
    ensures Moved(Moved(ps, a, b), a, b) == ps
  {
  }

  lemma MovedSame(ps: Places, a: nat)
    ensures Moved(ps, a, a) == ps
  {
  }

  // ---------------------------------------------------------------- two pages change places

  lemma PairMoves(ps: Places, qs: Places, i: nat)
    requires Exchanged(ps, qs, i, i + 1) && ps[i] == i + 1 && ps[i + 1] == i
    ensures Home(ps, i) <==> Home(qs, i + 2)
    ensures Ready(ps, i + 2) <==> Ready(qs, i + 2)
  {
    ReadyAgrees(ps, qs, i + 2);
  }

  lemma CrossedPairMoves(ps: Places, qs: Places, i: nat)
    requires Exchanged(ps, qs, i, i + 1) && ps[i] == i + 1 && ps[i + 1] == i && i + 2 < |ps| && ps[|ps| - 1] < i
    ensures HomeButOne(ps, i) <==> HomeButOne(qs, i + 2)
    ensures Paired(ps, i + 2, |ps| - 1) <==> Paired(qs, i + 2, |ps| - 1)
  {
    PairedAgrees(ps, qs, i + 2, |ps| - 1);
  }

  lemma LastMoves(ps: Places, qs: Places, i: nat)
    requires i + 3 <= |ps| && Exchanged(ps, qs, i, |ps| - 1) && ps[i] == i && ps[|ps| - 1] == |ps| - 1
    ensures Home(ps, i) <==> HomeButOne(qs, i + 1)
    ensures Paired(ps, i + 1, |ps| - 1) <==> Paired(qs, i + 1, |ps| - 1)
  {
    PairedAgrees(ps, qs, i + 1, |ps| - 1);
  }

  lemma LastOfThreeMoves(ps: Places, qs: Places, i: nat)
    requires Exchanged(ps, qs, i, i + 1) && i + 2 < |ps|
    requires ps[i] == i + 1 && ps[i + 1] == |ps| - 1 && ps[|ps| - 1] == i
    ensures Home(ps, i) <==> HomeButOne(qs, i + 2)
    ensures Paired(ps, i + 2, |ps| - 1) <==> Paired(qs, i + 2, |ps| - 1)
  {
    PairedAgrees(ps, qs, i + 2, |ps| - 1);
  }

  // ---------------------------------------------------------------- a round forward

  lemma PairOn(ps: Places, c: nat, i: nat)
    requires Apart(ps) && i + 1 < |ps| && i == c + 1 && Home(ps, i)
    requires ps[i] == i + 1 && ps[i + 1] == i && Ready(ps, i + 2)
    ensures AfterPair(Rounded(ps, c, i), ps[i], i + 1)
  {
    PagesMoved(ps, i, i + 1, i, i + 1);
    PairMoves(ps, Moved(ps, i, i + 1), i);
  }

  lemma CrossOn(ps: Places, c: nat, i: nat)
    requires Apart(ps) && i + 4 <= |ps| && i == c + 1 && Home(ps, i)
    requires ps[i] == |ps| - 2 && Crossing(Moved(ps, i, |ps| - 2), i + 1)
    ensures Between(Rounded(ps, c, i), ps[i], i + 1)
  {
    assert Home(Moved(ps, i, |ps| - 2), i + 1);
  }

  lemma StraightOn(ps: Places, c: nat, i: nat)
    requires Apart(ps) && i + 1 < |ps| && Straight(ps, c, i)
    ensures var qs, f := Rounded(ps, c, i), ps[i];
            Straight(qs, f, i + 1) || AfterPair(qs, f, i + 1) || Between(qs, f, i + 1)
    ensures ps[i] >= i
  {
    if ps[i] == i && Ready(ps, i + 1) {
      MovedSame(ps, i);
    } else if ps[i] == i + 1 && ps[i + 1] == i && Ready(ps, i + 2) {
      PairOn(ps, c, i);
    } else {
      CrossOn(ps, c, i);
    }
  }

  lemma BetweenOn(ps: Places, c: nat, i: nat)
    requires Apart(ps) && i + 1 < |ps| && Between(ps, c, i)
    ensures var qs, f := Rounded(ps, c, i), ps[i]; Crossed(qs, f, i + 1) || CrossedAfterPair(qs, f, i + 1)
    ensures |ps| - 1 in ps
  {
    var m, qs := |ps|, Rounded(ps, c, i);
    if ps[i] == i {
      PagesMoved(ps, m - 1, i, i, m - 1);
      LastMoves(ps, qs, i);
    } else {
      PagesMoved(ps, m - 1, i + 1, i, i + 1);
      LastOfThreeMoves(ps, qs, i);
    }
  }

  lemma CrossedOn(ps: Places, c: nat, i: nat)
    requires Apart(ps) && i + 1 < |ps| && Crossed(ps, c, i)
    ensures var qs, f := Rounded(ps, c, i), ps[i]; Crossed(qs, f, i + 1) || CrossedAfterPair(qs, f, i + 1)
    ensures ps[i] >= i
  {
    if ps[i] == i {
      MovedSame(ps, i);
    } else {
      PagesMoved(ps, i, i + 1, i, i + 1);
      CrossedPairMoves(ps, Moved(ps, i, i + 1), i);
    }
  }

  lemma RoundOn(ps: Places, c: nat, i: nat, n: nat)
    requires Apart(ps) && Below(ps, n) && i + 1 < |ps| && OnTheWay(ps, c, i)
    ensures (ps[i] == c || c + 1 < n) && OnTheWay(Rounded(ps, c, i), ps[i], i + 1)
  {
    assert IsOnTheWay(ps, c, i, Unit);
    if Straight(ps, c, i) {
      StraightOn(ps, c, i);
    } else if Between(ps, c, i) {
      BetweenOn(ps, c, i);
    } else if Crossed(ps, c, i) {
      CrossedOn(ps, c, i);
    } else if AfterPair(ps, c, i) {
      assert Straight(ps, i, i + 1);
    } else {
      assert Crossed(ps, i, i + 1);
    }
  }

  // ---------------------------------------------------------------- a round back

  lemma RoundUndone(ps: Places, c: nat, i: nat)
    requires Apart(ps) && i < |ps|
    ensures var qs := Rounded(ps, c, i);
            && Apart(qs)
            && if ps[i] == c then qs == ps else qs[i] == c + 1 && ps == Moved(qs, c + 1, ps[i])
  {
    RoundApart(ps, c, i);
    if ps[i] != c { MovedBack(ps, c + 1, ps[i]); }
  }

  lemma StraightBack(ps: Places, c: nat, i: nat)
    requires Apart(ps) && i + 1 < |ps| && Straight(Rounded(ps, c, i), ps[i], i + 1)
    ensures AfterPair(ps, c, i) || Straight(ps, c, i)
  {
    RoundUndone(ps, c, i);
    MovedSame(Rounded(ps, c, i), i);
  }

  lemma AfterPairBack(ps: Places, c: nat, i: nat)
    requires Apart(ps) && i + 1 < |ps| && AfterPair(Rounded(ps, c, i), ps[i], i + 1)
    ensures Straight(ps, c, i)
  {
    var qs := Rounded(ps, c, i);
    RoundUndone(ps, c, i);
    PagesMoved(qs, i, i + 1, i, i + 1);
    PairMoves(ps, qs, i);
  }

  lemma BetweenBack(ps: Places, c: nat, i: nat)
    requires Apart(ps) && i + 1 < |ps| && Between(Rounded(ps, c, i), ps[i], i + 1)
    ensures Straight(ps, c, i)
  {
    RoundUndone(ps, c, i);
  }

  lemma CrossedLastBack(ps: Places, qs: Places, c: nat, i: nat)
    requires Apart(ps) && i + 1 < |ps| && Exchanged(ps, qs, i, |ps| - 1) && ps[i] == i && qs[i] == c + 1
    requires Crossed(qs, i, i + 1) && qs[|ps| - 1] == i
    ensures Between(ps, c, i)
  {
    assert qs[i] == |ps| - 1;
    LastMoves(ps, qs, i);
  }

  lemma CrossedStillBack(ps: Places, c: nat, i: nat)
    requires i + 1 < |ps| && Crossed(ps, i, i + 1) && ps[|ps| - 1] < i && (c == i || c + 1 == i)
    ensures CrossedAfterPair(ps, c, i) || Crossed(ps, c, i)
  {
    assert ps[i] == i;
  }

  lemma CrossedBack(ps: Places, c: nat, i: nat)
    requires Apart(ps) && i + 1 < |ps| && Crossed(Rounded(ps, c, i), ps[i], i + 1)
    ensures CrossedAfterPair(ps, c, i) || Crossed(ps, c, i) || Between(ps, c, i)
  {
    var m, qs := |ps|, Rounded(ps, c, i);
    RoundUndone(ps, c, i);
    if qs[m - 1] < i {
      CrossedEarlierBack(ps, qs, c, i);
    } else {
      PagesMoved(qs, m - 1, i, i, m - 1);
      CrossedLastBack(ps, qs, c, i);
    }
  }

  lemma CrossedEarlierBack(ps: Places, qs: Places, c: nat, i: nat)
    requires |qs| == |ps| && i + 1 < |ps| && Crossed(qs, ps[i], i + 1) && qs[|ps| - 1] < i
    requires if ps[i] == c then qs == ps else qs[i] == c + 1 && ps == Moved(qs, c + 1, ps[i])
    ensures CrossedAfterPair(ps, c, i) || Crossed(ps, c, i)
  {
    assert qs[i] == i == ps[i];
    MovedSame(qs, i);
    CrossedStillBack(qs, c, i);
  }

  lemma CrossedPairBack(ps: Places, qs: Places, c: nat, i: nat)
    requires Apart(ps) && i + 2 < |ps| && Exchanged(ps, qs, i, i + 1) && ps[i] == i + 1 && qs[i] == c + 1
    requires CrossedAfterPair(qs, i + 1, i + 1) && qs[|ps| - 1] < i
    ensures Crossed(ps, c, i)
  {
    assert qs[i] == i;
    CrossedPairMoves(ps, qs, i);
  }

  lemma CrossedThreeBack(ps: Places, qs: Places, c: nat, i: nat)
    requires Apart(ps) && i + 2 < |ps| && Exchanged(ps, qs, i, i + 1) && ps[i] == i + 1 != c && qs[i] == c + 1
    requires CrossedAfterPair(qs, i + 1, i + 1) && qs[|ps| - 1] == i
    ensures Between(ps, c, i)
  {
    assert qs[i] == |ps| - 1;
    LastOfThreeMoves(ps, qs, i);
  }

  lemma CrossedAfterPairBack(ps: Places, c: nat, i: nat)
    requires Apart(ps) && i + 1 < |ps| && CrossedAfterPair(Rounded(ps, c, i), ps[i], i + 1)
    ensures Crossed(ps, c, i) || Between(ps, c, i)
  {
    var m, qs := |ps|, Rounded(ps, c, i);
    RoundUndone(ps, c, i);
    assert qs[i + 1] == i + 1 == ps[i];
    PagesMoved(qs, c + 1, i + 1, i, i + 1);
    if qs[m - 1] < i {
      CrossedPairBack(ps, qs, c, i);
    } else {
      CrossedThreeBack(ps, qs, c, i);
    }
  }

  lemma RoundBack(ps: Places, c: nat, i: nat)
    requires Apart(ps) && i + 1 < |ps| && OnTheWay(Rounded(ps, c, i), ps[i], i + 1)
    ensures OnTheWay(ps, c, i)
  {
    var qs, f := Rounded(ps, c, i), ps[i];
    assert IsOnTheWay(qs, f, i + 1, Unit);
    if Straight(qs, f, i + 1) {
      StraightBack(ps, c, i);
    } else if AfterPair(qs, f, i + 1) {
      AfterPairBack(ps, c, i);
    } else if Between(qs, f, i + 1) {
      BetweenBack(ps, c, i);
    } else if Crossed(qs, f, i + 1) {
      CrossedBack(ps, c, i);
    } else {
      CrossedAfterPairBack(ps, c, i);
    }
  }

  // ---------------------------------------------------------------- the whole loop

  lemma NotEarlier(ps: Places, i: nat, j: nat)
    requires Apart(ps) && j < i < |ps| && Home(ps, i)
    ensures ps[i] != j
  {
    assert ps[j] == j;
  }

  lemma LastRoundOn(ps: Places, c: nat, i: nat, n: nat)
    requires Apart(ps) && Below(ps, n) && i + 1 == |ps| && OnTheWay(ps, c, i)
    ensures (ps[i] == c || c + 1 < n) && Home(Rounded(ps, c, i), |ps|)
  {
    assert IsOnTheWay(ps, c, i, Unit);
    if Straight(ps, c, i) {
      if ps[i] < i { NotEarlier(ps, i, ps[i]); }
    } else if Crossed(ps, c, i) {
      PagesMoved(ps, i, ps[i], ps[i], i);
    }
  }

  lemma LastRoundBack(ps: Places, c: nat, i: nat)
    requires Apart(ps) && i + 1 == |ps| && Home(Rounded(ps, c, i), |ps|)
    ensures OnTheWay(ps, c, i)
  {
    RoundUndone(ps, c, i);
    if ps[i] == c {
      assert AfterPair(ps, c, i);
    } else if ps[i] >= i {
      assert Straight(ps, c, i);
    } else {
      PagesMoved(Rounded(ps, c, i), i, ps[i], ps[i], i);
      assert Crossed(ps, c, i);
    }
  }

  ghost predicate AllHome(o: Ending) { o.Done? && Home(o.ps, |o.ps|) }

  lemma LastRoundExactly(ps: Places, c: nat, i: nat, n: nat, o: Ending)
    requires Apart(ps) && Below(ps, n) && i + 1 == |ps| && EndsIn(ps, c, i, n, o)
    ensures AllHome(o) <==> OnTheWay(ps, c, i)
  {
    EndsInStep(ps, c, i, n, o);
    if ps[i] == c || c + 1 < n { EndsInStep(Rounded(ps, c, i), ps[i], i + 1, n, o); }
    if OnTheWay(ps, c, i) {
      LastRoundOn(ps, c, i, n);
    } else if AllHome(o) {
      LastRoundBack(ps, c, i);
    }
  }

  /** The loop ends with all pages in their frames exactly from the placements on the way. */
  lemma {:induction false} ArrivesExactly(ps: Places, c: nat, i: nat, n: nat, o: Ending)
    requires Apart(ps) && Below(ps, n) && i < |ps| && EndsIn(ps, c, i, n, o)
    ensures AllHome(o) <==> OnTheWay(ps, c, i)
    decreases |ps| - i
  {
    if i + 1 == |ps| {
      LastRoundExactly(ps, c, i, n, o);
    } else {
      EndsInStep(ps, c, i, n, o);
      if ps[i] == c || c + 1 < n {
        RoundApart(ps, c, i);
        RoundBelow(ps, c, i, n);
        ArrivesExactly(Rounded(ps, c, i), ps[i], i + 1, n, o);
      }
      if OnTheWay(ps, c, i) {
        RoundOn(ps, c, i, n);
      } else if AllHome(o) {
        RoundBack(ps, c, i);
      }
    }
  }

  /** With the first page in place, the loop puts all pages in their frames exactly if they are ready. */
  lemma ReadyExactly(ps: Places, n: nat)
    requires Apart(ps) && Below(ps, n) && ps != [] && ps[0] == 0
    ensures AllHome(Ended(ps, 0, 1, n)) <==> Ready(ps, 1)
  {
    if |ps| > 1 {
      var o := Ended(ps, 0, 1, n);
      assert EndsIn(ps, 0, 1, n, o);
      ArrivesExactly(ps, 0, 1, n, o);
      assert ps[|ps| - 1] != 0;
      assert IsOnTheWay(ps, 0, 1, Unit) <==> Straight(ps, 0, 1);
      assert OnTheWay(ps, 0, 1) <==> IsOnTheWay(ps, 0, 1, Unit);
    }
  }

  // ---------------------------------------------------------------- when the loop crashes

  lemma RoundBelow(ps: Places, c: nat, i: nat, n: nat)
    requires Below(ps, n) && i < |ps| && (ps[i] == c || c + 1 < n)
    ensures Below(Rounded(ps, c, i), n)
  {
  }

  /** Of pages `i` to `e - 1`, none is in frame `f`. */
  ghost predicate Off(ps: Places, i: nat, e: int, f: int) { forall j :: i <= j < e && j < |ps| ==> ps[j] != f }

  lemma RoundOff(ps: Places, c: nat, i: nat, e: int, f: int)
    requires Apart(ps) && i < e <= |ps| && Off(ps, i, e, f)
    ensures Off(Rounded(ps, c, i), i + 1, e, f)
  {
  }

  /** The loop does not crash if of the pages that it has yet to find none but the last is in the last frame. */
  lemma {:induction false} SafeOff(ps: Places, c: nat, i: nat, n: nat, o: Ending)
    requires Apart(ps) && EndsIn(ps, c, i, n, o) && 1 <= i && c + 1 < n && Off(ps, i, |ps| - 1, n - 1) && Below(ps, n)
    ensures o.Done?
    decreases |ps| - i
  {
    EndsInStep(ps, c, i, n, o);
    if i < |ps| {
      var qs := Rounded(ps, c, i);
      if i + 1 == |ps| {
        EndsInStep(qs, ps[i], i + 1, n, o);
      } else {
        RoundApart(ps, c, i);
        RoundBelow(ps, c, i, n);
        RoundOff(ps, c, i, |ps| - 1, n - 1);
        SafeOff(qs, ps[i], i + 1, n, o);
      }
    }
  }

  /** Once a page was found in the last frame and two more are to follow, it crashes. */
  lemma CrashSoon(ps: Places, i: nat, n: nat, c: nat, o: Ending)
    requires Apart(ps) && EndsIn(ps, c, i, n, o) && i + 2 < |ps| && ps[i] == n - 1
    ensures o.Crash?
  {
    EndsInStep(ps, c, i, n, o);
    if ps[i] == c || c + 1 < n {
      var qs := Rounded(ps, c, i);
      RoundApart(ps, c, i);
      EndsInStep(qs, n - 1, i + 1, n, o);
      if qs[i + 1] == n - 1 { EndsInStep(qs, n - 1, i + 2, n, o); }
    }
  }

  /** It crashes if page `l`, not one of the last two, is in the last frame and none of the pages before page
      `l - 1` is in the frame before it: then nothing moves page `l` before it is found there. */
  lemma {:induction false} CrashesAt(ps: Places, c: nat, i: nat, l: nat, n: nat, o: Ending)
    requires Apart(ps) && EndsIn(ps, c, i, n, o) && i <= l && l + 2 < |ps| && ps[l] == n - 1
    requires Off(ps, i, l - 1, n - 2) && (i < l ==> c + 2 != n)
    ensures o.Crash?
    decreases |ps| - i
  {
    if i == l {
      CrashSoon(ps, i, n, c, o);
    } else {
      EndsInStep(ps, c, i, n, o);
      if ps[i] == c || c + 1 < n {
        RoundApart(ps, c, i);
        CrashesAt(Rounded(ps, c, i), ps[i], i + 1, l, n, o);
      }
    }
  }
}
