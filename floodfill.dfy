/**
 * What revealAdjacentCells does to a board, stated as a relation between the
 * board before (b0) and after (b1) a call at position p, together with the
 * order in which the call reveals cells; and what follows from it.
 */
module FloodFill {
  import opened Cells
  import opened Neighbours

  /** p is revealed in b1 and was not in b0. */
  predicate Newly(b0: Board, b1: Board, p: Pos)
    requires |b1| == |b0| && forall i :: 0 <= i < |b0| ==> |b1[i]| == |b0[i]|
  {
    InGrid(b0, p) && At(b1, p).isRevealed && !At(b0, p).isRevealed
  }

  /**
   * b1 is b0 with some cells revealed: same shape, every field but
   * `isRevealed` kept, no cell hidden again and no flagged cell revealed.
   */
  ghost predicate Grows(b0: Board, b1: Board) {
    && |b1| == |b0| && (forall i :: 0 <= i < |b0| ==> |b1[i]| == |b0[i]|)
    && forall p :: InGrid(b0, p) ==>
      && At(b1, p) == At(b0, p).(isRevealed := At(b1, p).isRevealed)
      && (At(b0, p).isRevealed ==> At(b1, p).isRevealed)
      && (At(b0, p).isFlagged ==> At(b1, p).isRevealed == At(b0, p).isRevealed)
  }

  /** `order` lists each cell revealed on the way from b0 to b1 exactly once. */
  ghost predicate Lists(b0: Board, b1: Board, order: seq<Pos>)
    requires Grows(b0, b1)
  {
    && Distinct(order)
    && (forall k :: 0 <= k < |order| ==> Newly(b0, b1, order[k]))
    && (forall p :: Newly(b0, b1, p) ==> p in order)
  }

  /** Every cell of `order` but the first was reached from an earlier cell next to it that expands. */
  ghost predicate Justified(b: Board, order: seq<Pos>) {
    forall k :: 0 < k < |order| ==> HasParent(b, order, k)
  }

  /** Some cell before `order[k]` is next to it and expands. */
  ghost predicate HasParent(b: Board, order: seq<Pos>, k: int)
    requires 0 <= k < |order|
  {
    exists m :: 0 <= m < k && InGrid(b, order[m]) && Adjacent(order[m], order[k]) && Expands(At(b, order[m]))
  }

  /** Every newly revealed cell that expands, other than those in `open`, has no hidden unflagged neighbour left. */
  ghost predicate ClosedBut(b0: Board, b1: Board, open: set<Pos>)
    requires Grows(b0, b1)
  {
    forall p, q :: Newly(b0, b1, p) && p !in open && Expands(At(b0, p)) && Adjacent(p, q) && InGrid(b0, q) ==>
      At(b1, q).isRevealed || At(b1, q).isFlagged
  }

  /** A call is a no-op exactly when its target is off the board, revealed or flagged. */
  predicate Blocked(b: Board, p: Pos) {
    !InGrid(b, p) || At(b, p).isRevealed || At(b, p).isFlagged
  }

  /** The effect of one call revealAdjacentCells(p.0, p.1) that revealed the cells of `order`, in that order. */
  ghost predicate RevealSpec(b0: Board, b1: Board, p: Pos, order: seq<Pos>) {
    && Grows(b0, b1)
    && Lists(b0, b1, order)
    && (order == [] <==> Blocked(b0, p))
    && (order == [] ==> b1 == b0)
    && (order != [] ==> order[0] == p)
    && Justified(b0, order)
    && ClosedBut(b0, b1, {})
    && Count(b1, RevealedMark) == Count(b0, RevealedMark) + |order|
  }

  // ---------------------------------------------------------------------------
  // Steps of the recursive call, used by the method that performs it

  /** The state inside a call at p once p is revealed and some neighbours are handled. */
  ghost predicate Partial(b0: Board, b1: Board, p: Pos, order: seq<Pos>) {
    && Grows(b0, b1)
    && Lists(b0, b1, order)
    && order != [] && order[0] == p
    && Justified(b0, order)
    && ClosedBut(b0, b1, {p})
    && Count(b1, RevealedMark) == Count(b0, RevealedMark) + |order|
  }

  /** The neighbours of p before (i, j) in row-major order are revealed or flagged. */
  ghost predicate HandledBefore(b: Board, p: Pos, i: int, j: int) {
    forall q :: InGrid(b, q) && Adjacent(p, q) && (q.0 < i || (q.0 == i && q.1 < j)) ==>
      At(b, q).isRevealed || At(b, q).isFlagged
  }

  lemma GrowsTrans(b0: Board, b1: Board, b2: Board)
    requires Grows(b0, b1) && Grows(b1, b2)
    ensures Grows(b0, b2)
  {
  }

  /** Revealing the target starts a call. */
  lemma {:induction false} FirstStep(b0: Board, p: Pos)
    requires !Blocked(b0, p)
    ensures var b1 := Set(b0, p, At(b0, p).(isRevealed := true));
      && Partial(b0, b1, p, [p])
      && (!Expands(At(b0, p)) ==> RevealSpec(b0, b1, p, [p]))
  {
    var b1 := Set(b0, p, At(b0, p).(isRevealed := true));
    CountUpdate(b0, p, At(b0, p).(isRevealed := true), RevealedMark);
    assert Grows(b0, b1);
    forall q | Newly(b0, b1, q)
      ensures q == p
    {
    }
  }

  /** The cells revealed by two calls in turn are those of the first followed by those of the second. */
  lemma ListsCompose(b0: Board, b1: Board, b2: Board, order: seq<Pos>, sub: seq<Pos>)
    requires Grows(b0, b1) && Grows(b1, b2) && Grows(b0, b2)
    requires Lists(b0, b1, order) && Lists(b1, b2, sub)
    ensures Lists(b0, b2, order + sub)
  {
    var o := order + sub;
    forall k, l | 0 <= k < l < |o|
      ensures o[k] != o[l]
    {
      if k < |order| && l >= |order| {
        assert Newly(b0, b1, o[k]) && Newly(b1, b2, o[l]);
      }
    }
    forall r | Newly(b0, b2, r)
      ensures r in o
    {
      if At(b1, r).isRevealed {
        assert Newly(b0, b1, r);
      } else {
        assert Newly(b1, b2, r);
      }
    }
  }

  /** The cells a nested call at a neighbour q of p reveals stay justified after p's own. */
  lemma JustifiedCompose(b0: Board, b1: Board, p: Pos, q: Pos, order: seq<Pos>, sub: seq<Pos>)
    requires Grows(b0, b1)
    requires order != [] && order[0] == p && InGrid(b0, p) && Expands(At(b0, p)) && Adjacent(p, q)
    requires Justified(b0, order) && Justified(b1, sub)
    requires sub != [] ==> sub[0] == q
    requires forall k :: 0 <= k < |sub| ==> InGrid(b0, sub[k])
    ensures Justified(b0, order + sub)
  {
    var o := order + sub;
    forall k | 0 < k < |o|
      ensures HasParent(b0, o, k)
    {
      if k == |order| {
        assert o[0] == p && o[k] == q;
        assert InGrid(b0, o[0]) && Adjacent(o[0], o[k]) && Expands(At(b0, o[0]));
      } else if k > |order| {
        assert HasParent(b1, sub, k - |order|);
        var m :| 0 <= m < k - |order| && InGrid(b1, sub[m]) && Adjacent(sub[m], sub[k - |order|]) && Expands(At(b1, sub[m]));
        var n := |order| + m;
        assert o[n] == sub[m] && o[k] == sub[k - |order|];
        assert InGrid(b0, o[n]) && Adjacent(o[n], o[k]) && Expands(At(b0, o[n]));
      } else {
        assert HasParent(b0, order, k);
        var m :| 0 <= m < k && InGrid(b0, order[m]) && Adjacent(order[m], order[k]) && Expands(At(b0, order[m]));
        assert o[m] == order[m] && o[k] == order[k];
        assert InGrid(b0, o[m]) && Adjacent(o[m], o[k]) && Expands(At(b0, o[m]));
      }
    }
  }

  /** Closure of both calls gives closure of the two together. */
  lemma ClosedCompose(b0: Board, b1: Board, b2: Board, p: Pos)
    requires Grows(b0, b1) && Grows(b1, b2) && Grows(b0, b2)
    requires ClosedBut(b0, b1, {p}) && ClosedBut(b1, b2, {})
    ensures ClosedBut(b0, b2, {p})
  {
    forall r, s | Newly(b0, b2, r) && r !in {p} && Expands(At(b0, r)) && Adjacent(r, s) && InGrid(b0, s)
      ensures At(b2, s).isRevealed || At(b2, s).isFlagged
    {
      if At(b1, r).isRevealed {
        assert Newly(b0, b1, r);
        assert At(b1, s).isRevealed || At(b1, s).isFlagged;
      } else {
        assert Newly(b1, b2, r);
      }
    }
  }

  /** After the nested call at q = (i, j) that neighbour is handled too. */
  lemma HandledStep(b1: Board, b2: Board, p: Pos, q: Pos, sub: seq<Pos>, i: int, j: int)
    requires RevealSpec(b1, b2, q, sub) && InGrid(b1, q) && q == (i, j)
    requires HandledBefore(b1, p, i, j)
    ensures HandledBefore(b2, p, i, j + 1)
  {
    forall r | InGrid(b2, r) && Adjacent(p, r) && (r.0 < i || (r.0 == i && r.1 < j + 1))
      ensures At(b2, r).isRevealed || At(b2, r).isFlagged
    {
      if r == q && sub != [] {
        assert Newly(b1, b2, sub[0]);
      }
    }
  }

  /** Handling the neighbour q of p by a nested call keeps the call's state. */
  lemma {:induction false} NextStep(b0: Board, b1: Board, b2: Board, p: Pos, q: Pos, order: seq<Pos>, sub: seq<Pos>, i: int, j: int)
    requires Partial(b0, b1, p, order) && Expands(At(b0, p))
    requires InGrid(b0, q) && Adjacent(p, q) && q == (i, j)
    requires RevealSpec(b1, b2, q, sub)
    requires HandledBefore(b1, p, i, j)
    ensures Partial(b0, b2, p, order + sub)
    ensures HandledBefore(b2, p, i, j + 1)
  {
    GrowsTrans(b0, b1, b2);
    ListsCompose(b0, b1, b2, order, sub);
    assert Newly(b0, b1, order[0]);
    JustifiedCompose(b0, b1, p, q, order, sub);
    ClosedCompose(b0, b1, b2, p);
    HandledStep(b1, b2, p, q, sub, i, j);
  }

  /** A call whose target expands ends once every neighbour is handled. */
  lemma LastStep(b0: Board, b1: Board, p: Pos, order: seq<Pos>, i: int)
    requires Partial(b0, b1, p, order)
    requires HandledBefore(b1, p, i, 0) && (i > p.0 + 1 || i >= |b1|)
    ensures RevealSpec(b0, b1, p, order)
  {
  }

  /** The set of unrevealed cells, which every call that is not a no-op makes smaller. */
  ghost function Hidden(b: Board): set<Pos> {
    set i, j | 0 <= i < |b| && 0 <= j < |b[i]| && !b[i][j].isRevealed :: (i, j)
  }

  lemma HiddenShrinks(b0: Board, b1: Board, p: Pos)
    requires Grows(b0, b1) && Newly(b0, b1, p)
    ensures Hidden(b1) < Hidden(b0)
  {
    forall q | q in Hidden(b1)
      ensures q in Hidden(b0)
    {
      assert InGrid(b0, q) && !At(b1, q).isRevealed;
      assert !At(b0, q).isRevealed;
    }
    assert p in Hidden(b0);
  }

  // ---------------------------------------------------------------------------
  // What a call reveals: the connected region of its target

  /**
   * S contains p and, with every cell of S that expands, each neighbour that
   * is neither revealed nor flagged: a region the reveal cannot leave.
   */
  ghost predicate ClosedRegion(b: Board, p: Pos, S: set<Pos>) {
    && p in S
    && forall x, y ::
         (x in S && InGrid(b, x) && Expands(At(b, x)) && Adjacent(x, y) && InGrid(b, y) &&
          !At(b, y).isRevealed && !At(b, y).isFlagged) ==> y in S
  }

  lemma {:induction false} InEveryRegion(b0: Board, b1: Board, p: Pos, order: seq<Pos>, S: set<Pos>, k: nat)
    requires RevealSpec(b0, b1, p, order) && ClosedRegion(b0, p, S) && k < |order|
    ensures order[k] in S
    decreases k
  {
    if k > 0 {
      assert HasParent(b0, order, k);
      var m :| 0 <= m < k && InGrid(b0, order[m]) && Adjacent(order[m], order[k]) && Expands(At(b0, order[m]));
      InEveryRegion(b0, b1, p, order, S, m);
      assert Newly(b0, b1, order[k]);
    }
  }

  /** Every cell a call reveals lies in every closed region around its target. */
  lemma RevealIsLeast(b0: Board, b1: Board, p: Pos, order: seq<Pos>, S: set<Pos>)
    requires RevealSpec(b0, b1, p, order) && ClosedRegion(b0, p, S)
    ensures forall x :: x in order ==> x in S
  {
    forall k | 0 <= k < |order|
      ensures order[k] in S
    {
      InEveryRegion(b0, b1, p, order, S, k);
    }
  }

  /** The cells a call reveals form a closed region themselves: the least one. */
  lemma RevealIsClosed(b0: Board, b1: Board, p: Pos, order: seq<Pos>)
    requires RevealSpec(b0, b1, p, order) && !Blocked(b0, p)
    ensures ClosedRegion(b0, p, set x | x in order)
  {
    var S := set x | x in order;
    forall x, y | x in S && InGrid(b0, x) && Expands(At(b0, x)) && Adjacent(x, y) && InGrid(b0, y) &&
        !At(b0, y).isRevealed && !At(b0, y).isFlagged
      ensures y in S
    {
      var k :| 0 <= k < |order| && order[k] == x;
      assert Newly(b0, b1, x);
      assert At(b1, y).isRevealed;
      assert Newly(b0, b1, y);
    }
  }

  /** A call's effect on the board is determined: any two results of it agree. */
  lemma RevealUnique(b0: Board, b1: Board, b2: Board, p: Pos, o1: seq<Pos>, o2: seq<Pos>)
    requires RevealSpec(b0, b1, p, o1) && RevealSpec(b0, b2, p, o2)
    ensures b1 == b2
    ensures (set x | x in o1) == (set x | x in o2)
  {
    if !Blocked(b0, p) {
      RevealIsClosed(b0, b1, p, o1);
      RevealIsClosed(b0, b2, p, o2);
      RevealIsLeast(b0, b1, p, o1, set x | x in o2);
      RevealIsLeast(b0, b2, p, o2, set x | x in o1);
      forall i, j | 0 <= i < |b1| && 0 <= j < |b1[i]|
        ensures b1[i][j] == b2[i][j]
      {
        var q := (i, j);
        assert At(b1, q).isRevealed == At(b2, q).isRevealed by {
          if At(b1, q).isRevealed && !At(b0, q).isRevealed {
            assert Newly(b0, b1, q);
            assert Newly(b0, b2, q);
          }
          if At(b2, q).isRevealed && !At(b0, q).isRevealed {
            assert Newly(b0, b2, q);
            assert Newly(b0, b1, q);
          }
        }
      }
      BoardExt(b1, b2);
    }
  }

  /**
   * With correct counts on the board, only the target of a call can be a mine
   * among the cells it reveals: every other one sits next to a revealed cell
   * whose count is zero.
   */
  lemma NoOtherMine(b0: Board, b1: Board, p: Pos, order: seq<Pos>)
    requires RevealSpec(b0, b1, p, order) && AdjacencyCorrect(b0)
    ensures forall k :: 0 < k < |order| ==> !At(b0, order[k]).isMine
  {
    forall k | 0 < k < |order|
      ensures !At(b0, order[k]).isMine
    {
      assert HasParent(b0, order, k);
      var m :| 0 <= m < k && InGrid(b0, order[m]) && Adjacent(order[m], order[k]) && Expands(At(b0, order[m]));
      MinesAroundZero(b0, order[m]);
      assert Newly(b0, b1, order[k]);
    }
  }

  /** Revealing a cell that is not a mine uncovers no mine at all. */
  lemma SafeRevealNoMine(b0: Board, b1: Board, p: Pos, order: seq<Pos>)
    requires RevealSpec(b0, b1, p, order) && AdjacencyCorrect(b0)
    requires InGrid(b0, p) && !At(b0, p).isMine
    ensures forall q :: InGrid(b1, q) && At(b1, q).isRevealed && !At(b0, q).isRevealed ==> !At(b1, q).isMine
  {
    NoOtherMine(b0, b1, p, order);
    forall q | InGrid(b1, q) && At(b1, q).isRevealed && !At(b0, q).isRevealed
      ensures !At(b1, q).isMine
    {
      assert Newly(b0, b1, q);
      var k :| 0 <= k < |order| && order[k] == q;
    }
  }
}
