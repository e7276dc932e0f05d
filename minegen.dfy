/**
 * First-click-safe mine generation (generateMinePositions): rejection
 * sampling of distinct cell indices outside the 3x3 block around the first
 * click. The random source is an oracle: the sequence `draws` of the indices
 * `Math.floor(Math.random() * totalCells)` would produce, in order.
 */
module MineGen {
  import opened Cells

  /** Row-major index to position: `(floor(index / cols), index % cols)`. */
  function Decode(index: int, cols: int): Pos
    requires cols > 0
  {
    (index / cols, index % cols)
  }

  /** `|row - first.row| <= 1 && |col - first.col| <= 1`: the first click and its neighbours. */
  predicate InBlock(p: Pos, first: Pos) {
    -1 <= p.0 - first.0 <= 1 && -1 <= p.1 - first.1 <= 1
  }

  lemma DecodeInRange(index: int, rows: int, cols: int)
    requires cols > 0 && 0 <= index < rows * cols
    ensures 0 <= Decode(index, cols).0 < rows && 0 <= Decode(index, cols).1 < cols
  {
    assert (index / cols) * cols <= index;
  }

  lemma DecodeInjective(x: int, y: int, cols: int)
    requires cols > 0 && x >= 0 && y >= 0
    requires Decode(x, cols) == Decode(y, cols)
    ensures x == y
  {
    assert x == (x / cols) * cols + x % cols;
    assert y == (y / cols) * cols + y % cols;
  }

  /**
   * The contents of the index set, in insertion order, after the loop body
   * has run once for each draw: an index in the block is skipped, a repeated
   * index leaves the set as it is.
   */
  function Accepted(draws: seq<int>, cols: int, first: Pos): (acc: seq<int>)
    requires cols > 0
    ensures |acc| <= |draws|
  {
    if draws == [] then []
    else
      var acc := Accepted(draws[..|draws| - 1], cols, first);
      var index := draws[|draws| - 1];
      if InBlock(Decode(index, cols), first) || index in acc then acc else acc + [index]
  }

  /** The accepted indices are distinct draws, none in the block. */
  lemma {:induction false} AcceptedFacts(draws: seq<int>, cols: int, first: Pos)
    requires cols > 0
    ensures Distinct(Accepted(draws, cols, first))
    ensures forall x :: x in Accepted(draws, cols, first) ==> x in draws && !InBlock(Decode(x, cols), first)
  {
    if draws != [] {
      var init := draws[..|draws| - 1];
      AcceptedFacts(init, cols, first);
      assert forall x :: x in init ==> x in draws;
    }
  }

  /** One more draw adds at most its own index. */
  lemma AcceptedStep(draws: seq<int>, k: nat, cols: int, first: Pos)
    requires cols > 0 && k < |draws|
    ensures Accepted(draws[..k + 1], cols, first) ==
      var acc := Accepted(draws[..k], cols, first);
      if InBlock(Decode(draws[k], cols), first) || draws[k] in acc then acc else acc + [draws[k]]
  {
    assert draws[..k + 1][..k] == draws[..k];
  }

  /** A prefix that accepted fewer indices than all the draws is a proper prefix. */
  lemma DrawsRemain(draws: seq<int>, k: nat, cols: int, first: Pos)
    requires cols > 0 && k <= |draws|
    requires |Accepted(draws[..k], cols, first)| < |Accepted(draws, cols, first)|
    ensures k < |draws|
  {
    assert draws[..|draws|] == draws;
  }

  /** The indices outside the block, among the `rows * cols` cells. */
  ghost function EligibleSet(rows: int, cols: int, first: Pos): set<int>
    requires cols > 0
  {
    set index | 0 <= index < rows * cols && !InBlock(Decode(index, cols), first)
  }

  lemma {:induction false} DistinctCard<T>(s: seq<T>)
    requires Distinct(s)
    ensures |set x | x in s| == |s|
  {
    if s != [] {
      var init := s[..|s| - 1];
      DistinctCard(init);
      assert (set x | x in s) == (set x | x in init) + {s[|s| - 1]};
    }
  }

  lemma {:induction false} SubsetCard<T>(a: set<T>, b: set<T>)
    requires a <= b
    ensures |a| <= |b|
    decreases a
  {
    if a != {} {
      var x :| x in a;
      SubsetCard(a - {x}, b - {x});
    }
  }

  /**
   * However the draws fall, at most the indices outside the block are ever
   * accepted: with more mines than that the sampling loop never ends.
   */
  lemma AcceptedAtMostEligible(draws: seq<int>, rows: int, cols: int, first: Pos)
    requires cols > 0
    requires forall k :: 0 <= k < |draws| ==> 0 <= draws[k] < rows * cols
    ensures |Accepted(draws, cols, first)| <= |EligibleSet(rows, cols, first)|
  {
    var acc := Accepted(draws, cols, first);
    AcceptedFacts(draws, cols, first);
    DistinctCard(acc);
    var e := EligibleSet(rows, cols, first);
    var a := set x | x in acc;
    forall x | x in a
      ensures x in e
    {
      assert x in draws;
    }
    SubsetCard(a, e);
  }

  /** The indices 0, 1, ..., n - 1 in order. */
  function Enumeration(n: nat): (s: seq<int>)
    ensures |s| == n && forall k :: 0 <= k < n ==> s[k] == k
  {
    seq(n, k => k)
  }

  lemma {:induction false} EnumerationAccepts(n: nat, cols: int, first: Pos)
    requires cols > 0
    ensures (set x | x in Accepted(Enumeration(n), cols, first)) ==
      set index | 0 <= index < n && !InBlock(Decode(index, cols), first)
  {
    if n > 0 {
      assert Enumeration(n)[..n - 1] == Enumeration(n - 1);
      EnumerationAccepts(n - 1, cols, first);
      AcceptedFacts(Enumeration(n - 1), cols, first);
      var before := Accepted(Enumeration(n - 1), cols, first);
      assert n - 1 !in before;
      var s0 := set x | x in before;
      forall x
        ensures x in Accepted(Enumeration(n), cols, first) <==> 0 <= x < n && !InBlock(Decode(x, cols), first)
      {
        assert x in s0 <==> x in before;
      }
    }
  }

  /**
   * Conversely, when the mines fit outside the block some sequence of draws
   * (every index once, in order) lets the sampling loop finish.
   */
  lemma SomeDrawsSuffice(rows: int, cols: int, first: Pos, mines: int)
    requires cols > 0 && rows > 0
    requires mines <= |EligibleSet(rows, cols, first)|
    ensures var draws := Enumeration(rows * cols);
      (forall k :: 0 <= k < |draws| ==> 0 <= draws[k] < rows * cols) &&
      |Accepted(draws, cols, first)| >= mines
  {
    var acc := Accepted(Enumeration(rows * cols), cols, first);
    EnumerationAccepts(rows * cols, cols, first);
    AcceptedFacts(Enumeration(rows * cols), cols, first);
    DistinctCard(acc);
  }

  /** The indices of all cells, as a set: exactly `n` of them. */
  lemma {:induction false} AllIndices(n: nat)
    ensures |set x | x in Enumeration(n)| == n
    ensures forall x :: x in Enumeration(n) <==> 0 <= x < n
  {
    DistinctCard(Enumeration(n));
    forall x | 0 <= x < n
      ensures x in Enumeration(n)
    {
      assert Enumeration(n)[x] == x;
    }
  }

  /** At most every cell is outside the block. */
  lemma EligibleAtMost(rows: int, cols: int, first: Pos)
    requires rows > 0 && cols > 0
    ensures |EligibleSet(rows, cols, first)| <= rows * cols
  {
    AllIndices(rows * cols);
    SubsetCard(EligibleSet(rows, cols, first), set x | x in Enumeration(rows * cols));
  }

  /** The indices of the 3x3 block around `first`, on a grid `cols` wide. */
  function BlockIndices(first: Pos, cols: int): (d: set<int>)
    ensures |d| <= 9
  {
    var (r, c) := first;
    {(r - 1) * cols + c - 1, (r - 1) * cols + c, (r - 1) * cols + c + 1,
     r * cols + c - 1, r * cols + c, r * cols + c + 1,
     (r + 1) * cols + c - 1, (r + 1) * cols + c, (r + 1) * cols + c + 1}
  }

  lemma InBlockIndex(x: int, cols: int, first: Pos)
    requires cols > 0 && x >= 0 && InBlock(Decode(x, cols), first)
    ensures x in BlockIndices(first, cols)
  {
    var q, m := x / cols, x % cols;
    assert x == q * cols + m;
    var (r, c) := first;
    if q == r - 1 {
      assert x == (r - 1) * cols + m;
    } else if q == r {
      assert x == r * cols + m;
    } else {
      assert x == (r + 1) * cols + m;
    }
  }

  /** The block around the first click holds at most nine cells, so at least `rows * cols - 9` are eligible. */
  lemma EligibleAtLeast(rows: int, cols: int, first: Pos)
    requires rows > 0 && cols > 0
    ensures |EligibleSet(rows, cols, first)| >= rows * cols - 9
  {
    var n := rows * cols;
    AllIndices(n);
    var all := set x | x in Enumeration(n);
    var block := set x | x in all && InBlock(Decode(x, cols), first);
    forall x | x in block
      ensures x in BlockIndices(first, cols)
    {
      InBlockIndex(x, cols, first);
    }
    SubsetCard(block, BlockIndices(first, cols));
    assert EligibleSet(rows, cols, first) == all - block;
  }

  /** Each index turned into its position. */
  function DecodeAll(indices: seq<int>, cols: int): (ps: seq<Pos>)
    requires cols > 0
    ensures |ps| == |indices| && forall k :: 0 <= k < |ps| ==> ps[k] == Decode(indices[k], cols)
  {
    seq(|indices|, k requires 0 <= k < |indices| => Decode(indices[k], cols))
  }

  /** Accepted in-range draws become distinct positions on the board, all outside the block. */
  lemma AcceptedPositions(draws: seq<int>, rows: int, cols: int, first: Pos)
    requires cols > 0
    requires forall k :: 0 <= k < |draws| ==> 0 <= draws[k] < rows * cols
    ensures var ps := DecodeAll(Accepted(draws, cols, first), cols);
      Distinct(ps) &&
      forall k :: 0 <= k < |ps| ==> 0 <= ps[k].0 < rows && 0 <= ps[k].1 < cols && !InBlock(ps[k], first)
  {
    var acc := Accepted(draws, cols, first);
    var ps := DecodeAll(acc, cols);
    AcceptedFacts(draws, cols, first);
    forall l | 0 <= l < |ps|
      ensures 0 <= ps[l].0 < rows && 0 <= ps[l].1 < cols
    {
      assert acc[l] in draws;
      DecodeInRange(acc[l], rows, cols);
    }
    forall l, m | 0 <= l < m < |ps|
      ensures ps[l] != ps[m]
    {
      assert acc[l] in draws && acc[m] in draws;
      if ps[l] == ps[m] {
        DecodeInjective(acc[l], acc[m], cols);
      }
    }
  }

  /** Before draw `used` the set never held `mines` indices: the loop stops at the first draw that completes it. */
  ghost predicate Unfinished(draws: seq<int>, used: nat, cols: int, first: Pos, mines: int)
    requires cols > 0 && used <= |draws|
  {
    forall k :: 0 <= k < used ==> |Accepted(draws[..k], cols, first)| < mines
  }

  /** A pass of the sampling loop: a draw is left, and taking it keeps the set short of `mines` before it. */
  lemma DrawStep(draws: seq<int>, k: nat, cols: int, first: Pos, mines: int)
    requires cols > 0 && k <= |draws| && Unfinished(draws, k, cols, first, mines)
    requires |Accepted(draws[..k], cols, first)| < mines <= |Accepted(draws, cols, first)|
    ensures k < |draws| && Unfinished(draws, k + 1, cols, first, mines)
    ensures Accepted(draws[..k + 1], cols, first) ==
      var acc := Accepted(draws[..k], cols, first);
      if InBlock(Decode(draws[k], cols), first) || draws[k] in acc then acc else acc + [draws[k]]
  {
    DrawsRemain(draws, k, cols, first);
    AcceptedStep(draws, k, cols, first);
  }

  /** The loop stops with exactly `mines` indices (none when `mines` is not positive). */
  lemma DrawStop(draws: seq<int>, k: nat, cols: int, first: Pos, mines: int)
    requires cols > 0 && k <= |draws| && Unfinished(draws, k, cols, first, mines)
    requires |Accepted(draws[..k], cols, first)| >= mines
    ensures |Accepted(draws[..k], cols, first)| == Size(mines)
  {
    if k > 0 {
      AcceptedStep(draws, k - 1, cols, first);
      assert draws[..k - 1 + 1] == draws[..k];
    }
  }

  /**
   * generateMinePositions: draws indices until the set holds `mines` of them,
   * skipping every index in the block around the first click, then lists the
   * set's positions in insertion order.
   */
  method GenerateMinePositions(rows: int, cols: int, mines: int, first: Pos, draws: seq<int>)
    returns (positions: seq<Pos>, ghost used: nat)
    requires 0 <= first.0 < rows && 0 <= first.1 < cols
    requires forall k :: 0 <= k < |draws| ==> 0 <= draws[k] < rows * cols
    requires |Accepted(draws, cols, first)| >= mines
    ensures |positions| == Size(mines)
    ensures Distinct(positions)
    ensures forall k :: 0 <= k < |positions| ==>
      0 <= positions[k].0 < rows && 0 <= positions[k].1 < cols && !InBlock(positions[k], first)
    ensures used <= |draws|
    ensures positions == DecodeAll(Accepted(draws[..used], cols, first), cols)
    ensures Unfinished(draws, used, cols, first, mines)
  {
    var mineIndices: seq<int> := [];
    var k := 0;
    while |mineIndices| < mines
      invariant 0 <= k <= |draws|
      invariant mineIndices == Accepted(draws[..k], cols, first)
      invariant Unfinished(draws, k, cols, first, mines)
      decreases |draws| - k
    {
      DrawStep(draws, k, cols, first, mines);
      var index := draws[k];
      k := k + 1;
      var row, col := index / cols, index % cols;
      if -1 <= row - first.0 <= 1 && -1 <= col - first.1 <= 1 {
        continue;
      }
      if index !in mineIndices {
        mineIndices := mineIndices + [index];
      }
    }
    used := k;
    DrawStop(draws, k, cols, first, mines);
    positions := [];
    for m := 0 to |mineIndices|
      invariant positions == DecodeAll(mineIndices[..m], cols)
    {
      positions := positions + [Decode(mineIndices[m], cols)];
    }
    assert mineIndices[..|mineIndices|] == mineIndices;
    AcceptedPositions(draws[..k], rows, cols, first);
  }
}
