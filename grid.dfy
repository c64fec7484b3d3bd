/** The solver's shared state and the facts every pass keeps about it.

    One State value holds the five structures of the engine:
      solution   a 9x9 grid of optional digits (None is a blank),
      cands      a 9x9 grid of candidate-digit sets (element_sets),
      rowSets, colSets, blockSets
                 nine sets each: the digits not yet placed in that row,
                 column or block. */
module Grid {
  import opened Blocks

  datatype Option<T> = None | Some(value: T)

  /** The digits 1-9. */
  const Digits: set<int> := set d | 1 <= d <= 9

  datatype State = State(
    solution: seq<seq<Option<int>>>,
    cands: seq<seq<set<int>>>,
    rowSets: seq<set<int>>,
    colSets: seq<set<int>>,
    blockSets: seq<set<int>>)

  /** A 9x9 grid. */
  ghost predicate Square<T>(g: seq<seq<T>>)
  {
    |g| == 9 && forall i :: 0 <= i < 9 ==> |g[i]| == 9
  }

  ghost predicate Shaped(s: State)
  {
    Square(s.solution) && Square(s.cands) &&
    |s.rowSets| == 9 && |s.colSets| == 9 && |s.blockSets| == 9
  }

  /** Every candidate and every placed value is a digit 1-9. */
  ghost predicate DigitsOnly(s: State)
    requires Shaped(s)
  {
    forall i, j :: 0 <= i < 9 && 0 <= j < 9 ==>
      s.cands[i][j] <= Digits &&
      (s.solution[i][j].Some? ==> s.solution[i][j].value in Digits)
  }

  /** A digit placed at (i, j) is absent from the row, column and block sets
      of that cell. */
  ghost predicate PeersExclude(s: State)
    requires Shaped(s)
  {
    forall i, j {:trigger s.solution[i][j]} :: 0 <= i < 9 && 0 <= j < 9 && s.solution[i][j].Some? ==>
      s.solution[i][j].value !in s.rowSets[i] &&
      s.solution[i][j].value !in s.colSets[j] &&
      s.solution[i][j].value !in s.blockSets[BlockOf(i, j)]
  }

  /** A placed cell keeps at most its own digit as candidate: a given keeps
      {c}, a cell placed while solving is left with the empty set. */
  ghost predicate FixedDecided(s: State)
    requires Shaped(s)
  {
    forall i, j :: 0 <= i < 9 && 0 <= j < 9 && s.solution[i][j].Some? ==>
      s.cands[i][j] <= {s.solution[i][j].value}
  }

  /** The invariant that holds between the passes of a solve. */
  ghost predicate Valid(s: State)
  {
    Shaped(s) && DigitsOnly(s) && PeersExclude(s) && FixedDecided(s)
  }

  /** Every open cell with several candidates has only candidates its row,
      column and block still allow: what a relaxation pass that made no
      progress leaves behind. */
  ghost predicate Settled(s: State)
    requires Shaped(s)
  {
    forall i, j {:trigger s.solution[i][j]} ::
      0 <= i < 9 && 0 <= j < 9 && s.solution[i][j].None? && |s.cands[i][j]| > 1 ==>
      s.cands[i][j] <= s.rowSets[i] &&
      s.cands[i][j] <= s.colSets[j] &&
      s.cands[i][j] <= s.blockSets[BlockOf(i, j)]
  }

  /** The solution grid only gains placements; no placed digit is replaced. */
  ghost predicate Extends(old_: seq<seq<Option<int>>>, new_: seq<seq<Option<int>>>)
    requires Square(old_) && Square(new_)
  {
    forall i, j :: 0 <= i < 9 && 0 <= j < 9 && old_[i][j].Some? ==> new_[i][j] == old_[i][j]
  }

  /** The cells placed in sol hold the same candidate set in h as in g. */
  ghost predicate PlacedKept(sol: seq<seq<Option<int>>>, g: seq<seq<set<int>>>, h: seq<seq<set<int>>>)
    requires Square(sol) && Square(g) && Square(h)
  {
    forall i, j :: 0 <= i < 9 && 0 <= j < 9 && sol[i][j].Some? ==> h[i][j] == g[i][j]
  }

  // ---------------------------------------------------------------------
  // Candidate counts: the measure that makes the solve loop terminate.

  /** Number of candidates in one row of cells. */
  function RowTotal(row: seq<set<int>>): nat
  {
    if row == [] then 0 else |row[0]| + RowTotal(row[1..])
  }

  /** Number of candidates in the whole candidate grid. */
  function Total(g: seq<seq<set<int>>>): nat
  {
    if g == [] then 0 else RowTotal(g[0]) + Total(g[1..])
  }

  /** h is g with some candidates struck: same shape, every cell a subset. */
  ghost predicate Shrinks(g: seq<seq<set<int>>>, h: seq<seq<set<int>>>)
  {
    |h| == |g| &&
    (forall i :: 0 <= i < |g| ==> |h[i]| == |g[i]|) &&
    forall i, j :: 0 <= i < |g| && 0 <= j < |g[i]| ==> h[i][j] <= g[i][j]
  }

  /** Striking twice is striking. */
  lemma ShrinksTrans(g: seq<seq<set<int>>>, h: seq<seq<set<int>>>, u: seq<seq<set<int>>>)
    requires Shrinks(g, h) && Shrinks(h, u)
    ensures Shrinks(g, u)
  {
  }

  /** A subset has no more elements, and strictly fewer when it is proper. */
  lemma SubsetCard(x: set<int>, y: set<int>)
    requires x <= y
    ensures |y| == |x| + |y - x|
    ensures x != y ==> |x| < |y|
  {
    assert y == x + (y - x);
    assert x * (y - x) == {};
    if x != y {
      assert y - x != {};
    }
  }

  /** Keeping placed sets composes, as long as placed cells stay placed. */
  lemma PlacedKeptTrans(sol: seq<seq<Option<int>>>, sol2: seq<seq<Option<int>>>,
                        g: seq<seq<set<int>>>, h: seq<seq<set<int>>>, u: seq<seq<set<int>>>)
    requires Square(sol) && Square(sol2) && Square(g) && Square(h) && Square(u)
    requires Extends(sol, sol2) && PlacedKept(sol, g, h) && PlacedKept(sol2, h, u)
    ensures PlacedKept(sol, g, u)
  {
  }

  /** Every placed cell holds at most one candidate. */
  ghost predicate PlacedDecided(s: State)
    requires Shaped(s)
  {
    forall i, j :: 0 <= i < 9 && 0 <= j < 9 && s.solution[i][j].Some? ==> |s.cands[i][j]| <= 1
  }

  /** Under the invariant a placed cell holds at most one candidate. */
  lemma ValidPlacedDecided(s: State)
    requires Valid(s)
    ensures PlacedDecided(s)
  {
    forall i, j | 0 <= i < 9 && 0 <= j < 9 && s.solution[i][j].Some?
      ensures |s.cands[i][j]| <= 1
    {
      SubsetCard(s.cands[i][j], {s.solution[i][j].value});
    }
  }

  /** A set with elements has a member. */
  lemma HasMember(c: set<int>)
    requires |c| > 0
    ensures exists y :: y in c
  {
    if forall y :: y !in c {
      assert false;
    }
  }

  lemma {:induction false} RowTotalShrinks(r: seq<set<int>>, q: seq<set<int>>)
    requires |q| == |r| && forall j :: 0 <= j < |r| ==> q[j] <= r[j]
    ensures RowTotal(q) <= RowTotal(r)
    ensures q != r ==> RowTotal(q) < RowTotal(r)
  {
    if r != [] {
      assert q == [q[0]] + q[1..] && r == [r[0]] + r[1..];
      SubsetCard(q[0], r[0]);
      RowTotalShrinks(r[1..], q[1..]);
    }
  }

  /** Striking candidates lowers the total, strictly when any cell changed. */
  lemma {:induction false} TotalShrinks(g: seq<seq<set<int>>>, h: seq<seq<set<int>>>)
    requires Shrinks(g, h)
    ensures Total(h) <= Total(g)
    ensures h != g ==> Total(h) < Total(g)
  {
    if g != [] {
      RowTotalShrinks(g[0], h[0]);
      assert Shrinks(g[1..], h[1..]) by {
        forall i, j | 0 <= i < |g| - 1 && 0 <= j < |g[1..][i]|
          ensures h[1..][i][j] <= g[1..][i][j]
        {
          assert h[1..][i] == h[i + 1] && g[1..][i] == g[i + 1];
        }
      }
      TotalShrinks(g[1..], h[1..]);
      assert h == [h[0]] + h[1..] && g == [g[0]] + g[1..];
    }
  }

  /** Striking candidates alone keeps the solver invariant, and keeps every
      open cell with several candidates within its peer sets. */
  lemma NarrowKeepsValid(s: State, g: seq<seq<set<int>>>)
    requires Valid(s) && Shrinks(s.cands, g)
    ensures Valid(s.(cands := g))
    ensures Settled(s) ==> Settled(s.(cands := g))
  {
    var t := s.(cands := g);
    forall i, j {:trigger t.solution[i][j]} | 0 <= i < 9 && 0 <= j < 9 && t.solution[i][j].None? && |g[i][j]| > 1
      ensures Settled(s) ==> g[i][j] <= s.rowSets[i] && g[i][j] <= s.colSets[j] && g[i][j] <= s.blockSets[BlockOf(i, j)]
    {
      SubsetCard(g[i][j], s.cands[i][j]);
    }
  }

  // ---------------------------------------------------------------------
  // Solutions of the puzzle, and soundness of a state with respect to one.

  /** The digits of row i, column j and block b of a 9x9 grid of digits. */
  ghost function RowOf(z: seq<seq<int>>, i: int): set<int>
    requires Square(z) && 0 <= i < 9
  {
    set j | 0 <= j < 9 :: z[i][j]
  }

  ghost function ColumnOf(z: seq<seq<int>>, j: int): set<int>
    requires Square(z) && 0 <= j < 9
  {
    set i | 0 <= i < 9 :: z[i][j]
  }

  ghost function BlockValues(z: seq<seq<int>>, b: int): set<int>
    requires Square(z)
  {
    set i, j | 0 <= i < 9 && 0 <= j < 9 && BlockOf(i, j) == b :: z[i][j]
  }

  /** A solved Sudoku: each row, column and block holds each digit exactly
      once. */
  ghost predicate IsSolutionGrid(z: seq<seq<int>>)
  {
    Square(z) &&
    (forall i :: 0 <= i < 9 ==> RowOf(z, i) == Digits) &&
    (forall j :: 0 <= j < 9 ==> ColumnOf(z, j) == Digits) &&
    (forall b :: 0 <= b < 9 ==> BlockValues(z, b) == Digits) &&
    (forall i, j, k :: 0 <= i < 9 && 0 <= j < 9 && 0 <= k < 9 && j != k ==> z[i][j] != z[i][k]) &&
    (forall i, k, j :: 0 <= i < 9 && 0 <= k < 9 && 0 <= j < 9 && i != k ==> z[i][j] != z[k][j]) &&
    (forall i, j, k, l ::
       (0 <= i < 9 && 0 <= j < 9 && 0 <= k < 9 && 0 <= l < 9 && (i != k || j != l) &&
        BlockOf(i, j) == BlockOf(k, l)) ==> z[i][j] != z[k][l])
  }

  /** State s has not ruled out solution z: every placed cell holds z's
      digit, and z's digit at every open cell is still a candidate of the
      cell and still missing from the cell's row, column and block. */
  ghost predicate Sound(s: State, z: seq<seq<int>>)
  {
    Shaped(s) && Square(z) &&
    (forall i, j :: 0 <= i < 9 && 0 <= j < 9 && s.solution[i][j].Some? ==>
       s.solution[i][j].value == z[i][j]) &&
    (forall i, j {:trigger s.solution[i][j]} :: 0 <= i < 9 && 0 <= j < 9 && s.solution[i][j].None? ==>
       z[i][j] in s.cands[i][j] &&
       z[i][j] in s.rowSets[i] &&
       z[i][j] in s.colSets[j] &&
       z[i][j] in s.blockSets[BlockOf(i, j)])
  }
}
