/** Relaxation pass (relax_sets): one row-major sweep over the 81 cells that
    intersects each cell with several candidates with its row, column and
    block sets, and places the cells left with a single candidate. */
module Relaxation {
  import opened Blocks
  import opened Grid
  import opened Assignment

  /** A one-element set has exactly one member. */
  lemma OneMember(c: set<int>, x: int)
    requires |c| == 1 && x in c
    ensures c == {x}
  {
    assert |c - {x}| == 0;
  }

  /** The element of a one-element set (list(c)[0]). */
  ghost function Sole(c: set<int>): (e: int)
    requires |c| == 1
    ensures c == {e}
  {
    HasMember(c);
    var x :| x in c;
    OneMember(c, x);
    x
  }

  /** The candidates of (i, j) that its row, column and block still allow. */
  ghost function Allowed(s: State, i: int, j: int): set<int>
    requires Shaped(s) && 0 <= i < 9 && 0 <= j < 9
  {
    s.cands[i][j] * s.rowSets[i] * s.colSets[j] * s.blockSets[BlockOf(i, j)]
  }

  /** The body of the sweep for cell (i, j). An empty set is skipped; a
      single candidate is handed to the assignment operator; otherwise the
      set is replaced by Allowed and, when that leaves one candidate, the cell
      is assigned too. The flag reports a changed set or an assignment. */
  ghost function RelaxCell(s: State, i: int, j: int): (res: (State, bool))
    requires Shaped(s) && 0 <= i < 9 && 0 <= j < 9
    ensures Shaped(res.0)
  {
    var c := s.cands[i][j];
    if |c| == 0 then (s, false)
    else if |c| == 1 then Assign(s, i, j, Sole(c))
    else
      var a := Allowed(s, i, j);
      if a == c then (s, false)
      else
        var t := s.(cands := s.cands[i := s.cands[i][j := a]]);
        if |a| == 1 then (Assign(t, i, j, Sole(a)).0, true) else (t, true)
  }

  /** The state and accumulated flag after the sweep has visited the first k
      cells in row-major order; each cell sees the peer sets as the earlier
      cells of the same sweep left them. */
  ghost function RelaxUpTo(s: State, k: int): (res: (State, bool))
    requires Shaped(s) && 0 <= k <= 81
    ensures Shaped(res.0)
    decreases k
  {
    if k == 0 then (s, false)
    else
      var prev := RelaxUpTo(s, k - 1);
      var next := RelaxCell(prev.0, (k - 1) / 9, (k - 1) % 9);
      (next.0, prev.1 || next.1)
  }

  /** t and the flag f are where the sweep from s stands after k cells. */
  ghost predicate RelaxReached(s: State, k: int, t: State, f: bool)
  {
    Shaped(s) && 0 <= k <= 81 && (t, f) == RelaxUpTo(s, k)
  }

  /** relax_sets: the whole sweep. */
  ghost function Relax(s: State): (State, bool)
    requires Shaped(s)
  {
    RelaxUpTo(s, 81)
  }

  // ---------------------------------------------------------------------
  // One cell.

  /** What the sweep does to a cell with several candidates: it keeps the
      candidates its peers allow; if exactly one is left and the cell is
      open, that digit is placed and the cell's set becomes empty. */
  lemma RelaxCellNarrows(s: State, i: int, j: int)
    requires Shaped(s) && 0 <= i < 9 && 0 <= j < 9 && |s.cands[i][j]| > 1
    ensures var t := RelaxCell(s, i, j).0; var a := Allowed(s, i, j);
      if |a| == 1 && s.solution[i][j].None? then
        t.solution[i][j] == Some(Sole(a)) && t.cands[i][j] == {}
      else
        t.solution[i][j] == s.solution[i][j] && t.cands[i][j] == a
  {
  }

  /** What the sweep does to a cell with one candidate r: an open cell gets
      r placed, its set emptied and r struck from its row, column and block
      sets, with progress reported; a placed cell, which keeps {c}, is left
      as it was and reports no progress. */
  lemma RelaxCellSingleton(s: State, i: int, j: int)
    requires Shaped(s) && 0 <= i < 9 && 0 <= j < 9 && |s.cands[i][j]| == 1
    ensures var (t, f) := RelaxCell(s, i, j); var r := Sole(s.cands[i][j]);
      if s.solution[i][j].None? then
        f && t.solution[i][j] == Some(r) && t.cands[i][j] == {} &&
        t.rowSets[i] == s.rowSets[i] - {r} && t.colSets[j] == s.colSets[j] - {r} &&
        t.blockSets[BlockOf(i, j)] == s.blockSets[BlockOf(i, j)] - {r}
      else
        !f && t == s
  {
  }

  /** A cell step only strikes candidates, only at (i, j), never replaces a
      placed digit, and reports progress exactly when (i, j) lost a
      candidate; without progress the state is untouched. */
  lemma RelaxCellProgress(s: State, i: int, j: int)
    requires Shaped(s) && 0 <= i < 9 && 0 <= j < 9
    ensures var (t, f) := RelaxCell(s, i, j);
      Shrinks(s.cands, t.cands) && Extends(s.solution, t.solution) &&
      (forall k, l :: 0 <= k < 9 && 0 <= l < 9 && (k != i || l != j) ==> t.cands[k][l] == s.cands[k][l]) &&
      (f <==> t.cands[i][j] != s.cands[i][j]) &&
      (!f ==> t == s)
  {
    var c := s.cands[i][j];
    if |c| == 1 {
      AssignShrinks(s, i, j, Sole(c));
    } else if |c| > 1 && Allowed(s, i, j) != c {
      var a := Allowed(s, i, j);
      var t := s.(cands := s.cands[i := s.cands[i][j := a]]);
      if |a| == 1 {
        AssignShrinks(t, i, j, Sole(a));
      }
    }
  }

  /** A cell step that reports no progress found the cell empty, placed, or
      with several candidates that its peers all allow. */
  lemma RelaxCellQuiet(s: State, i: int, j: int)
    requires Shaped(s) && 0 <= i < 9 && 0 <= j < 9 && !RelaxCell(s, i, j).1
    ensures s.solution[i][j].None? ==> |s.cands[i][j]| != 1
    ensures s.solution[i][j].None? && |s.cands[i][j]| > 1 ==>
      s.cands[i][j] <= s.rowSets[i] && s.cands[i][j] <= s.colSets[j] &&
      s.cands[i][j] <= s.blockSets[BlockOf(i, j)]
  {
  }

  lemma RelaxCellKeepsValid(s: State, i: int, j: int)
    requires Valid(s) && 0 <= i < 9 && 0 <= j < 9
    ensures Valid(RelaxCell(s, i, j).0)
  {
    var c := s.cands[i][j];
    if |c| == 1 {
      AssignKeepsValid(s, i, j, Sole(c));
    } else if |c| > 1 && Allowed(s, i, j) != c {
      var a := Allowed(s, i, j);
      var t := s.(cands := s.cands[i := s.cands[i][j := a]]);
      assert t.solution == s.solution && t.rowSets == s.rowSets;
      assert t.colSets == s.colSets && t.blockSets == s.blockSets;
      assert Valid(t);
      if |a| == 1 {
        AssignKeepsValid(t, i, j, Sole(a));
      }
    }
  }

  /** A cell step never strikes the digit a solution z has at an open cell. */
  lemma RelaxCellSound(s: State, i: int, j: int, z: seq<seq<int>>)
    requires Valid(s) && 0 <= i < 9 && 0 <= j < 9
    ensures Sound(s, z) && IsSolutionGrid(z) ==> Sound(RelaxCell(s, i, j).0, z)
  {
    var c := s.cands[i][j];
    if Sound(s, z) && IsSolutionGrid(z) {
      if |c| == 1 {
        if s.solution[i][j].None? {
          assert z[i][j] in c;
          AssignSound(s, i, j, z);
        }
      } else if |c| > 1 && Allowed(s, i, j) != c {
        var a := Allowed(s, i, j);
        var t := s.(cands := s.cands[i := s.cands[i][j := a]]);
        assert Sound(t, z);
        if |a| == 1 && s.solution[i][j].None? {
          assert z[i][j] in a;
          AssignSound(t, i, j, z);
        }
      }
    }
  }

  // ---------------------------------------------------------------------
  // The sweep.

  /** The k-th cell of the row-major order is (k / 9, k % 9). */
  lemma CellOfIndex(i: int, j: int)
    requires 0 <= i < 9 && 0 <= j < 9
    ensures (9 * i + j) / 9 == i && (9 * i + j) % 9 == j
  {
    DivModOfSum(i, j, 9);
  }

  /** The sweep only strikes candidates and never replaces a placed digit;
      it reports progress exactly when some candidate set changed, and then
      the total candidate count drops; without progress nothing changed. */
  lemma {:induction false} RelaxUpToProgress(s: State, k: int)
    requires Shaped(s) && 0 <= k <= 81
    ensures var (t, f) := RelaxUpTo(s, k);
      Shrinks(s.cands, t.cands) && Extends(s.solution, t.solution) &&
      (f ==> Total(t.cands) < Total(s.cands)) &&
      (!f ==> t == s)
    decreases k
  {
    if k > 0 {
      RelaxUpToProgress(s, k - 1);
      var prev := RelaxUpTo(s, k - 1);
      var t := prev.0;
      RelaxCellProgress(t, (k - 1) / 9, (k - 1) % 9);
      var next := RelaxCell(t, (k - 1) / 9, (k - 1) % 9);
      var u := next.0;
      assert RelaxUpTo(s, k) == (u, prev.1 || next.1);
      TotalShrinks(s.cands, t.cands);
      TotalShrinks(t.cands, u.cands);
      ShrinksTrans(s.cands, t.cands, u.cands);
    }
  }

  /** relax_sets returns True exactly when it changed a candidate set (which
      every assignment does), and a False return means the state is
      untouched. */
  lemma RelaxFlag(s: State)
    requires Shaped(s)
    ensures Shrinks(s.cands, Relax(s).0.cands)
    ensures Extends(s.solution, Relax(s).0.solution)
    ensures Relax(s).1 <==> Relax(s).0.cands != s.cands
    ensures Relax(s).1 <==> Relax(s).0 != s
    ensures Relax(s).1 ==> Total(Relax(s).0.cands) < Total(s.cands)
  {
    RelaxUpToProgress(s, 81);
  }

  /** At a fixed point relaxation is idempotent: a pass that reports no
      progress leaves the state as it was, so a second pass reports none
      either. */
  lemma RelaxIdempotent(s: State)
    requires Shaped(s) && !Relax(s).1
    ensures Relax(s).0 == s
    ensures !Relax(Relax(s).0).1
  {
    RelaxUpToProgress(s, 81);
  }

  lemma {:induction false} RelaxUpToKeepsValid(s: State, k: int)
    requires Valid(s) && 0 <= k <= 81
    ensures Valid(RelaxUpTo(s, k).0)
    decreases k
  {
    if k > 0 {
      RelaxUpToKeepsValid(s, k - 1);
      var p := RelaxUpTo(s, k - 1).0;
      RelaxCellKeepsValid(p, (k - 1) / 9, (k - 1) % 9);
      assert RelaxUpTo(s, k).0 == RelaxCell(p, (k - 1) / 9, (k - 1) % 9).0;
    }
  }

  /** One sweep step seen from the start s of the sweep: a cell placed in s
      with at most one candidate is still placed in p with the same set, and
      the step, which assigns only open cells and narrows only cells with
      several candidates, leaves it as it was. */
  lemma RelaxCellKeepsPlaced(s: State, p: State, i: int, j: int)
    requires Shaped(s) && Shaped(p) && 0 <= i < 9 && 0 <= j < 9 && PlacedDecided(s)
    requires Extends(s.solution, p.solution) && PlacedKept(s.solution, s.cands, p.cands)
    ensures PlacedKept(s.solution, s.cands, RelaxCell(p, i, j).0.cands)
  {
    RelaxCellProgress(p, i, j);
  }

  /** The sweep leaves the candidate set of every cell placed before it as
      it was; in particular a given keeps its own digit. */
  lemma {:induction false} RelaxUpToKeepsPlaced(s: State, k: int)
    requires Shaped(s) && PlacedDecided(s) && 0 <= k <= 81
    ensures PlacedKept(s.solution, s.cands, RelaxUpTo(s, k).0.cands)
    decreases k
  {
    if k > 0 {
      var p := RelaxUpTo(s, k - 1).0;
      RelaxUpToKeepsPlaced(s, k - 1);
      assert Extends(s.solution, p.solution) by {
        RelaxUpToProgress(s, k - 1);
      }
      RelaxCellKeepsPlaced(s, p, (k - 1) / 9, (k - 1) % 9);
      assert RelaxUpTo(s, k).0 == RelaxCell(p, (k - 1) / 9, (k - 1) % 9).0;
    }
  }

  lemma {:induction false} RelaxUpToSound(s: State, k: int, z: seq<seq<int>>)
    requires Valid(s) && 0 <= k <= 81
    ensures Sound(s, z) && IsSolutionGrid(z) ==> Sound(RelaxUpTo(s, k).0, z)
    decreases k
  {
    if k > 0 {
      RelaxUpToSound(s, k - 1, z);
      RelaxUpToStepSound(s, k, z);
    }
  }

  /** The k-th cell step of the sweep keeps a solution possible. */
  lemma RelaxUpToStepSound(s: State, k: int, z: seq<seq<int>>)
    requires Valid(s) && 0 < k <= 81
    ensures Sound(RelaxUpTo(s, k - 1).0, z) && IsSolutionGrid(z) ==> Sound(RelaxUpTo(s, k).0, z)
  {
    RelaxUpToKeepsValid(s, k - 1);
    var p := RelaxUpTo(s, k - 1).0;
    RelaxCellSound(p, (k - 1) / 9, (k - 1) % 9, z);
    assert RelaxUpTo(s, k).0 == RelaxCell(p, (k - 1) / 9, (k - 1) % 9).0;
  }

  /** Relaxation keeps the solver invariant and never rules out a solution
      of the puzzle. */
  lemma RelaxSound(s: State, z: seq<seq<int>>)
    requires Valid(s)
    ensures Valid(Relax(s).0)
    ensures Sound(s, z) && IsSolutionGrid(z) ==> Sound(Relax(s).0, z)
  {
    RelaxUpToKeepsValid(s, 81);
    RelaxUpToSound(s, 81, z);
  }

  /** A sweep prefix without progress left every shorter prefix at the
      untouched state. */
  lemma {:induction false} RelaxUpToQuiet(s: State, k: int)
    requires Shaped(s) && 0 <= k <= 81 && !RelaxUpTo(s, k).1
    ensures forall n :: 0 <= n <= k ==> RelaxUpTo(s, n) == (s, false)
    decreases k
  {
    if k > 0 {
      RelaxUpToQuiet(s, k - 1);
      RelaxUpToProgress(s, k);
    }
  }

  /** A pass without progress leaves every open cell with either no
      candidate or several candidates, all of them allowed by its row,
      column and block: the state the hidden-single scan starts from. */
  lemma RelaxQuietSettled(s: State)
    requires Shaped(s) && !Relax(s).1
    ensures Settled(s)
    ensures forall i, j {:trigger s.solution[i][j]} ::
      0 <= i < 9 && 0 <= j < 9 && s.solution[i][j].None? ==> |s.cands[i][j]| != 1
  {
    RelaxUpToQuiet(s, 81);
    forall i, j {:trigger s.solution[i][j]} | 0 <= i < 9 && 0 <= j < 9 && s.solution[i][j].None?
      ensures |s.cands[i][j]| != 1
    {
      CellOfIndex(i, j);
      assert RelaxUpTo(s, 9 * i + j + 1) == (s, false);
      RelaxCellQuiet(s, i, j);
    }
    forall i, j {:trigger s.solution[i][j]} | 0 <= i < 9 && 0 <= j < 9 && s.solution[i][j].None? && |s.cands[i][j]| > 1
      ensures s.cands[i][j] <= s.rowSets[i] && s.cands[i][j] <= s.colSets[j] &&
        s.cands[i][j] <= s.blockSets[BlockOf(i, j)]
    {
      CellOfIndex(i, j);
      assert RelaxUpTo(s, 9 * i + j + 1) == (s, false);
      RelaxCellQuiet(s, i, j);
    }
  }
}
