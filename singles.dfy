/** Hidden-single scan (scan_for_singles): one row-major sweep that narrows a
    cell with several candidates to a single digit v when no other cell of
    its column, or else of its row, still has v as a candidate. Blocks are
    not scanned. The pass reads and writes the candidate grid only. */
module HiddenSingles {
  import opened Grid

  /** The two lines the scan looks along, in the order it tries them. */
  datatype Line = InColumn | InRow

  /** No cell of the line through (i, j) other than (i, j) itself still has
      v as a candidate. */
  ghost predicate HiddenIn(g: seq<seq<set<int>>>, i: int, j: int, v: int, line: Line)
    requires Square(g) && 0 <= i < 9 && 0 <= j < 9
  {
    match line
    case InColumn => forall a :: 0 <= a < 9 && a != i ==> v !in g[a][j]
    case InRow => forall a :: 0 <= a < 9 && a != j ==> v !in g[i][a]
  }

  /** The least digit v with d <= v <= 9 that is a candidate of (i, j) and
      hidden in the line, if there is one: the candidates are visited in
      ascending order and the first hidden one wins. */
  ghost function FirstHidden(g: seq<seq<set<int>>>, i: int, j: int, line: Line, d: int): (r: Option<int>)
    requires Square(g) && 0 <= i < 9 && 0 <= j < 9 && 1 <= d <= 10
    ensures r.Some? ==> d <= r.value <= 9 && r.value in g[i][j] && HiddenIn(g, i, j, r.value, line)
    ensures forall v :: d <= v <= 9 && v in g[i][j] && (r.None? || v < r.value) ==> !HiddenIn(g, i, j, v, line)
    decreases 10 - d
  {
    if d == 10 then None
    else if d in g[i][j] && HiddenIn(g, i, j, d, line) then Some(d)
    else FirstHidden(g, i, j, line, d + 1)
  }

  /** What the scan does at (i, j): a cell with at most one candidate is
      skipped; otherwise the first candidate hidden in the column wins, and
      only when there is none is the row tried. */
  ghost function SinglesCell(g: seq<seq<set<int>>>, i: int, j: int): (res: (seq<seq<set<int>>>, bool))
    requires Square(g) && 0 <= i < 9 && 0 <= j < 9
    ensures Square(res.0)
  {
    if |g[i][j]| <= 1 then (g, false)
    else
      match FirstHidden(g, i, j, InColumn, 1)
      case Some(v) => (g[i := g[i][j := {v}]], true)
      case None =>
        match FirstHidden(g, i, j, InRow, 1)
        case Some(v) => (g[i := g[i][j := {v}]], true)
        case None => (g, false)
  }

  /** The candidate grid and accumulated flag after the scan has visited the
      first k cells in row-major order; later cells see the narrowings of
      earlier ones. */
  ghost function SinglesUpTo(g: seq<seq<set<int>>>, k: int): (res: (seq<seq<set<int>>>, bool))
    requires Square(g) && 0 <= k <= 81
    ensures Square(res.0)
    decreases k
  {
    if k == 0 then (g, false)
    else
      var prev := SinglesUpTo(g, k - 1);
      var next := SinglesCell(prev.0, (k - 1) / 9, (k - 1) % 9);
      (next.0, prev.1 || next.1)
  }

  /** h and the flag f are where the scan from g stands after k cells. */
  ghost predicate ScanReached(g: seq<seq<set<int>>>, k: int, h: seq<seq<set<int>>>, f: bool)
  {
    Square(g) && 0 <= k <= 81 && (h, f) == SinglesUpTo(g, k)
  }

  /** scan_for_singles: the whole sweep. */
  ghost function Singles(g: seq<seq<set<int>>>): (seq<seq<set<int>>>, bool)
    requires Square(g)
  {
    SinglesUpTo(g, 81)
  }

  // ---------------------------------------------------------------------
  // One cell.

  /** The search finds a digit exactly when some candidate in range is
      hidden in the line. */
  lemma {:induction false} FirstHiddenFinds(g: seq<seq<set<int>>>, i: int, j: int, line: Line, d: int)
    requires Square(g) && 0 <= i < 9 && 0 <= j < 9 && 1 <= d <= 10
    ensures FirstHidden(g, i, j, line, d).Some? <==>
      exists v :: d <= v <= 9 && v in g[i][j] && HiddenIn(g, i, j, v, line)
  {
    var r := FirstHidden(g, i, j, line, d);
    if r.Some? {
      assert r.value in g[i][j] && HiddenIn(g, i, j, r.value, line);
    }
  }

  /** The scan at (i, j) narrows a cell with several candidates to the least
      candidate hidden in its column, or, when there is none, to the least
      candidate hidden in its row; when neither line has one, or the cell
      has at most one candidate, nothing changes. No other cell changes. */
  lemma {:induction false} SinglesCellEffect(g: seq<seq<set<int>>>, i: int, j: int)
    requires Square(g) && 0 <= i < 9 && 0 <= j < 9
    ensures var (h, f) := SinglesCell(g, i, j);
      var col := FirstHidden(g, i, j, InColumn, 1);
      var row := FirstHidden(g, i, j, InRow, 1);
      (forall k, l :: 0 <= k < 9 && 0 <= l < 9 && (k != i || l != j) ==> h[k][l] == g[k][l]) &&
      (|g[i][j]| <= 1 ==> !f) &&
      (|g[i][j]| > 1 && col.Some? ==> f && h[i][j] == {col.value}) &&
      (|g[i][j]| > 1 && col.None? && row.Some? ==> f && h[i][j] == {row.value}) &&
      (|g[i][j]| > 1 && col.None? && row.None? ==> !f) &&
      (!f ==> h == g)
  {
  }

  /** A cell step only narrows (i, j), and reports progress exactly when it
      changed it: a cell with several candidates never equals a singleton. */
  lemma SinglesCellProgress(g: seq<seq<set<int>>>, i: int, j: int)
    requires Square(g) && 0 <= i < 9 && 0 <= j < 9
    ensures var (h, f) := SinglesCell(g, i, j);
      Shrinks(g, h) && (f <==> h != g) &&
      (f ==> |g[i][j]| > 1 && |h[i][j]| == 1)
  {
    var (h, f) := SinglesCell(g, i, j);
    if f {
      var v :| v in g[i][j] && h == g[i := g[i][j := {v}]];
      assert |{v}| == 1;
      assert h[i][j] != g[i][j];
    }
  }

  /** A digit that is a hidden single of an open cell is the digit every
      solution z that the state has not ruled out puts there: z has the
      digit somewhere in the line, and no other cell of the line can hold
      it (an open one lacks it as candidate, a placed one took it out of
      the line's peer set, which the open cell's candidates lie within). */
  lemma HiddenIsSolution(s: State, z: seq<seq<int>>, i: int, j: int, v: int, line: Line)
    requires Valid(s) && Settled(s) && Sound(s, z) && IsSolutionGrid(z)
    requires 0 <= i < 9 && 0 <= j < 9 && |s.cands[i][j]| > 1
    requires v in s.cands[i][j] && HiddenIn(s.cands, i, j, v, line)
    ensures s.solution[i][j].None? && z[i][j] == v
  {
    if s.solution[i][j].Some? {
      assert s.cands[i][j] <= {s.solution[i][j].value};
      SubsetCard(s.cands[i][j], {s.solution[i][j].value});
      assert false;
    }
    match line
    case InColumn =>
      forall a | 0 <= a < 9 && a != i
        ensures z[a][j] != v
      {
        if s.solution[a][j].Some? {
          assert s.solution[a][j].value !in s.colSets[j];
        } else {
          assert z[a][j] in s.cands[a][j];
        }
      }
      assert v in ColumnOf(z, j);
    case InRow =>
      forall a | 0 <= a < 9 && a != j
        ensures z[i][a] != v
      {
        if s.solution[i][a].Some? {
          assert s.solution[i][a].value !in s.rowSets[i];
        } else {
          assert z[i][a] in s.cands[i][a];
        }
      }
      assert v in RowOf(z, i);
  }

  /** A cell step keeps the solver invariant and the peer-bounded shape that
      a quiet relaxation pass left, and never rules out a solution. */
  lemma SinglesCellSound(s: State, i: int, j: int, z: seq<seq<int>>)
    requires Valid(s) && Settled(s) && 0 <= i < 9 && 0 <= j < 9
    ensures var t := s.(cands := SinglesCell(s.cands, i, j).0);
      Valid(t) && Settled(t) &&
      (Sound(s, z) && IsSolutionGrid(z) ==> Sound(t, z))
  {
    var (h, f) := SinglesCell(s.cands, i, j);
    SinglesCellProgress(s.cands, i, j);
    SinglesCellEffect(s.cands, i, j);
    NarrowKeepsValid(s, h);
    if f && Sound(s, z) && IsSolutionGrid(z) {
      var col := FirstHidden(s.cands, i, j, InColumn, 1);
      var row := FirstHidden(s.cands, i, j, InRow, 1);
      if col.Some? {
        HiddenIsSolution(s, z, i, j, col.value, InColumn);
      } else {
        HiddenIsSolution(s, z, i, j, row.value, InRow);
      }
      var t := s.(cands := h);
      assert z[i][j] in t.cands[i][j];
    }
  }

  // ---------------------------------------------------------------------
  // The sweep.

  lemma {:induction false} SinglesUpToProgress(g: seq<seq<set<int>>>, k: int)
    requires Square(g) && 0 <= k <= 81
    ensures var (h, f) := SinglesUpTo(g, k);
      Shrinks(g, h) && (f ==> Total(h) < Total(g)) && (!f ==> h == g)
    decreases k
  {
    if k > 0 {
      SinglesUpToProgress(g, k - 1);
      var prev := SinglesUpTo(g, k - 1);
      var h := prev.0;
      SinglesCellProgress(h, (k - 1) / 9, (k - 1) % 9);
      var next := SinglesCell(h, (k - 1) / 9, (k - 1) % 9);
      var u := next.0;
      assert SinglesUpTo(g, k) == (u, prev.1 || next.1);
      TotalShrinks(g, h);
      TotalShrinks(h, u);
      ShrinksTrans(g, h, u);
    }
  }

  /** Cells with at most one candidate in g hold the same set in h. */
  ghost predicate DecidedKept(g: seq<seq<set<int>>>, h: seq<seq<set<int>>>)
    requires Square(g) && Square(h)
  {
    forall i, j :: 0 <= i < 9 && 0 <= j < 9 && |g[i][j]| <= 1 ==> h[i][j] == g[i][j]
  }

  /** The scan skips every cell that has at most one candidate, so such a
      cell's set survives the whole sweep. */
  lemma {:induction false} SinglesUpToKeepsDecided(g: seq<seq<set<int>>>, k: int)
    requires Square(g) && 0 <= k <= 81
    ensures DecidedKept(g, SinglesUpTo(g, k).0)
    decreases k
  {
    if k > 0 {
      SinglesUpToKeepsDecided(g, k - 1);
      var h := SinglesUpTo(g, k - 1).0;
      SinglesCellEffect(h, (k - 1) / 9, (k - 1) % 9);
      assert SinglesUpTo(g, k).0 == SinglesCell(h, (k - 1) / 9, (k - 1) % 9).0;
    }
  }

  /** scan_for_singles returns True exactly when it narrowed some cell; it
      only ever narrows, so the candidate count then drops; a False return
      leaves the grid as it was. */
  lemma {:induction false} SinglesFlag(g: seq<seq<set<int>>>)
    requires Square(g)
    ensures Shrinks(g, Singles(g).0)
    ensures Singles(g).1 <==> Singles(g).0 != g
    ensures Singles(g).1 ==> Total(Singles(g).0) < Total(g)
  {
    SinglesUpToProgress(g, 81);
  }

  lemma {:induction false} SinglesUpToSound(s: State, k: int, z: seq<seq<int>>)
    requires Valid(s) && Settled(s) && 0 <= k <= 81
    ensures var t := s.(cands := SinglesUpTo(s.cands, k).0);
      Valid(t) && Settled(t) &&
      (Sound(s, z) && IsSolutionGrid(z) ==> Sound(t, z))
    decreases k
  {
    if k > 0 {
      SinglesUpToSound(s, k - 1, z);
      var t := s.(cands := SinglesUpTo(s.cands, k - 1).0);
      SinglesCellSound(t, (k - 1) / 9, (k - 1) % 9, z);
      assert SinglesUpTo(s.cands, k).0 == SinglesCell(t.cands, (k - 1) / 9, (k - 1) % 9).0;
    }
  }

  /** On a state a quiet relaxation pass left, the scan keeps the solver
      invariant, changes only candidate sets, and never rules out a solution
      of the puzzle. */
  lemma SinglesSound(s: State, z: seq<seq<int>>)
    requires Valid(s) && Settled(s)
    ensures var t := s.(cands := Singles(s.cands).0);
      Valid(t) && Settled(t) &&
      (Sound(s, z) && IsSolutionGrid(z) ==> Sound(t, z))
  {
    SinglesUpToSound(s, 81, z);
  }
}
