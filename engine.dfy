/** The solver as the source runs it: the five structures of solve are the
    fields of a Solver, and each pass updates them in place. Every method is
    tied to the function over State that specifies it, so that what is
    proved about the functions holds of the methods. */
module Engine {
  import opened Blocks
  import opened Grid
  import opened Assignment
  import opened Relaxation
  import opened HiddenSingles
  import opened NakedSubsets
  import opened PairScan
  import opened Driver

  /** No cell of the line through (i, j) before position a, other than
      (i, j) itself, has v as a candidate. */
  ghost predicate ClearBelow(g: seq<seq<set<int>>>, i: int, j: int, v: int, line: Line, a: int)
    requires Square(g) && 0 <= i < 9 && 0 <= j < 9 && 0 <= a <= 9
  {
    match line
    case InColumn => forall b :: 0 <= b < a && b != i ==> v !in g[b][j]
    case InRow => forall b :: 0 <= b < a && b != j ==> v !in g[i][b]
  }

  /** ClearBelow grows by one position at a time. */
  lemma ClearBelowStep(g: seq<seq<set<int>>>, i: int, j: int, v: int, line: Line, a: int)
    requires Square(g) && 0 <= i < 9 && 0 <= j < 9 && 0 <= a < 9
    ensures ClearBelow(g, i, j, v, line, a + 1) <==>
      ClearBelow(g, i, j, v, line, a) &&
      !((if line == InColumn then a != i else a != j) && v in (if line == InColumn then g[a][j] else g[i][a]))
  {
  }

  /** h agrees with g except that column c is col. */
  lemma ColumnWritten(g: seq<seq<set<int>>>, h: seq<seq<set<int>>>, c: int, col: seq<set<int>>)
    requires Square(g) && Square(h) && 0 <= c < 9 && |col| == 9
    requires forall a, b :: 0 <= a < 9 && 0 <= b < 9 ==> h[a][b] == if b == c then col[a] else g[a][b]
    ensures h == WriteColumn(g, c, col)
  {
    var w := WriteColumn(g, c, col);
    forall a | 0 <= a < 9
      ensures h[a] == w[a]
    {
      assert forall b :: 0 <= b < 9 ==> h[a][b] == w[a][b];
    }
  }

  /** One more cell of the row-major sweeps: cell (i, j) is the k-th,
      k = 9 * i + j. */
  lemma SeedStep(grid: seq<seq<Option<int>>>, i: int, j: int, k: int)
    requires Square(grid) && 0 <= i < 9 && 0 <= j < 9 && k == 9 * i + j
    ensures SeedUpTo(grid, k + 1) == SeedCell(SeedUpTo(grid, k), grid, i, j)
  {
    CellOfIndex(i, j);
  }

  lemma RelaxStep(s0: State, i: int, j: int, k: int)
    requires Shaped(s0) && 0 <= i < 9 && 0 <= j < 9 && k == 9 * i + j
    ensures var prev := RelaxUpTo(s0, k); var next := RelaxCell(prev.0, i, j);
      RelaxUpTo(s0, k + 1) == (next.0, prev.1 || next.1)
  {
    CellOfIndex(i, j);
  }

  lemma SinglesStep(g0: seq<seq<set<int>>>, i: int, j: int, k: int)
    requires Square(g0) && 0 <= i < 9 && 0 <= j < 9 && k == 9 * i + j
    ensures var prev := SinglesUpTo(g0, k); var next := SinglesCell(prev.0, i, j);
      SinglesUpTo(g0, k + 1) == (next.0, prev.1 || next.1)
  {
    CellOfIndex(i, j);
  }

  class Solver {
    var solution: seq<seq<Option<int>>>
    var cands: seq<seq<set<int>>>
    var rowSets: seq<set<int>>
    var colSets: seq<set<int>>
    var blockSets: seq<set<int>>

    /** The fields as one State value. */
    ghost function Abs(): State
      reads this
    {
      State(solution, cands, rowSets, colSets, blockSets)
    }

    /** The fields are the state after the first k cells of the puzzle are
        seeded. */
    ghost predicate SeededTo(grid: seq<seq<Option<int>>>, k: int)
      reads this
    {
      SeedReached(grid, k, Abs())
    }

    /** The fields and the flag are those after the relaxation sweep from s0
        has visited the first k cells. */
    ghost predicate RelaxedTo(s0: State, k: int, changed: bool)
      reads this
    {
      RelaxReached(s0, k, Abs(), changed)
    }

    /** The candidate grid and the flag are those after the hidden-single scan
        from g0 has visited the first k cells. */
    ghost predicate ScannedTo(g0: seq<seq<set<int>>>, k: int, changed: bool)
      reads this
    {
      ScanReached(g0, k, cands, changed)
    }

    /** The set-up part of solve: the solution starts as the puzzle, every
        set as 1-9, and each given c becomes its cell's only candidate and is
        removed from its row, column and block sets (the removal of an absent
        digit would raise in the source; distinct givens rule it out). */
    constructor (grid: seq<seq<Option<int>>>)
      requires WellFormedGrid(grid) && GivensDistinct(grid)
      ensures Abs() == Seed(grid)
    {
      solution := grid;
      cands := seq(9, i => seq(9, j => Digits));
      rowSets := seq(9, i => Digits);
      colSets := seq(9, j => Digits);
      blockSets := seq(9, b => Digits);
      new;
      var i := 0;
      while i < 9
        invariant 0 <= i <= 9
        invariant SeededTo(grid, 9 * i)
      {
        SeedRow(grid, i);
        i := i + 1;
      }
    }

    /** The set-up steps for row i of the puzzle. */
    method SeedRow(grid: seq<seq<Option<int>>>, i: int)
      requires WellFormedGrid(grid) && GivensDistinct(grid) && 0 <= i < 9
      requires SeededTo(grid, 9 * i)
      modifies this
      ensures SeededTo(grid, 9 * i + 9)
    {
      var j := 0;
      ghost var k := 9 * i;
      while j < 9
        invariant 0 <= j <= 9 && k == 9 * i + j
        invariant SeededTo(grid, k)
      {
        SeedVisit(grid, i, j, k);
        j, k := j + 1, k + 1;
      }
    }

    /** Cell (i, j) of the set-up loop, as the k-th seeding step, k = 9 * i + j. */
    method SeedVisit(grid: seq<seq<Option<int>>>, i: int, j: int, ghost k: int)
      requires WellFormedGrid(grid) && GivensDistinct(grid) && 0 <= i < 9 && 0 <= j < 9
      requires k == 9 * i + j && SeededTo(grid, k)
      modifies this
      ensures SeededTo(grid, k + 1)
    {
      SeedStep(grid, i, j, k);
      if grid[i][j].Some? {
        SeedRemovable(grid, i, j, k);
      }
      SeedGiven(grid, i, j);
    }

    /** The set-up step for cell (i, j) of the puzzle; a given must still be
        in its row, column and block sets, since removing an absent digit
        raises in the source. */
    method SeedGiven(grid: seq<seq<Option<int>>>, i: int, j: int)
      requires Square(grid) && Shaped(Abs()) && 0 <= i < 9 && 0 <= j < 9
      requires grid[i][j].Some? ==> var c := grid[i][j].value;
        c in rowSets[i] && c in colSets[j] && c in blockSets[BlockOf(i, j)]
      modifies this
      ensures Abs() == SeedCell(old(Abs()), grid, i, j)
    {
      match grid[i][j]
      case None =>
      case Some(c) =>
        var b := BlockOf(i, j);
        cands := cands[i := cands[i][j := {c}]];
        rowSets := rowSets[i := rowSets[i] - {c}];
        colSets := colSets[j := colSets[j] - {c}];
        blockSets := blockSets[b := blockSets[b] - {c}];
    }

    /** remove_element(i, j, r). The source's second guard compares an open
        cell with the digit r; it is never true and is left out. */
    method RemoveElement(i: int, j: int, r: int) returns (placed: bool)
      requires Shaped(Abs()) && 0 <= i < 9 && 0 <= j < 9
      modifies this
      ensures (Abs(), placed) == Assign(old(Abs()), i, j, r)
    {
      if solution[i][j].Some? {
        return false;
      }
      var b := BlockOf(i, j);
      var cell, row, col, block := cands[i][j], rowSets[i], colSets[j], blockSets[b];
      if r in cell {
        cell := cell - {r};
      }
      if r in row {
        row := row - {r};
      }
      if r in col {
        col := col - {r};
      }
      if r in block {
        block := block - {r};
      }
      assert cell == cands[i][j] - {r} && row == rowSets[i] - {r};
      assert col == colSets[j] - {r} && block == blockSets[b] - {r};
      solution := solution[i := solution[i][j := Some(r)]];
      cands := cands[i := cands[i][j := cell]];
      rowSets := rowSets[i := row];
      colSets := colSets[j := col];
      blockSets := blockSets[b := block];
      placed := true;
    }

    /** The member of a one-element candidate set (list(c)[0]). */
    method Only(c: set<int>) returns (r: int)
      requires |c| == 1
      ensures r == Sole(c) && c == {r}
    {
      HasMember(c);
      r :| r in c;
      OneMember(c, r);
    }

    /** relax_sets. */
    method RelaxSets() returns (changed: bool)
      requires Shaped(Abs())
      modifies this
      ensures (Abs(), changed) == Relax(old(Abs()))
    {
      ghost var s0 := Abs();
      changed := false;
      var i := 0;
      while i < 9
        invariant 0 <= i <= 9
        invariant RelaxedTo(s0, 9 * i, changed)
      {
        changed := RelaxRow(s0, i, changed);
        i := i + 1;
      }
    }

    /** The sweep of relax_sets over row i. */
    method RelaxRow(ghost s0: State, i: int, changed0: bool) returns (changed: bool)
      requires 0 <= i < 9 && RelaxedTo(s0, 9 * i, changed0)
      modifies this
      ensures RelaxedTo(s0, 9 * i + 9, changed)
    {
      changed := changed0;
      var j := 0;
      ghost var k := 9 * i;
      while j < 9
        invariant 0 <= j <= 9 && k == 9 * i + j
        invariant RelaxedTo(s0, k, changed)
      {
        changed := RelaxVisit(s0, i, j, k, changed);
        j, k := j + 1, k + 1;
      }
    }

    /** Cell (i, j) of relax_sets, as the k-th step of the sweep, k = 9 * i + j. */
    method RelaxVisit(ghost s0: State, i: int, j: int, ghost k: int, changed0: bool) returns (changed: bool)
      requires 0 <= i < 9 && 0 <= j < 9 && k == 9 * i + j && RelaxedTo(s0, k, changed0)
      modifies this
      ensures RelaxedTo(s0, k + 1, changed)
    {
      var f := RelaxCellAt(i, j);
      RelaxStep(s0, i, j, k);
      changed := changed0 || f;
    }

    /** The body of relax_sets for cell (i, j). */
    method RelaxCellAt(i: int, j: int) returns (changed: bool)
      requires Shaped(Abs()) && 0 <= i < 9 && 0 <= j < 9
      modifies this
      ensures (Abs(), changed) == RelaxCell(old(Abs()), i, j)
    {
      var c := cands[i][j];
      changed := false;
      if |c| == 1 {
        var r := Only(c);
        changed := RemoveElement(i, j, r);
      } else if |c| > 1 {
        var a := c * rowSets[i];
        a := a * colSets[j];
        a := a * blockSets[BlockOf(i, j)];
        if a != c {
          changed := true;
          cands := cands[i := cands[i][j := a]];
          if |a| == 1 {
            var r := Only(a);
            var _ := RemoveElement(i, j, r);
          }
        }
      }
    }

    /** The counting loop of scan_for_singles: how many cells of the line
        through (i, j), other than (i, j), have v as a candidate; none
        exactly when v is hidden there. */
    method CountElsewhere(i: int, j: int, v: int, line: Line) returns (count: int)
      requires Square(cands) && 0 <= i < 9 && 0 <= j < 9
      ensures count >= 0
      ensures count == 0 <==> HiddenIn(cands, i, j, v, line)
    {
      count := 0;
      var a := 0;
      while a < 9
        invariant 0 <= a <= 9 && count >= 0
        invariant count == 0 <==> ClearBelow(cands, i, j, v, line, a)
      {
        ClearBelowStep(cands, i, j, v, line, a);
        var other := if line == InColumn then a != i else a != j;
        var cell := if line == InColumn then cands[a][j] else cands[i][a];
        if other && v in cell {
          count := count + 1;
        }
        a := a + 1;
      }
    }

    /** One scan of scan_for_singles at (i, j): the least candidate of the
        cell that no other cell of the line has as a candidate. */
    method FindSingle(i: int, j: int, line: Line) returns (r: Option<int>)
      requires Square(cands) && 0 <= i < 9 && 0 <= j < 9
      ensures r == FirstHidden(cands, i, j, line, 1)
    {
      var v := 1;
      while v <= 9
        invariant 1 <= v <= 10
        invariant FirstHidden(cands, i, j, line, 1) == FirstHidden(cands, i, j, line, v)
      {
        if v in cands[i][j] {
          var count := CountElsewhere(i, j, v, line);
          if count == 0 {
            return Some(v);
          }
        }
        v := v + 1;
      }
      return None;
    }

    /** scan_for_singles: only the candidate grid changes. */
    method ScanForSingles() returns (changed: bool)
      requires Square(cands)
      modifies this`cands
      ensures (cands, changed) == Singles(old(cands))
    {
      ghost var g0 := cands;
      changed := false;
      var i := 0;
      while i < 9
        invariant 0 <= i <= 9
        invariant ScannedTo(g0, 9 * i, changed)
      {
        changed := SinglesRow(g0, i, changed);
        i := i + 1;
      }
    }

    /** The scan of scan_for_singles over row i. */
    method SinglesRow(ghost g0: seq<seq<set<int>>>, i: int, changed0: bool) returns (changed: bool)
      requires 0 <= i < 9 && ScannedTo(g0, 9 * i, changed0)
      modifies this`cands
      ensures ScannedTo(g0, 9 * i + 9, changed)
    {
      changed := changed0;
      var j := 0;
      ghost var k := 9 * i;
      while j < 9
        invariant 0 <= j <= 9 && k == 9 * i + j
        invariant ScannedTo(g0, k, changed)
      {
        changed := SinglesVisit(g0, i, j, k, changed);
        j, k := j + 1, k + 1;
      }
    }

    /** Cell (i, j) of scan_for_singles, as the k-th step, k = 9 * i + j. */
    method SinglesVisit(ghost g0: seq<seq<set<int>>>, i: int, j: int, ghost k: int, changed0: bool) returns (changed: bool)
      requires 0 <= i < 9 && 0 <= j < 9 && k == 9 * i + j && ScannedTo(g0, k, changed0)
      modifies this`cands
      ensures ScannedTo(g0, k + 1, changed)
    {
      var f := SinglesCellAt(i, j);
      SinglesStep(g0, i, j, k);
      changed := changed0 || f;
    }

    /** The body of scan_for_singles for cell (i, j): the column scan, then,
        when it found nothing, the row scan. */
    method SinglesCellAt(i: int, j: int) returns (changed: bool)
      requires Square(cands) && 0 <= i < 9 && 0 <= j < 9
      modifies this`cands
      ensures (cands, changed) == SinglesCell(old(cands), i, j)
    {
      changed := false;
      if |cands[i][j]| > 1 {
        var v := FindSingle(i, j, InColumn);
        if v.Some? {
          cands := cands[i := cands[i][j := {v.value}]];
          changed := true;
        } else {
          var w := FindSingle(i, j, InRow);
          if w.Some? {
            cands := cands[i := cands[i][j := {w.value}]];
            changed := true;
          }
        }
      }
    }

    /** union_pair_scan_rows: each row is scanned and stored back; the
        first row that made progress ends the scan. */
    method UnionPairScanRows() returns (changed: bool)
      requires Square(solution) && Square(cands)
      modifies this`cands
      ensures (cands, changed) == UnionRowsFrom(solution, old(cands), 0)
    {
      ghost var g0 := cands;
      var r := 0;
      while r < 9
        invariant 0 <= r <= 9 && Square(cands)
        invariant UnionRowsFrom(solution, g0, 0) == UnionRowsFrom(solution, cands, r)
      {
        var row, f := UnionPairScanVector(solution[r], cands[r]);
        cands := cands[r := row];
        if f {
          return true;
        }
        r := r + 1;
      }
      return false;
    }

    /** union_pair_scan_cols: each column is copied out and scanned; only a
        column that made progress is written back, which ends the scan. */
    method UnionPairScanCols() returns (changed: bool)
      requires Square(solution) && Square(cands)
      modifies this`cands
      ensures (cands, changed) == UnionColsFrom(solution, old(cands), 0)
    {
      var c := 0;
      while c < 9
        invariant 0 <= c <= 9
        invariant cands == old(cands)
        invariant UnionColsFrom(solution, cands, 0) == UnionColsFrom(solution, cands, c)
      {
        var column, f := UnionPairScanVector(Column(solution, c), Column(cands, c));
        if f {
          ghost var g0 := cands;
          var idx := 0;
          while idx < 9
            invariant 0 <= idx <= 9 && Square(cands)
            invariant forall a, b :: 0 <= a < 9 && 0 <= b < 9 ==>
              cands[a][b] == if b == c && a < idx then column[a] else g0[a][b]
          {
            cands := cands[idx := cands[idx][c := column[idx]]];
            idx := idx + 1;
          }
          ColumnWritten(g0, cands, c, column);
          return true;
        }
        c := c + 1;
      }
      return false;
    }

    /** union_pair_scan: rows first, then columns. */
    method UnionPairScan() returns (changed: bool)
      requires Square(solution) && Square(cands)
      modifies this`cands
      ensures (cands, changed) == UnionScan(solution, old(cands))
    {
      changed := UnionPairScanRows();
      if !changed {
        changed := UnionPairScanCols();
      }
    }

    /** check_elements. */
    method CheckElements() returns (done: bool)
      requires Square(cands)
      ensures done == AllDecided(cands)
    {
      var i := 0;
      while i < 9
        invariant 0 <= i <= 9
        invariant forall a, b :: 0 <= a < i && 0 <= b < 9 ==> |cands[a][b]| <= 1
      {
        var j := 0;
        while j < 9
          invariant 0 <= j <= 9
          invariant forall a, b :: (0 <= a < i && 0 <= b < 9) || (a == i && 0 <= b < j) ==> |cands[a][b]| <= 1
        {
          if |cands[i][j]| > 1 {
            return false;
          }
          j := j + 1;
        }
        i := i + 1;
      }
      return true;
    }

    /** The loop of solve: it runs while some set has several candidates and
        the last iteration made progress; an iteration tries relaxation, then
        the hidden-single scan, then the naked-subset scan, each only when the
        one before made no progress. */
    method Run()
      requires Valid(Abs())
      modifies this
      ensures Abs() == Fix(old(Abs()))
    {
      ghost var s0 := Abs();
      var changed := true;
      var done := CheckElements();
      while !done && changed
        invariant Valid(Abs())
        invariant done == AllDecided(cands)
        invariant changed ==> Fix(Abs()) == Fix(s0)
        invariant !changed ==> Abs() == Fix(s0)
        decreases Total(cands), if changed then 1 else 0
      {
        ghost var before := Abs();
        IterateProgress(before);
        changed := Step();
        done := CheckElements();
      }
    }

    /** One iteration of the loop of solve. */
    method Step() returns (changed: bool)
      requires Valid(Abs())
      modifies this
      ensures (Abs(), changed) == Iterate(old(Abs()))
    {
      changed := RelaxSets();
      if !changed {
        SinglesFlag(cands);
        changed := ScanForSingles();
        if !changed {
          changed := UnionPairScan();
        }
      }
    }
  }

  /** solve(grid): the solution grid the loop stops at. Every given is kept,
      and every digit placed agrees with every solution of the puzzle. */
  method Solve(grid: seq<seq<Option<int>>>) returns (solution: seq<seq<Option<int>>>)
    requires WellFormedGrid(grid) && GivensDistinct(grid)
    ensures Valid(Seed(grid)) && solution == Fix(Seed(grid)).solution && Square(solution)
    ensures forall i, j :: 0 <= i < 9 && 0 <= j < 9 && grid[i][j].Some? ==> solution[i][j] == grid[i][j]
    ensures forall z :: IsCompletion(grid, z) ==>
      forall i, j :: 0 <= i < 9 && 0 <= j < 9 && solution[i][j].Some? ==> solution[i][j].value == z[i][j]
  {
    SeedValid(grid);
    var s := new Solver(grid);
    s.Run();
    solution := s.solution;
    SolveCorrect(grid);
  }
}
