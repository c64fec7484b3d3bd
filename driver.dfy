/** The driver (solve): seeding the state from the puzzle, the completion
    test (check_elements), one iteration of the loop, and the state the
    loop stops at. */
module Driver {
  import opened Blocks
  import opened Grid
  import opened Relaxation
  import opened HiddenSingles
  import opened NakedSubsets

  // ---------------------------------------------------------------------
  // The puzzle.

  /** A parsed puzzle: 9x9, every entry a blank (None) or a digit 1-9. */
  ghost predicate WellFormedGrid(grid: seq<seq<Option<int>>>)
  {
    Square(grid) &&
    forall i, j :: 0 <= i < 9 && 0 <= j < 9 && grid[i][j].Some? ==> grid[i][j].value in Digits
  }

  /** No digit is given twice in a row, a column or a block. */
  ghost predicate GivensDistinct(grid: seq<seq<Option<int>>>)
    requires Square(grid)
  {
    forall i, j, k, l ::
      (0 <= i < 9 && 0 <= j < 9 && 0 <= k < 9 && 0 <= l < 9 && (i != k || j != l) &&
       grid[i][j].Some? && grid[k][l].Some? &&
       (i == k || j == l || BlockOf(i, j) == BlockOf(k, l))) ==>
      grid[i][j].value != grid[k][l].value
  }

  /** z is a solution of the puzzle: a solved Sudoku that keeps every given. */
  ghost predicate IsCompletion(grid: seq<seq<Option<int>>>, z: seq<seq<int>>)
  {
    Square(grid) && IsSolutionGrid(z) &&
    forall i, j :: 0 <= i < 9 && 0 <= j < 9 && grid[i][j].Some? ==> grid[i][j].value == z[i][j]
  }

  // ---------------------------------------------------------------------
  // Seeding.

  /** The state before any given is processed: the solution is a copy of the
      puzzle, every candidate set and every peer set holds 1-9. */
  ghost function Fresh(grid: seq<seq<Option<int>>>): (s: State)
    requires Square(grid)
    ensures Shaped(s)
  {
    State(grid,
          seq(9, i => seq(9, j => Digits)),
          seq(9, i => Digits), seq(9, j => Digits), seq(9, b => Digits))
  }

  /** Processing cell (i, j) of the puzzle: a given c becomes the cell's only
      candidate and leaves the cell's row, column and block sets. */
  ghost function SeedCell(s: State, grid: seq<seq<Option<int>>>, i: int, j: int): (t: State)
    requires Shaped(s) && Square(grid) && 0 <= i < 9 && 0 <= j < 9
    ensures Shaped(t)
  {
    match grid[i][j]
    case None => s
    case Some(c) =>
      var b := BlockOf(i, j);
      s.(cands := s.cands[i := s.cands[i][j := {c}]],
         rowSets := s.rowSets[i := s.rowSets[i] - {c}],
         colSets := s.colSets[j := s.colSets[j] - {c}],
         blockSets := s.blockSets[b := s.blockSets[b] - {c}])
  }

  /** The state after the first k cells, in row-major order, are seeded. */
  ghost function SeedUpTo(grid: seq<seq<Option<int>>>, k: int): (s: State)
    requires Square(grid) && 0 <= k <= 81
    ensures Shaped(s)
    decreases k
  {
    if k == 0 then Fresh(grid)
    else SeedCell(SeedUpTo(grid, k - 1), grid, (k - 1) / 9, (k - 1) % 9)
  }

  /** s is the state after the first k cells of the puzzle are seeded. */
  ghost predicate SeedReached(grid: seq<seq<Option<int>>>, k: int, s: State)
  {
    Square(grid) && 0 <= k <= 81 && s == SeedUpTo(grid, k)
  }

  /** The state solve starts its loop from. */
  ghost function Seed(grid: seq<seq<Option<int>>>): State
    requires Square(grid)
  {
    SeedUpTo(grid, 81)
  }

  /** The digits given in row r, column c and block b among the first k
      cells. */
  ghost function RowGivensBefore(grid: seq<seq<Option<int>>>, r: int, k: int): set<int>
    requires Square(grid) && 0 <= r < 9
  {
    set j | 0 <= j < 9 && 9 * r + j < k && grid[r][j].Some? :: grid[r][j].value
  }

  ghost function ColGivensBefore(grid: seq<seq<Option<int>>>, c: int, k: int): set<int>
    requires Square(grid) && 0 <= c < 9
  {
    set i | 0 <= i < 9 && 9 * i + c < k && grid[i][c].Some? :: grid[i][c].value
  }

  ghost function BlockGivensBefore(grid: seq<seq<Option<int>>>, b: int, k: int): set<int>
    requires Square(grid)
  {
    set i, j | 0 <= i < 9 && 0 <= j < 9 && BlockOf(i, j) == b && 9 * i + j < k && grid[i][j].Some? ::
      grid[i][j].value
  }

  /** The digits given in row r, column c and block b. */
  ghost function RowGivens(grid: seq<seq<Option<int>>>, r: int): set<int>
    requires Square(grid) && 0 <= r < 9
  {
    set j | 0 <= j < 9 && grid[r][j].Some? :: grid[r][j].value
  }

  ghost function ColGivens(grid: seq<seq<Option<int>>>, c: int): set<int>
    requires Square(grid) && 0 <= c < 9
  {
    set i | 0 <= i < 9 && grid[i][c].Some? :: grid[i][c].value
  }

  ghost function BlockGivens(grid: seq<seq<Option<int>>>, b: int): set<int>
    requires Square(grid)
  {
    set i, j | 0 <= i < 9 && 0 <= j < 9 && BlockOf(i, j) == b && grid[i][j].Some? :: grid[i][j].value
  }

  /** Distinct cells have distinct row-major indices. */
  lemma IndexUnique(a: int, c: int, i: int, j: int)
    requires 0 <= a < 9 && 0 <= c < 9 && 0 <= i < 9 && 0 <= j < 9 && 9 * a + c == 9 * i + j
    ensures a == i && c == j
  {
    CellOfIndex(a, c);
    CellOfIndex(i, j);
  }

  /** Seeding cell k adds its given, if any, to the givens seen so far in
      its row. */
  lemma RowGivensStep(grid: seq<seq<Option<int>>>, r: int, k: int)
    requires Square(grid) && 0 <= r < 9 && 0 <= k < 81
    ensures RowGivensBefore(grid, r, k + 1) ==
      RowGivensBefore(grid, r, k) +
      (if r == k / 9 && grid[r][k % 9].Some? then {grid[r][k % 9].value} else {})
  {
    var i, j := k / 9, k % 9;
    assert k == 9 * i + j;
    if r == i {
      assert 9 * r + j == k;
    }
  }

  /** Seeding cell k adds its given, if any, to the givens seen so far in
      its column. */
  lemma ColGivensStep(grid: seq<seq<Option<int>>>, c: int, k: int)
    requires Square(grid) && 0 <= c < 9 && 0 <= k < 81
    ensures ColGivensBefore(grid, c, k + 1) ==
      ColGivensBefore(grid, c, k) +
      (if c == k % 9 && grid[k / 9][c].Some? then {grid[k / 9][c].value} else {})
  {
    var i, j := k / 9, k % 9;
    assert k == 9 * i + j;
    forall a | 0 <= a < 9 && 9 * a + c == k
      ensures a == i && c == j
    {
      IndexUnique(a, c, i, j);
    }
  }

  /** Seeding cell k adds its given, if any, to the givens seen so far in
      its block. */
  lemma BlockGivensStep(grid: seq<seq<Option<int>>>, b: int, k: int)
    requires Square(grid) && 0 <= k < 81
    ensures var i, j := k / 9, k % 9;
      BlockGivensBefore(grid, b, k + 1) ==
      BlockGivensBefore(grid, b, k) +
      (if b == BlockOf(i, j) && grid[i][j].Some? then {grid[i][j].value} else {})
  {
    var i, j := k / 9, k % 9;
    assert k == 9 * i + j;
    forall a, c | 0 <= a < 9 && 0 <= c < 9 && 9 * a + c == k
      ensures grid[a][c] == grid[i][j] && BlockOf(a, c) == BlockOf(i, j)
    {
      IndexUnique(a, c, i, j);
    }
  }

  /** After k cells are seeded, a seeded given holds {c} and every other
      cell 1-9. */
  ghost predicate CandsSeeded(grid: seq<seq<Option<int>>>, s: State, k: int)
    requires Square(grid) && Shaped(s)
  {
    forall i, j :: 0 <= i < 9 && 0 <= j < 9 ==>
      s.cands[i][j] == if 9 * i + j < k && grid[i][j].Some? then {grid[i][j].value} else Digits
  }

  /** After k cells are seeded, each row, column and block set is 1-9 without
      the digits given so far in it. */
  ghost predicate RowsSeeded(grid: seq<seq<Option<int>>>, s: State, k: int)
    requires Square(grid) && Shaped(s)
  {
    forall r :: 0 <= r < 9 ==> s.rowSets[r] == Digits - RowGivensBefore(grid, r, k)
  }

  ghost predicate ColsSeeded(grid: seq<seq<Option<int>>>, s: State, k: int)
    requires Square(grid) && Shaped(s)
  {
    forall c :: 0 <= c < 9 ==> s.colSets[c] == Digits - ColGivensBefore(grid, c, k)
  }

  ghost predicate BlocksSeeded(grid: seq<seq<Option<int>>>, s: State, k: int)
    requires Square(grid) && Shaped(s)
  {
    forall b :: 0 <= b < 9 ==> s.blockSets[b] == Digits - BlockGivensBefore(grid, b, k)
  }

  /** Cell k - 1 is seeded last on the way to k: the prefix states relate by
      one SeedCell step. */
  lemma SeedUnfold(grid: seq<seq<Option<int>>>, k: int)
    requires Square(grid) && 0 < k <= 81
    ensures var i, j := (k - 1) / 9, (k - 1) % 9;
      0 <= i < 9 && 0 <= j < 9 && k - 1 == 9 * i + j &&
      SeedUpTo(grid, k) == SeedCell(SeedUpTo(grid, k - 1), grid, i, j)
  {
  }

  lemma CandsSeedStep(grid: seq<seq<Option<int>>>, k: int)
    requires Square(grid) && 0 < k <= 81 && CandsSeeded(grid, SeedUpTo(grid, k - 1), k - 1)
    ensures CandsSeeded(grid, SeedUpTo(grid, k), k)
  {
    SeedUnfold(grid, k);
    var i, j := (k - 1) / 9, (k - 1) % 9;
    var s := SeedUpTo(grid, k);
    forall a, c | 0 <= a < 9 && 0 <= c < 9
      ensures s.cands[a][c] == if 9 * a + c < k && grid[a][c].Some? then {grid[a][c].value} else Digits
    {
      if 9 * a + c == k - 1 {
        IndexUnique(a, c, i, j);
      }
    }
  }

  lemma RowsSeedStep(grid: seq<seq<Option<int>>>, k: int)
    requires Square(grid) && 0 < k <= 81 && RowsSeeded(grid, SeedUpTo(grid, k - 1), k - 1)
    ensures RowsSeeded(grid, SeedUpTo(grid, k), k)
  {
    SeedUnfold(grid, k);
    forall r | 0 <= r < 9
      ensures SeedUpTo(grid, k).rowSets[r] == Digits - RowGivensBefore(grid, r, k)
    {
      RowGivensStep(grid, r, k - 1);
    }
  }

  lemma ColsSeedStep(grid: seq<seq<Option<int>>>, k: int)
    requires Square(grid) && 0 < k <= 81 && ColsSeeded(grid, SeedUpTo(grid, k - 1), k - 1)
    ensures ColsSeeded(grid, SeedUpTo(grid, k), k)
  {
    SeedUnfold(grid, k);
    forall c | 0 <= c < 9
      ensures SeedUpTo(grid, k).colSets[c] == Digits - ColGivensBefore(grid, c, k)
    {
      ColGivensStep(grid, c, k - 1);
    }
  }

  lemma BlocksSeedStep(grid: seq<seq<Option<int>>>, k: int)
    requires Square(grid) && 0 < k <= 81 && BlocksSeeded(grid, SeedUpTo(grid, k - 1), k - 1)
    ensures BlocksSeeded(grid, SeedUpTo(grid, k), k)
  {
    SeedUnfold(grid, k);
    var i, j := (k - 1) / 9, (k - 1) % 9;
    var p, s := SeedUpTo(grid, k - 1), SeedUpTo(grid, k);
    forall b | 0 <= b < 9
      ensures s.blockSets[b] == Digits - BlockGivensBefore(grid, b, k)
    {
      BlockGivensStep(grid, b, k - 1);
      if b == BlockOf(i, j) && grid[i][j].Some? {
        assert s.blockSets[b] == p.blockSets[b] - {grid[i][j].value};
      } else {
        assert s.blockSets[b] == p.blockSets[b];
      }
    }
  }

  /** After k cells are seeded: the solution is the puzzle, a seeded given
      holds {c}, every other cell 1-9, and each peer set is 1-9 without the
      digits given so far in its row, column or block. */
  lemma {:induction false} SeedUpToShape(grid: seq<seq<Option<int>>>, k: int)
    requires Square(grid) && 0 <= k <= 81
    ensures var s := SeedUpTo(grid, k);
      s.solution == grid && CandsSeeded(grid, s, k) && RowsSeeded(grid, s, k) &&
      ColsSeeded(grid, s, k) && BlocksSeeded(grid, s, k)
  {
    SolutionUpTo(grid, k);
    CandsUpTo(grid, k);
    RowsUpTo(grid, k);
    ColsUpTo(grid, k);
    BlocksUpTo(grid, k);
  }

  lemma {:induction false} SolutionUpTo(grid: seq<seq<Option<int>>>, k: int)
    requires Square(grid) && 0 <= k <= 81
    ensures SeedUpTo(grid, k).solution == grid
    decreases k
  {
    if k > 0 {
      SolutionUpTo(grid, k - 1);
      SeedUnfold(grid, k);
    }
  }

  lemma {:induction false} CandsUpTo(grid: seq<seq<Option<int>>>, k: int)
    requires Square(grid) && 0 <= k <= 81
    ensures CandsSeeded(grid, SeedUpTo(grid, k), k)
    decreases k
  {
    if k > 0 {
      CandsUpTo(grid, k - 1);
      CandsSeedStep(grid, k);
    }
  }

  lemma {:induction false} RowsUpTo(grid: seq<seq<Option<int>>>, k: int)
    requires Square(grid) && 0 <= k <= 81
    ensures RowsSeeded(grid, SeedUpTo(grid, k), k)
    decreases k
  {
    if k > 0 {
      RowsUpTo(grid, k - 1);
      RowsSeedStep(grid, k);
    }
  }

  lemma {:induction false} ColsUpTo(grid: seq<seq<Option<int>>>, k: int)
    requires Square(grid) && 0 <= k <= 81
    ensures ColsSeeded(grid, SeedUpTo(grid, k), k)
    decreases k
  {
    if k > 0 {
      ColsUpTo(grid, k - 1);
      ColsSeedStep(grid, k);
    }
  }

  lemma {:induction false} BlocksUpTo(grid: seq<seq<Option<int>>>, k: int)
    requires Square(grid) && 0 <= k <= 81
    ensures BlocksSeeded(grid, SeedUpTo(grid, k), k)
    decreases k
  {
    if k > 0 {
      BlocksUpTo(grid, k - 1);
      BlocksSeedStep(grid, k);
    }
  }

  /** Seeding gives every blank 1-9 and every given {c}, keeps the puzzle as
      the solution, and takes each given out of the peer sets of its row,
      column and block, which keep every other digit. */
  lemma SeedShape(grid: seq<seq<Option<int>>>)
    requires Square(grid)
    ensures var s := Seed(grid);
      s.solution == grid &&
      (forall i, j :: 0 <= i < 9 && 0 <= j < 9 ==>
         s.cands[i][j] == if grid[i][j].Some? then {grid[i][j].value} else Digits) &&
      (forall r :: 0 <= r < 9 ==> s.rowSets[r] == Digits - RowGivens(grid, r)) &&
      (forall c :: 0 <= c < 9 ==> s.colSets[c] == Digits - ColGivens(grid, c)) &&
      (forall b :: 0 <= b < 9 ==> s.blockSets[b] == Digits - BlockGivens(grid, b))
  {
    SeedUpToShape(grid, 81);
    SeededAll(grid, Seed(grid));
  }

  /** A state seeded through all 81 cells has the shape SeedShape states. */
  lemma SeededAll(grid: seq<seq<Option<int>>>, s: State)
    requires Square(grid) && Shaped(s)
    requires s.solution == grid && CandsSeeded(grid, s, 81)
    requires RowsSeeded(grid, s, 81) && ColsSeeded(grid, s, 81) && BlocksSeeded(grid, s, 81)
    ensures forall i, j :: 0 <= i < 9 && 0 <= j < 9 ==>
      s.cands[i][j] == if grid[i][j].Some? then {grid[i][j].value} else Digits
    ensures forall r :: 0 <= r < 9 ==> s.rowSets[r] == Digits - RowGivens(grid, r)
    ensures forall c :: 0 <= c < 9 ==> s.colSets[c] == Digits - ColGivens(grid, c)
    ensures forall b :: 0 <= b < 9 ==> s.blockSets[b] == Digits - BlockGivens(grid, b)
  {
    forall r | 0 <= r < 9 ensures RowGivensBefore(grid, r, 81) == RowGivens(grid, r) { }
    forall c | 0 <= c < 9 ensures ColGivensBefore(grid, c, 81) == ColGivens(grid, c) { }
    forall b | 0 <= b < 9 ensures BlockGivensBefore(grid, b, 81) == BlockGivens(grid, b) { }
  }

  /** When no digit is given twice in a line or block, each given is still in
      its row, column and block sets when its cell, the k-th in row-major
      order, is seeded (set.remove never fails). */
  lemma {:induction false} SeedRemovable(grid: seq<seq<Option<int>>>, i: int, j: int, k: int)
    requires WellFormedGrid(grid) && GivensDistinct(grid)
    requires 0 <= i < 9 && 0 <= j < 9 && k == 9 * i + j && grid[i][j].Some?
    ensures var s := SeedUpTo(grid, k); var c := grid[i][j].value;
      c in s.rowSets[i] && c in s.colSets[j] && c in s.blockSets[BlockOf(i, j)]
  {
    RowGivenFresh(grid, i, j, k);
    ColGivenFresh(grid, i, j, k);
    BlockGivenFresh(grid, i, j, k);
    RowUnseen(grid, i, j, k);
    ColUnseen(grid, i, j, k);
    BlockUnseen(grid, i, j, k);
  }

  /** A digit not given in its row among the first k cells is still in the
      row's set after they are seeded. */
  lemma {:induction false} RowUnseen(grid: seq<seq<Option<int>>>, i: int, j: int, k: int)
    requires Square(grid) && 0 <= i < 9 && 0 <= j < 9 && 0 <= k <= 81
    requires grid[i][j].Some? && grid[i][j].value in Digits
    requires grid[i][j].value !in RowGivensBefore(grid, i, k)
    ensures grid[i][j].value in SeedUpTo(grid, k).rowSets[i]
  {
    RowsUpTo(grid, k);
  }

  /** A digit not given in its column among the first k cells is still in
      the column's set after they are seeded. */
  lemma {:induction false} ColUnseen(grid: seq<seq<Option<int>>>, i: int, j: int, k: int)
    requires Square(grid) && 0 <= i < 9 && 0 <= j < 9 && 0 <= k <= 81
    requires grid[i][j].Some? && grid[i][j].value in Digits
    requires grid[i][j].value !in ColGivensBefore(grid, j, k)
    ensures grid[i][j].value in SeedUpTo(grid, k).colSets[j]
  {
    ColsUpTo(grid, k);
  }

  /** A digit not given in its block among the first k cells is still in the
      block's set after they are seeded. */
  lemma {:induction false} BlockUnseen(grid: seq<seq<Option<int>>>, i: int, j: int, k: int)
    requires Square(grid) && 0 <= i < 9 && 0 <= j < 9 && 0 <= k <= 81
    requires grid[i][j].Some? && grid[i][j].value in Digits
    requires grid[i][j].value !in BlockGivensBefore(grid, BlockOf(i, j), k)
    ensures grid[i][j].value in SeedUpTo(grid, k).blockSets[BlockOf(i, j)]
  {
    BlocksUpTo(grid, k);
  }

  /** With distinct givens, a given does not occur before its own cell, the
      k-th, in its row, column or block. */
  lemma RowGivenFresh(grid: seq<seq<Option<int>>>, i: int, j: int, k: int)
    requires WellFormedGrid(grid) && GivensDistinct(grid)
    requires 0 <= i < 9 && 0 <= j < 9 && k == 9 * i + j && grid[i][j].Some?
    ensures grid[i][j].value !in RowGivensBefore(grid, i, k)
  {
  }

  lemma ColGivenFresh(grid: seq<seq<Option<int>>>, i: int, j: int, k: int)
    requires WellFormedGrid(grid) && GivensDistinct(grid)
    requires 0 <= i < 9 && 0 <= j < 9 && k == 9 * i + j && grid[i][j].Some?
    ensures grid[i][j].value !in ColGivensBefore(grid, j, k)
  {
    forall a | 0 <= a < 9 && 9 * a + j < k && grid[a][j].Some?
      ensures grid[a][j].value != grid[i][j].value
    {
      assert a != i;
    }
  }

  lemma BlockGivenFresh(grid: seq<seq<Option<int>>>, i: int, j: int, k: int)
    requires WellFormedGrid(grid) && GivensDistinct(grid)
    requires 0 <= i < 9 && 0 <= j < 9 && k == 9 * i + j && grid[i][j].Some?
    ensures grid[i][j].value !in BlockGivensBefore(grid, BlockOf(i, j), k)
  {
    forall a, b | 0 <= a < 9 && 0 <= b < 9 && BlockOf(a, b) == BlockOf(i, j) && 9 * a + b < k && grid[a][b].Some?
      ensures grid[a][b].value != grid[i][j].value
    {
      assert a != i || b != j;
    }
  }

  /** The seeded state satisfies the solver invariant. */
  lemma SeedValid(grid: seq<seq<Option<int>>>)
    requires WellFormedGrid(grid)
    ensures Valid(Seed(grid))
  {
    var s := Seed(grid);
    SeedShape(grid);
    forall i, j | 0 <= i < 9 && 0 <= j < 9 && s.solution[i][j].Some?
      ensures s.solution[i][j].value !in s.rowSets[i]
      ensures s.solution[i][j].value !in s.colSets[j]
      ensures s.solution[i][j].value !in s.blockSets[BlockOf(i, j)]
    {
      GivenInPeers(grid, i, j);
    }
  }

  /** A given is among the givens of its row, column and block. */
  lemma GivenInPeers(grid: seq<seq<Option<int>>>, i: int, j: int)
    requires Square(grid) && 0 <= i < 9 && 0 <= j < 9 && grid[i][j].Some?
    ensures var c := grid[i][j].value;
      c in RowGivens(grid, i) && c in ColGivens(grid, j) && c in BlockGivens(grid, BlockOf(i, j))
  {
  }

  /** The seeded state has not ruled out any solution of the puzzle: a
      solution's digit at a blank differs from every given of the blank's
      row, column and block. */
  lemma SeedSound(grid: seq<seq<Option<int>>>, z: seq<seq<int>>)
    requires WellFormedGrid(grid) && IsCompletion(grid, z)
    ensures Sound(Seed(grid), z)
  {
    var s := Seed(grid);
    SeedShape(grid);
    forall i, j {:trigger s.solution[i][j]} | 0 <= i < 9 && 0 <= j < 9 && s.solution[i][j].None?
      ensures z[i][j] in s.cands[i][j]
      ensures z[i][j] in s.rowSets[i] && z[i][j] in s.colSets[j]
      ensures z[i][j] in s.blockSets[BlockOf(i, j)]
    {
      assert z[i][j] in RowOf(z, i);
      forall b | 0 <= b < 9 && grid[i][b].Some? ensures grid[i][b].value != z[i][j] {
        assert b != j;
      }
      forall a | 0 <= a < 9 && grid[a][j].Some? ensures grid[a][j].value != z[i][j] {
        assert a != i;
      }
      forall a, b | 0 <= a < 9 && 0 <= b < 9 && BlockOf(a, b) == BlockOf(i, j) && grid[a][b].Some?
        ensures grid[a][b].value != z[i][j]
      {
        assert a != i || b != j;
      }
      assert z[i][j] !in RowGivens(grid, i);
      assert z[i][j] !in ColGivens(grid, j);
      assert z[i][j] !in BlockGivens(grid, BlockOf(i, j));
    }
  }

  // ---------------------------------------------------------------------
  // The loop.

  /** The test check_elements makes: every candidate set has at most one
      element (an empty set counts as done). */
  ghost function AllDecided(g: seq<seq<set<int>>>): (done: bool)
    ensures done <==> forall i, j :: 0 <= i < |g| && 0 <= j < |g[i]| ==> |g[i][j]| <= 1
  {
    if g == [] then true
    else RowDone(g[0]) && AllDecided(g[1..])
  }

  ghost function RowDone(row: seq<set<int>>): (done: bool)
    ensures done <==> forall j :: 0 <= j < |row| ==> |row[j]| <= 1
  {
    if row == [] then true
    else |row[0]| <= 1 && RowDone(row[1..])
  }

  /** One iteration of the loop: relaxation; the hidden-single scan only if
      relaxation made no progress; the naked-subset scan only if neither
      did. The flag is the iteration's change_flag. */
  ghost function Iterate(s: State): (res: (State, bool))
    requires Shaped(s)
    ensures Shaped(res.0)
  {
    var (t, f) := Relax(s);
    if f then (t, true)
    else
      var (g, f2) := Singles(t.cands);
      if f2 then (t.(cands := g), true)
      else
        var (h, f3) := UnionScan(t.solution, t.cands);
        (t.(cands := h), f3)
  }

  /** No pass makes progress: the loop stops here. */
  ghost predicate Stalled(s: State)
    requires Shaped(s)
  {
    !Iterate(s).1
  }

  /** An iteration keeps the invariant, only strikes candidates, never
      replaces a placed digit, lowers the candidate count when it reports
      progress, and leaves the state untouched when it does not. */
  lemma IterateProgress(s: State)
    requires Valid(s)
    ensures var (t, f) := Iterate(s);
      Valid(t) && Shrinks(s.cands, t.cands) && Extends(s.solution, t.solution) &&
      (f ==> Total(t.cands) < Total(s.cands)) &&
      (!f ==> t == s)
  {
    RelaxFlag(s);
    RelaxUpToKeepsValid(s, 81);
    var (t, f) := Relax(s);
    if !f {
      SinglesFlag(t.cands);
      var (g, f2) := Singles(t.cands);
      NarrowKeepsValid(t, g);
      if !f2 {
        UnionScanFlag(t.solution, t.cands);
        var (h, f3) := UnionScan(t.solution, t.cands);
        NarrowKeepsValid(t, h);
      }
    }
  }

  /** An iteration leaves the candidate set of every placed cell as it was:
      relaxation assigns only open cells, and the two scans skip cells with
      at most one candidate or strike only from open cells. */
  lemma IterateKeepsPlaced(s: State)
    requires Valid(s)
    ensures PlacedKept(s.solution, s.cands, Iterate(s).0.cands)
  {
    ValidPlacedDecided(s);
    RelaxUpToKeepsPlaced(s, 81);
    RelaxFlag(s);
    var (t, f) := Relax(s);
    if !f {
      SinglesUpToKeepsDecided(t.cands, 81);
      UnionScanKeepsPlaced(t.solution, t.cands);
    }
  }

  /** An iteration never rules out a solution of the puzzle. */
  lemma IterateSound(s: State, z: seq<seq<int>>)
    requires Valid(s) && Sound(s, z) && IsSolutionGrid(z)
    ensures Sound(Iterate(s).0, z)
  {
    RelaxSound(s, z);
    RelaxFlag(s);
    var (t, f) := Relax(s);
    if !f {
      RelaxQuietSettled(s);
      SinglesSound(t, z);
      var (g, f2) := Singles(t.cands);
      if !f2 {
        UnionScanSound(t, z);
      }
    }
  }

  /** The state the loop of solve stops at, starting from s: it stops when
      every candidate set has at most one element, or after an iteration
      without progress. */
  ghost function Fix(s: State): (r: State)
    requires Valid(s)
    ensures Shaped(r)
    decreases Total(s.cands)
  {
    if AllDecided(s.cands) then s
    else
      var (t, f) := Iterate(s);
      if !f then t
      else
        IterateProgress(s);
        Fix(t)
  }

  /** The loop keeps the invariant, only strikes candidates, never replaces
      a placed digit, and stops either with every set of size at most one or
      at a state no pass changes. */
  lemma {:induction false} FixProgress(s: State)
    requires Valid(s)
    ensures var r := Fix(s);
      Valid(r) && Shrinks(s.cands, r.cands) && Extends(s.solution, r.solution) &&
      (AllDecided(r.cands) || Stalled(r))
    decreases Total(s.cands)
  {
    if !AllDecided(s.cands) {
      IterateProgress(s);
      var (t, f) := Iterate(s);
      if f {
        FixProgress(t);
      }
    }
  }

  /** The loop leaves the candidate set of every cell placed before it as it
      was, since each iteration does and placed cells stay placed. */
  lemma {:induction false} FixKeepsPlaced(s: State)
    requires Valid(s)
    ensures PlacedKept(s.solution, s.cands, Fix(s).cands)
    decreases Total(s.cands)
  {
    if !AllDecided(s.cands) {
      IterateProgress(s);
      IterateKeepsPlaced(s);
      var (t, f) := Iterate(s);
      if f {
        FixKeepsPlaced(t);
        PlacedKeptTrans(s.solution, t.solution, s.cands, t.cands, Fix(t).cands);
      }
    }
  }

  /** The loop never rules out a solution of the puzzle. */
  lemma {:induction false} FixSound(s: State, z: seq<seq<int>>)
    requires Valid(s) && Sound(s, z) && IsSolutionGrid(z)
    ensures Sound(Fix(s), z)
    decreases Total(s.cands)
  {
    if !AllDecided(s.cands) {
      IterateProgress(s);
      IterateSound(s, z);
      var (t, f) := Iterate(s);
      if f {
        FixSound(t, z);
      }
    }
  }

  /** What solve returns: the givens are kept, every placed value is a digit
      with no copy in its row, column or block sets, every placed value
      agrees with every solution of the puzzle, and the loop stopped with
      every candidate set of size at most one or with no pass making
      progress. */
  lemma SolveCorrect(grid: seq<seq<Option<int>>>)
    requires WellFormedGrid(grid)
    ensures Valid(Seed(grid)) && var r := Fix(Seed(grid));
      Valid(r) &&
      (forall i, j :: 0 <= i < 9 && 0 <= j < 9 && grid[i][j].Some? ==> r.solution[i][j] == grid[i][j]) &&
      (forall z :: IsCompletion(grid, z) ==>
         forall i, j :: 0 <= i < 9 && 0 <= j < 9 && r.solution[i][j].Some? ==> r.solution[i][j].value == z[i][j]) &&
      (AllDecided(r.cands) || Stalled(r))
  {
    SeedValid(grid);
    SeedShape(grid);
    FixProgress(Seed(grid));
    forall z | IsCompletion(grid, z)
      ensures Sound(Fix(Seed(grid)), z)
    {
      SeedSound(grid, z);
      FixSound(Seed(grid), z);
    }
  }

  /** Every given keeps the one-digit candidate set it was seeded with
      through the whole solve. */
  lemma GivensKeepSets(grid: seq<seq<Option<int>>>)
    requires WellFormedGrid(grid)
    ensures Valid(Seed(grid)) &&
      forall i, j :: 0 <= i < 9 && 0 <= j < 9 && grid[i][j].Some? ==>
        Fix(Seed(grid)).cands[i][j] == {grid[i][j].value}
  {
    SeedValid(grid);
    SeedShape(grid);
    FixKeepsPlaced(Seed(grid));
  }
}
