/** Block indexer: the mapping between a cell (row, column) and the
    identifier of the n-by-n block that holds it, blocks numbered row-major.
    Python's // and % agree with Dafny's / and % whenever the divisor is
    positive, which is the only case the engine uses (n = 3). */
module Blocks {

  /** Side of one block; the grid is N*N = 9 cells wide. */
  const N: int := 3

  /** get_block_id: the block that holds (row, col). */
  function BlockId(row: int, col: int, n: int): int
    requires n > 0
  {
    (row / n) * n + col / n
  }

  /** get_row_col_from_block_id: the top-left cell of block bid. */
  function BlockOrigin(bid: int, n: int): (int, int)
    requires n > 0
  {
    (n * (bid / n), n * (bid % n))
  }

  /** The call get_block_id(i, j) with its default block side, as the
      engine makes it for every cell of the 9x9 grid. */
  function BlockOf(i: int, j: int): (b: int)
    requires 0 <= i < 9 && 0 <= j < 9
    ensures 0 <= b < 9
    ensures b == BlockId(i, j, N)
  {
    BlockId(i, j, N)
  }

  /** Multiplying by n and dividing by n again gives the factor back. */
  lemma MulDivCancel(q: int, n: int)
    requires n > 0
    ensures (n * q) / n == q && (n * q) % n == 0
  {
    var m := n * q;
    assert m == n * (m / n) + m % n;
    assert n * (q - m / n) == m % n;
    if q - m / n >= 1 { assert false; }
    if q - m / n <= -1 { assert false; }
  }

  /** (q*n + r) / n == q and (q*n + r) % n == r for a remainder 0 <= r < n. */
  lemma DivModOfSum(q: int, r: int, n: int)
    requires n > 0 && 0 <= r < n
    ensures (q * n + r) / n == q && (q * n + r) % n == r
  {
    var m := q * n + r;
    assert m == n * (m / n) + m % n;
    assert n * (m / n - q) == r - m % n;
    if m / n - q >= 1 { assert false; }
    if m / n - q <= -1 { assert false; }
  }

  /** A coordinate of the n*n-wide grid lies in one of its n block rows. */
  lemma DivBelow(x: int, n: int)
    requires n > 0 && 0 <= x < n * n
    ensures 0 <= x / n < n
  {
    var q := x / n;
    assert x == n * q + x % n && 0 <= x % n < n;
    if q >= n { assert false; }
    if q < 0 { assert false; }
  }

  /** Multiplying by a non-negative factor preserves order. */
  lemma {:induction false} MulMono(a: int, b: int, n: int)
    requires 0 <= a <= b && n >= 0
    ensures a * n <= b * n
    decreases b - a
  {
    if a < b {
      MulMono(a, b - 1, n);
      assert b * n == (b - 1) * n + n;
    }
  }

  /** A cell of the n*n by n*n grid lies in one of its n*n blocks. */
  lemma BlockIdRange(row: int, col: int, n: int)
    requires n > 0 && 0 <= row < n * n && 0 <= col < n * n
    ensures 0 <= BlockId(row, col, n) < n * n
  {
    var r, c := row / n, col / n;
    DivBelow(row, n);
    DivBelow(col, n);
    MulMono(r, n - 1, n);
    MulMono(0, r, n);
    assert (n - 1) * n == n * n - n;
    assert BlockId(row, col, n) == r * n + c;
  }

  /** get_block_id undoes get_row_col_from_block_id: the origin of block
      bid lies in block bid. */
  lemma BlockRoundTrip(bid: int, n: int)
    requires n > 0 && 0 <= bid < n * n
    ensures BlockId(BlockOrigin(bid, n).0, BlockOrigin(bid, n).1, n) == bid
  {
    var q, r := bid / n, bid % n;
    MulDivCancel(q, n);
    MulDivCancel(r, n);
    assert bid == q * n + r;
  }

  /** The origin of the block holding (row, col) is (row, col) rounded down
      to a multiple of n in each coordinate. */
  lemma BlockOriginOfCell(row: int, col: int, n: int)
    requires n > 0 && 0 <= row < n * n && 0 <= col < n * n
    ensures BlockOrigin(BlockId(row, col, n), n) == (row - row % n, col - col % n)
  {
    var r, c := row / n, col / n;
    DivBelow(col, n);
    DivModOfSum(r, c, n);
    assert row == n * r + row % n;
    assert col == n * c + col % n;
  }
}
