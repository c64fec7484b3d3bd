/** Naked-subset scan (union_pair_scan_vector and its row and column
    drivers). Along one line (a row or a column, given as the line's slice
    of the solution grid and of the candidate grid), every pair of open
    entries is grouped by the union U of its two candidate sets; the group's
    entries S are the entries of those pairs. When |U| == |S| and S is not
    every open entry, the digits of U are struck from the other open
    entries. */
module NakedSubsets {
  import opened Grid

  /** valid_idxes: the positions below n whose solution entry is blank, in
      ascending order. */
  ghost function OpenPrefix(sol: seq<Option<int>>, n: int): (L: seq<int>)
    requires 0 <= n <= |sol|
    ensures forall k :: k in L <==> 0 <= k < n && sol[k].None?
    ensures forall a, b :: 0 <= a < b < |L| ==> L[a] < L[b]
    ensures forall a :: 0 <= a < |L| ==> 0 <= L[a] < n
  {
    if n == 0 then []
    else OpenPrefix(sol, n - 1) + (if sol[n - 1].None? then [n - 1] else [])
  }

  ghost function OpenIndices(sol: seq<Option<int>>): seq<int>
  {
    OpenPrefix(sol, |sol|)
  }

  /** A list of positions into a line of length m. */
  ghost predicate Positions(L: seq<int>, m: int)
  {
    forall a :: 0 <= a < |L| ==> 0 <= L[a] < m
  }

  /** The keys of match_sets: the unions of the candidate sets of every pair
      of listed entries. */
  ghost function PairUnions(es: seq<set<int>>, L: seq<int>): set<set<int>>
    requires Positions(L, |es|)
  {
    set a, b | 0 <= a < b < |L| :: es[L[a]] + es[L[b]]
  }

  /** idx_set for the key u: the entries of the pairs whose union is u. */
  ghost function Partners(es: seq<set<int>>, L: seq<int>, u: set<int>): set<int>
    requires Positions(L, |es|)
  {
    (set a, b | 0 <= a < b < |L| && es[L[a]] + es[L[b]] == u :: L[a]) +
    (set a, b | 0 <= a < b < |L| && es[L[a]] + es[L[b]] == u :: L[b])
  }

  /** The elimination test: as many digits as entries, and the entries are
      not all the open entries of the line. */
  ghost predicate Locked(es: seq<set<int>>, L: seq<int>, u: set<int>)
    requires Positions(L, |es|)
  {
    |u| == |Partners(es, L, u)| && |Partners(es, L, u)| != |L|
  }

  /** The locked unions whose group does not contain entry k. */
  ghost function LockedAgainst(es: seq<set<int>>, L: seq<int>, k: int): set<set<int>>
    requires Positions(L, |es|)
  {
    LockedIn(es, L, k, PairUnions(es, L))
  }

  /** The unions among keys that are locked and whose group does not contain
      entry k. */
  ghost function LockedIn(es: seq<set<int>>, L: seq<int>, k: int, keys: set<set<int>>): set<set<int>>
    requires Positions(L, |es|)
  {
    set u | u in keys && Locked(es, L, u) && k !in Partners(es, L, u)
  }

  /** All the digits of a family of sets. */
  ghost function Flatten(family: set<set<int>>): set<int>
  {
    set u, d | u in family && d in u :: d
  }

  /** The digits struck from entry k: those of every locked union whose
      group does not contain k. */
  ghost function Eliminated(es: seq<set<int>>, L: seq<int>, k: int): set<int>
    requires Positions(L, |es|)
  {
    Flatten(LockedAgainst(es, L, k))
  }

  /** union_pair_scan_vector: the line's new candidate sets and whether any
      of them changed. Every group is formed from the sets as they were on
      entry; striking is a set difference, so the order in which the groups
      are applied does not matter. */
  ghost function UnionVector(sol: seq<Option<int>>, es: seq<set<int>>): (res: (seq<set<int>>, bool))
    requires |sol| == |es|
    ensures |res.0| == |es|
  {
    var L := OpenIndices(sol);
    var out := seq(|es|, k requires 0 <= k < |es| =>
      if sol[k].None? then es[k] - Eliminated(es, L, k) else es[k]);
    (out, out != es)
  }

  // ---------------------------------------------------------------------
  // One line.

  /** Every entry of a group is open and its candidates lie within the
      group's union. */
  lemma PartnersWithin(sol: seq<Option<int>>, es: seq<set<int>>, u: set<int>)
    requires |sol| == |es|
    ensures var L := OpenIndices(sol);
      forall k :: k in Partners(es, L, u) ==> 0 <= k < |es| && sol[k].None? && es[k] <= u
  {
    var L := OpenIndices(sol);
    forall k | k in Partners(es, L, u)
      ensures 0 <= k < |es| && sol[k].None? && es[k] <= u
    {
      if k in (set a, b | 0 <= a < b < |L| && es[L[a]] + es[L[b]] == u :: L[a]) {
        var a, b :| 0 <= a < b < |L| && es[L[a]] + es[L[b]] == u && k == L[a];
        assert L[a] in L;
      } else {
        var a, b :| 0 <= a < b < |L| && es[L[a]] + es[L[b]] == u && k == L[b];
        assert L[b] in L;
      }
    }
  }

  /** The scan only strikes candidates, and only from open entries. */
  lemma UnionVectorShrinks(sol: seq<Option<int>>, es: seq<set<int>>)
    requires |sol| == |es|
    ensures var out := UnionVector(sol, es).0;
      (forall k :: 0 <= k < |es| ==> out[k] <= es[k]) &&
      (forall k :: 0 <= k < |es| && sol[k].Some? ==> out[k] == es[k])
  {
  }

  /** The striking rule of UnionVector in plain form, one digit at a time and
      without the LockedAgainst and Flatten set algebra the function is
      written in: a digit leaves entry k exactly when k is open and the digit
      belongs to a locked union whose group does not contain k. */
  lemma UnionVectorStrikes(sol: seq<Option<int>>, es: seq<set<int>>, k: int, d: int)
    requires |sol| == |es| && 0 <= k < |es|
    ensures var out := UnionVector(sol, es).0; var L := OpenIndices(sol);
      d in es[k] && d !in out[k] <==>
        sol[k].None? && d in es[k] &&
        exists u :: u in PairUnions(es, L) && Locked(es, L, u) && k !in Partners(es, L, u) && d in u
  {
    var L := OpenIndices(sol);
    if sol[k].None? && d in es[k] &&
      exists u :: u in PairUnions(es, L) && Locked(es, L, u) && k !in Partners(es, L, u) && d in u
    {
      var u :| u in PairUnions(es, L) && Locked(es, L, u) && k !in Partners(es, L, u) && d in u;
      assert u in LockedAgainst(es, L, k);
      assert d in Eliminated(es, L, k);
    }
  }

  /** A list of sets each contained in its counterpart differs from it
      exactly when some set is strictly smaller. */
  lemma ShrunkList(out: seq<set<int>>, es: seq<set<int>>)
    requires |out| == |es| && forall k :: 0 <= k < |es| ==> out[k] <= es[k]
    ensures out != es <==> exists k :: 0 <= k < |es| && out[k] < es[k]
  {
    if out != es {
      var k :| 0 <= k < |es| && out[k] != es[k];
      assert out[k] < es[k];
    }
  }

  /** union_pair_scan_vector returns True exactly when some entry's set
      strictly shrank. */
  lemma UnionVectorFlag(sol: seq<Option<int>>, es: seq<set<int>>)
    requires |sol| == |es|
    ensures var (out, f) := UnionVector(sol, es);
      f <==> exists k :: 0 <= k < |es| && out[k] < es[k]
  {
    UnionVectorShrinks(sol, es);
    ShrunkList(UnionVector(sol, es).0, es);
  }

  /** The values an injective line assignment takes on a set of positions
      are as many as the positions. */
  lemma {:induction false} InjectiveImage(P: set<int>, zl: seq<int>)
    requires forall k :: k in P ==> 0 <= k < |zl|
    requires forall a, b :: 0 <= a < |zl| && 0 <= b < |zl| && a != b ==> zl[a] != zl[b]
    ensures |set k | k in P :: zl[k]| == |P|
    decreases |P|
  {
    if P != {} {
      HasMember(P);
      var x :| x in P;
      var Q := P - {x};
      InjectiveImage(Q, zl);
      var img := set k | k in Q :: zl[k];
      assert (set k | k in P :: zl[k]) == img + {zl[x]};
      assert zl[x] !in img;
    }
  }

  /** Pigeonhole: when a group of |U| distinct entries all take values in U,
      they take every value of U, so no other entry of the line can take a
      value of U. */
  lemma OutsideMisses(P: set<int>, zl: seq<int>, u: set<int>, k: int)
    requires forall m :: m in P ==> 0 <= m < |zl| && zl[m] in u
    requires forall a, b :: 0 <= a < |zl| && 0 <= b < |zl| && a != b ==> zl[a] != zl[b]
    requires |P| == |u| && 0 <= k < |zl| && k !in P
    ensures zl[k] !in u
  {
    InjectiveImage(P, zl);
    var img := set m | m in P :: zl[m];
    SubsetCard(img, u);
    assert img == u;
    assert forall m :: m in P ==> zl[m] != zl[k];
  }

  /** A line assignment zl of distinct digits, each still a candidate of its
      open entry, keeps that property through the scan: a naked subset never
      strikes a digit the line's solution needs. */
  lemma UnionVectorSound(sol: seq<Option<int>>, es: seq<set<int>>, zl: seq<int>)
    requires |sol| == |es| == |zl|
    requires forall a, b :: 0 <= a < |zl| && 0 <= b < |zl| && a != b ==> zl[a] != zl[b]
    requires forall k :: 0 <= k < |es| && sol[k].None? ==> zl[k] in es[k]
    ensures forall k :: 0 <= k < |es| && sol[k].None? ==> zl[k] in UnionVector(sol, es).0[k]
  {
    var L := OpenIndices(sol);
    forall k | 0 <= k < |es| && sol[k].None?
      ensures zl[k] !in Eliminated(es, L, k)
    {
      forall u | u in PairUnions(es, L) && Locked(es, L, u) && k !in Partners(es, L, u)
        ensures zl[k] !in u
      {
        PartnersWithin(sol, es, u);
        OutsideMisses(Partners(es, L, u), zl, u, k);
      }
    }
  }

  // ---------------------------------------------------------------------
  // Rows, columns and the whole scan.

  /** Column c of a 9x9 grid, as the list the column scan copies out. */
  function Column<T>(g: seq<seq<T>>, c: int): (col: seq<T>)
    requires Square(g) && 0 <= c < 9
    ensures |col| == 9 && forall i :: 0 <= i < 9 ==> col[i] == g[i][c]
  {
    seq(9, i requires 0 <= i < 9 => g[i][c])
  }

  /** The grid with column c replaced: the column scan's write-back. */
  ghost function WriteColumn(g: seq<seq<set<int>>>, c: int, col: seq<set<int>>): (h: seq<seq<set<int>>>)
    requires Square(g) && 0 <= c < 9 && |col| == 9
    ensures Square(h)
    ensures forall i, j :: 0 <= i < 9 && 0 <= j < 9 ==> h[i][j] == if j == c then col[i] else g[i][j]
  {
    seq(9, i requires 0 <= i < 9 => g[i][c := col[i]])
  }

  /** union_pair_scan_rows from row r on: each row is scanned in place and
      the scan stops at the first row that made progress. */
  ghost function UnionRowsFrom(sol: seq<seq<Option<int>>>, g: seq<seq<set<int>>>, r: int): (res: (seq<seq<set<int>>>, bool))
    requires Square(sol) && Square(g) && 0 <= r <= 9
    ensures Square(res.0)
    decreases 9 - r
  {
    if r == 9 then (g, false)
    else
      var (o, f) := UnionVector(sol[r], g[r]);
      var h := g[r := o];
      if f then (h, true) else UnionRowsFrom(sol, h, r + 1)
  }

  /** union_pair_scan_cols from column c on: each column is copied out and
      scanned, and written back only when it made progress, which ends the
      scan. */
  ghost function UnionColsFrom(sol: seq<seq<Option<int>>>, g: seq<seq<set<int>>>, c: int): (res: (seq<seq<set<int>>>, bool))
    requires Square(sol) && Square(g) && 0 <= c <= 9
    ensures Square(res.0)
    decreases 9 - c
  {
    if c == 9 then (g, false)
    else
      var (o, f) := UnionVector(Column(sol, c), Column(g, c));
      if f then (WriteColumn(g, c, o), true) else UnionColsFrom(sol, g, c + 1)
  }

  /** union_pair_scan: rows first; columns only when no row made progress. */
  ghost function UnionScan(sol: seq<seq<Option<int>>>, g: seq<seq<set<int>>>): (seq<seq<set<int>>>, bool)
    requires Square(sol) && Square(g)
  {
    var (h, f) := UnionRowsFrom(sol, g, 0);
    if f then (h, true) else UnionColsFrom(sol, h, 0)
  }

  /** A row without progress is left as it was. */
  lemma RowQuiet(sol: seq<seq<Option<int>>>, g: seq<seq<set<int>>>, r: int)
    requires Square(sol) && Square(g) && 0 <= r < 9 && !UnionVector(sol[r], g[r]).1
    ensures UnionRowsFrom(sol, g, r) == UnionRowsFrom(sol, g, r + 1)
  {
    assert g[r := UnionVector(sol[r], g[r]).0] == g;
  }

  /** The row scan from r on stops at the first row q >= r with progress and
      returns the grid with that row rewritten. */
  lemma {:induction false} RowsFirst(sol: seq<seq<Option<int>>>, g: seq<seq<set<int>>>, r: int, q: int)
    requires Square(sol) && Square(g) && 0 <= r <= q < 9
    requires forall p :: r <= p < q ==> !UnionVector(sol[p], g[p]).1
    requires UnionVector(sol[q], g[q]).1
    ensures UnionRowsFrom(sol, g, r) == (g[q := UnionVector(sol[q], g[q]).0], true)
    decreases q - r
  {
    if r < q {
      RowQuiet(sol, g, r);
      RowsFirst(sol, g, r + 1, q);
    }
  }

  /** Without progress in any row from r on, the row scan changes nothing. */
  lemma {:induction false} RowsNone(sol: seq<seq<Option<int>>>, g: seq<seq<set<int>>>, r: int)
    requires Square(sol) && Square(g) && 0 <= r <= 9
    requires forall p :: r <= p < 9 ==> !UnionVector(sol[p], g[p]).1
    ensures UnionRowsFrom(sol, g, r) == (g, false)
    decreases 9 - r
  {
    if r < 9 {
      RowQuiet(sol, g, r);
      RowsNone(sol, g, r + 1);
    }
  }

  /** The column scan from c on stops at the first column q >= c with
      progress and writes back that column alone. */
  lemma {:induction false} ColsFirst(sol: seq<seq<Option<int>>>, g: seq<seq<set<int>>>, c: int, q: int)
    requires Square(sol) && Square(g) && 0 <= c <= q < 9
    requires forall p :: c <= p < q ==> !UnionVector(Column(sol, p), Column(g, p)).1
    requires UnionVector(Column(sol, q), Column(g, q)).1
    ensures UnionColsFrom(sol, g, c) == (WriteColumn(g, q, UnionVector(Column(sol, q), Column(g, q)).0), true)
    decreases q - c
  {
    if c < q {
      ColsFirst(sol, g, c + 1, q);
    }
  }

  /** Without progress in any column from c on, the column scan changes
      nothing. */
  lemma {:induction false} ColsNone(sol: seq<seq<Option<int>>>, g: seq<seq<set<int>>>, c: int)
    requires Square(sol) && Square(g) && 0 <= c <= 9
    requires forall p :: c <= p < 9 ==> !UnionVector(Column(sol, p), Column(g, p)).1
    ensures UnionColsFrom(sol, g, c) == (g, false)
    decreases 9 - c
  {
    if c < 9 {
      ColsNone(sol, g, c + 1);
    }
  }

  /** union_pair_scan rewrites the first row q with progress and stops. */
  lemma UnionScanRowFirst(sol: seq<seq<Option<int>>>, g: seq<seq<set<int>>>, q: int)
    requires Square(sol) && Square(g) && 0 <= q < 9
    requires forall p :: 0 <= p < q ==> !UnionVector(sol[p], g[p]).1
    requires UnionVector(sol[q], g[q]).1
    ensures UnionScan(sol, g) == (g[q := UnionVector(sol[q], g[q]).0], true)
  {
    RowsFirst(sol, g, 0, q);
  }

  /** When no row has progress, union_pair_scan writes back the first column
      q with progress and stops. */
  lemma UnionScanColFirst(sol: seq<seq<Option<int>>>, g: seq<seq<set<int>>>, q: int)
    requires Square(sol) && Square(g) && 0 <= q < 9
    requires forall p :: 0 <= p < 9 ==> !UnionVector(sol[p], g[p]).1
    requires forall p :: 0 <= p < q ==> !UnionVector(Column(sol, p), Column(g, p)).1
    requires UnionVector(Column(sol, q), Column(g, q)).1
    ensures UnionScan(sol, g) == (WriteColumn(g, q, UnionVector(Column(sol, q), Column(g, q)).0), true)
  {
    RowsNone(sol, g, 0);
    ColsFirst(sol, g, 0, q);
  }

  /** When no line has progress, union_pair_scan returns False and changes
      nothing. */
  lemma UnionScanQuiet(sol: seq<seq<Option<int>>>, g: seq<seq<set<int>>>)
    requires Square(sol) && Square(g)
    requires forall p :: 0 <= p < 9 ==> !UnionVector(sol[p], g[p]).1
    requires forall p :: 0 <= p < 9 ==> !UnionVector(Column(sol, p), Column(g, p)).1
    ensures UnionScan(sol, g) == (g, false)
  {
    RowsNone(sol, g, 0);
    ColsNone(sol, g, 0);
  }

  // ---------------------------------------------------------------------
  // Progress and soundness of the whole scan.

  /** A rewritten row only loses candidates, and differs exactly when the
      row scan reported progress. */
  lemma RowStep(sol: seq<seq<Option<int>>>, g: seq<seq<set<int>>>, r: int)
    requires Square(sol) && Square(g) && 0 <= r < 9
    ensures var (o, f) := UnionVector(sol[r], g[r]);
      Shrinks(g, g[r := o]) && (f <==> g[r := o] != g)
  {
    var (o, f) := UnionVector(sol[r], g[r]);
    UnionVectorShrinks(sol[r], g[r]);
    if g[r := o] == g {
      assert o == g[r];
    }
  }

  /** A written-back column only loses candidates, and differs exactly when
      the column scan reported progress. */
  lemma ColStep(sol: seq<seq<Option<int>>>, g: seq<seq<set<int>>>, c: int)
    requires Square(sol) && Square(g) && 0 <= c < 9
    ensures var (o, f) := UnionVector(Column(sol, c), Column(g, c));
      Shrinks(g, WriteColumn(g, c, o)) && (f <==> WriteColumn(g, c, o) != g)
  {
    var (o, f) := UnionVector(Column(sol, c), Column(g, c));
    var col := Column(g, c);
    UnionVectorShrinks(Column(sol, c), col);
    var h := WriteColumn(g, c, o);
    assert Column(h, c) == o;
    if o == col {
      forall i | 0 <= i < 9 ensures h[i] == g[i] {
        assert h[i] == g[i][c := col[i]];
      }
      assert h == g;
    }
  }

  lemma {:induction false} RowsProgress(sol: seq<seq<Option<int>>>, g: seq<seq<set<int>>>, r: int)
    requires Square(sol) && Square(g) && 0 <= r <= 9
    ensures var (h, f) := UnionRowsFrom(sol, g, r);
      Shrinks(g, h) && (f <==> h != g)
    decreases 9 - r
  {
    if r < 9 {
      var (o, f) := UnionVector(sol[r], g[r]);
      RowStep(sol, g, r);
      if !f {
        RowsProgress(sol, g[r := o], r + 1);
      }
    }
  }

  lemma {:induction false} ColsProgress(sol: seq<seq<Option<int>>>, g: seq<seq<set<int>>>, c: int)
    requires Square(sol) && Square(g) && 0 <= c <= 9
    ensures var (h, f) := UnionColsFrom(sol, g, c);
      Shrinks(g, h) && (f <==> h != g)
    decreases 9 - c
  {
    if c < 9 {
      ColStep(sol, g, c);
      ColsProgress(sol, g, c + 1);
    }
  }

  /** The row scans leave the candidate set of every placed cell as it was. */
  lemma {:induction false} RowsKeepPlaced(sol: seq<seq<Option<int>>>, g: seq<seq<set<int>>>, r: int)
    requires Square(sol) && Square(g) && 0 <= r <= 9
    ensures PlacedKept(sol, g, UnionRowsFrom(sol, g, r).0)
    decreases 9 - r
  {
    if r < 9 {
      var v := UnionVector(sol[r], g[r]);
      UnionVectorShrinks(sol[r], g[r]);
      if !v.1 {
        RowsKeepPlaced(sol, g[r := v.0], r + 1);
      }
    }
  }

  /** The column scans leave the candidate set of every placed cell as it
      was. */
  lemma {:induction false} ColsKeepPlaced(sol: seq<seq<Option<int>>>, g: seq<seq<set<int>>>, c: int)
    requires Square(sol) && Square(g) && 0 <= c <= 9
    ensures PlacedKept(sol, g, UnionColsFrom(sol, g, c).0)
    decreases 9 - c
  {
    if c < 9 {
      UnionVectorShrinks(Column(sol, c), Column(g, c));
      ColsKeepPlaced(sol, g, c + 1);
    }
  }

  /** union_pair_scan only strikes from open cells: every placed cell keeps
      its candidate set. */
  lemma UnionScanKeepsPlaced(sol: seq<seq<Option<int>>>, g: seq<seq<set<int>>>)
    requires Square(sol) && Square(g)
    ensures PlacedKept(sol, g, UnionScan(sol, g).0)
  {
    RowsKeepPlaced(sol, g, 0);
    var h := UnionRowsFrom(sol, g, 0);
    if !h.1 {
      ColsKeepPlaced(sol, h.0, 0);
    }
  }

  /** union_pair_scan returns True exactly when it struck some candidate; it
      only strikes, so the candidate count then drops; a False return leaves
      the grid as it was. */
  lemma {:induction false} UnionScanFlag(sol: seq<seq<Option<int>>>, g: seq<seq<set<int>>>)
    requires Square(sol) && Square(g)
    ensures Shrinks(g, UnionScan(sol, g).0)
    ensures UnionScan(sol, g).1 <==> UnionScan(sol, g).0 != g
    ensures UnionScan(sol, g).1 ==> Total(UnionScan(sol, g).0) < Total(g)
  {
    RowsProgress(sol, g, 0);
    var (h, f) := UnionRowsFrom(sol, g, 0);
    if !f {
      ColsProgress(sol, h, 0);
    }
    TotalShrinks(g, UnionScan(sol, g).0);
  }

  /** State s with its candidate grid replaced by h. */
  ghost function WithCands(s: State, h: seq<seq<set<int>>>): State
  {
    s.(cands := h)
  }

  /** Scanning one row keeps a state sound for a solution z. */
  lemma RowSound(s: State, r: int, z: seq<seq<int>>)
    requires Valid(s) && Sound(s, z) && IsSolutionGrid(z) && 0 <= r < 9
    ensures Sound(WithCands(s, s.cands[r := UnionVector(s.solution[r], s.cands[r]).0]), z)
  {
    var o := UnionVector(s.solution[r], s.cands[r]).0;
    UnionVectorSound(s.solution[r], s.cands[r], z[r]);
    var t := WithCands(s, s.cands[r := o]);
    forall i, j {:trigger t.solution[i][j]} | 0 <= i < 9 && 0 <= j < 9 && t.solution[i][j].None?
      ensures z[i][j] in t.cands[i][j]
    {
      if i == r {
        assert z[r][j] in o[j];
      }
    }
  }

  /** Scanning one column keeps a state sound for a solution z. */
  lemma ColSound(s: State, c: int, z: seq<seq<int>>)
    requires Valid(s) && Sound(s, z) && IsSolutionGrid(z) && 0 <= c < 9
    ensures Sound(WithCands(s, WriteColumn(s.cands, c, UnionVector(Column(s.solution, c), Column(s.cands, c)).0)), z)
  {
    var o := UnionVector(Column(s.solution, c), Column(s.cands, c)).0;
    var zc := Column(z, c);
    UnionVectorSound(Column(s.solution, c), Column(s.cands, c), zc);
    var t := WithCands(s, WriteColumn(s.cands, c, o));
    forall i, j {:trigger t.solution[i][j]} | 0 <= i < 9 && 0 <= j < 9 && t.solution[i][j].None?
      ensures z[i][j] in t.cands[i][j]
    {
      if j == c {
        assert zc[i] in o[i];
      }
    }
  }

  lemma {:induction false} RowsSound(s: State, r: int, z: seq<seq<int>>)
    requires Valid(s) && Sound(s, z) && IsSolutionGrid(z) && 0 <= r <= 9
    ensures Sound(WithCands(s, UnionRowsFrom(s.solution, s.cands, r).0), z)
    decreases 9 - r
  {
    if r < 9 {
      var (o, f) := UnionVector(s.solution[r], s.cands[r]);
      RowSound(s, r, z);
      RowStep(s.solution, s.cands, r);
      if !f {
        var t := WithCands(s, s.cands[r := o]);
        NarrowKeepsValid(s, t.cands);
        RowsSound(t, r + 1, z);
      }
    }
  }

  lemma {:induction false} ColsSound(s: State, c: int, z: seq<seq<int>>)
    requires Valid(s) && Sound(s, z) && IsSolutionGrid(z) && 0 <= c <= 9
    ensures Sound(WithCands(s, UnionColsFrom(s.solution, s.cands, c).0), z)
    decreases 9 - c
  {
    if c < 9 {
      ColSound(s, c, z);
      ColsSound(s, c + 1, z);
    }
  }

  /** The naked-subset scan keeps the solver invariant, changes only
      candidate sets, and never rules out a solution of the puzzle. */
  lemma UnionScanSound(s: State, z: seq<seq<int>>)
    requires Valid(s)
    ensures Valid(WithCands(s, UnionScan(s.solution, s.cands).0))
    ensures Settled(s) ==> Settled(WithCands(s, UnionScan(s.solution, s.cands).0))
    ensures Sound(s, z) && IsSolutionGrid(z) ==> Sound(WithCands(s, UnionScan(s.solution, s.cands).0), z)
  {
    UnionScanFlag(s.solution, s.cands);
    NarrowKeepsValid(s, UnionScan(s.solution, s.cands).0);
    if Sound(s, z) && IsSolutionGrid(z) {
      RowsSound(s, 0, z);
      var (h, f) := UnionRowsFrom(s.solution, s.cands, 0);
      if !f {
        RowsProgress(s.solution, s.cands, 0);
        ColsSound(s, 0, z);
      }
    }
  }
}
