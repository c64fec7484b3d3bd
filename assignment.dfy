/** Assignment operator (remove_element): commit a digit to a cell. */
module Assignment {
  import opened Blocks
  import opened Grid

  /** remove_element(i, j, r): if (i, j) is open, place r there and strike r
      from the cell's candidates and from its row, column and block sets
      (each strike is a no-op when r is already absent); a placed cell is
      left alone. The flag reports whether the cell was open. The source's
      second guard (solution[i][j] == r) is only reached when the cell is
      open, so it never fires and has no counterpart here. */
  ghost function Assign(s: State, i: int, j: int, r: int): (res: (State, bool))
    requires Shaped(s) && 0 <= i < 9 && 0 <= j < 9
    ensures Shaped(res.0)
    ensures res.1 == s.solution[i][j].None?
  {
    if s.solution[i][j].Some? then (s, false)
    else
      var b := BlockOf(i, j);
      (State(s.solution[i := s.solution[i][j := Some(r)]],
             s.cands[i := s.cands[i][j := s.cands[i][j] - {r}]],
             s.rowSets[i := s.rowSets[i] - {r}],
             s.colSets[j := s.colSets[j] - {r}],
             s.blockSets[b := s.blockSets[b] - {r}]),
       true)
  }

  /** On a cell that already holds a digit nothing changes. */
  lemma AssignPlaced(s: State, i: int, j: int, r: int)
    requires Shaped(s) && 0 <= i < 9 && 0 <= j < 9 && s.solution[i][j].Some?
    ensures Assign(s, i, j, r) == (s, false)
  {
  }

  /** On an open cell r is placed and made absent from the cell and its three
      peer sets, and no other cell and no other peer set changes. */
  lemma AssignOpen(s: State, i: int, j: int, r: int)
    requires Shaped(s) && 0 <= i < 9 && 0 <= j < 9 && s.solution[i][j].None?
    ensures var t := Assign(s, i, j, r).0;
      t.solution[i][j] == Some(r) &&
      t.cands[i][j] == s.cands[i][j] - {r} &&
      t.rowSets[i] == s.rowSets[i] - {r} &&
      t.colSets[j] == s.colSets[j] - {r} &&
      t.blockSets[BlockOf(i, j)] == s.blockSets[BlockOf(i, j)] - {r} &&
      (forall k, l :: 0 <= k < 9 && 0 <= l < 9 && (k != i || l != j) ==>
         t.solution[k][l] == s.solution[k][l] && t.cands[k][l] == s.cands[k][l]) &&
      (forall k :: 0 <= k < 9 && k != i ==> t.rowSets[k] == s.rowSets[k]) &&
      (forall k :: 0 <= k < 9 && k != j ==> t.colSets[k] == s.colSets[k]) &&
      (forall k :: 0 <= k < 9 && k != BlockOf(i, j) ==> t.blockSets[k] == s.blockSets[k])
  {
  }

  /** Assignment only strikes candidates and never replaces a placed digit. */
  lemma AssignShrinks(s: State, i: int, j: int, r: int)
    requires Shaped(s) && 0 <= i < 9 && 0 <= j < 9
    ensures Shrinks(s.cands, Assign(s, i, j, r).0.cands)
    ensures Extends(s.solution, Assign(s, i, j, r).0.solution)
  {
  }

  /** Placing a digit keeps the solver invariant when the digit is the
      cell's only remaining candidate (as the relaxation pass guarantees):
      the placed digit leaves its peer sets, and the cell keeps at most that
      digit. */
  lemma AssignKeepsValid(s: State, i: int, j: int, r: int)
    requires Valid(s) && 0 <= i < 9 && 0 <= j < 9
    requires r in Digits && s.cands[i][j] <= {r}
    ensures Valid(Assign(s, i, j, r).0)
  {
    var t := Assign(s, i, j, r).0;
    if s.solution[i][j].None? {
      forall k, l | 0 <= k < 9 && 0 <= l < 9 && t.solution[k][l].Some?
        ensures t.solution[k][l].value !in t.rowSets[k]
        ensures t.solution[k][l].value !in t.colSets[l]
        ensures t.solution[k][l].value !in t.blockSets[BlockOf(k, l)]
      {
        if k != i || l != j {
          assert t.solution[k][l] == s.solution[k][l];
        }
      }
    }
  }

  /** Placing the digit that a solution z has at the cell keeps the state
      sound for z: z's digits at the other open cells of the row, column and
      block differ from it, so they stay in the peer sets. */
  lemma AssignSound(s: State, i: int, j: int, z: seq<seq<int>>)
    requires Sound(s, z) && IsSolutionGrid(z) && 0 <= i < 9 && 0 <= j < 9
    ensures Sound(Assign(s, i, j, z[i][j]).0, z)
  {
    var r := z[i][j];
    var t := Assign(s, i, j, r).0;
    if s.solution[i][j].None? {
      forall k, l | 0 <= k < 9 && 0 <= l < 9 && t.solution[k][l].None?
        ensures z[k][l] in t.cands[k][l]
        ensures z[k][l] in t.rowSets[k] && z[k][l] in t.colSets[l]
        ensures z[k][l] in t.blockSets[BlockOf(k, l)]
      {
        assert k != i || l != j;
        assert z[k][l] in s.cands[k][l];
        if k == i { assert z[k][l] != r; }
        if l == j { assert z[k][l] != r; }
        if BlockOf(k, l) == BlockOf(i, j) { assert z[k][l] != r; }
      }
    }
  }
}
