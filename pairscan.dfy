/** union_pair_scan_vector as the source carries it out: it lists the open
    positions of the line, fills a dictionary from each pair union to the
    pairs that produced it, then walks the dictionary and strikes every
    locked union from the open entries outside its group. The method takes
    the line's slices by value and returns the new candidate slice; the
    callers store it back. */
module PairScan {
  import opened Grid
  import opened NakedSubsets

  /** The nested loops visit pair (a, b) before pair (p, q). */
  ghost predicate Before(a: int, b: int, p: int, q: int)
  {
    a < p || (a == p && b < q)
  }

  /** The keys the dictionary holds once every pair before (p, q) is in. */
  ghost function UnionsBefore(es: seq<set<int>>, L: seq<int>, p: int, q: int): set<set<int>>
    requires Positions(L, |es|)
  {
    set a, b | 0 <= a < b < |L| && Before(a, b, p, q) :: es[L[a]] + es[L[b]]
  }

  /** The entries of the pairs before (p, q) whose union is u. */
  ghost function PartnersBefore(es: seq<set<int>>, L: seq<int>, u: set<int>, p: int, q: int): set<int>
    requires Positions(L, |es|)
  {
    EndsBefore(es, L, u, p, q, true) + EndsBefore(es, L, u, p, q, false)
  }

  /** The first (first) or second (not first) entries of the pairs before
      (p, q) whose union is u. */
  ghost function EndsBefore(es: seq<set<int>>, L: seq<int>, u: set<int>, p: int, q: int, first: bool): set<int>
    requires Positions(L, |es|)
  {
    set a, b | 0 <= a < b < |L| && Before(a, b, p, q) && es[L[a]] + es[L[b]] == u :: if first then L[a] else L[b]
  }

  /** The entries named by a list of pairs. */
  ghost function Ends(ps: seq<(int, int)>): set<int>
  {
    if ps == [] then {} else Ends(ps[..|ps| - 1]) + {ps[|ps| - 1].0, ps[|ps| - 1].1}
  }

  /** The line once the groups keyed by keys have been applied: each open
      entry loses the digits of the locked unions whose group it is not in. */
  ghost function StruckBy(sol: seq<Option<int>>, es: seq<set<int>>, L: seq<int>, keys: set<set<int>>): (r: seq<set<int>>)
    requires |sol| == |es| && Positions(L, |es|)
    ensures |r| == |es|
  {
    seq(|es|, k requires 0 <= k < |es| =>
      if sol[k].None? then es[k] - Flatten(LockedIn(es, L, k, keys)) else es[k])
  }

  /** The line with the digits of u struck from the positions in S. */
  ghost function StrikeAt(line: seq<set<int>>, u: set<int>, S: set<int>): (r: seq<set<int>>)
    ensures |r| == |line|
  {
    seq(|line|, k requires 0 <= k < |line| => if k in S then line[k] - u else line[k])
  }

  /** The dictionary holds, for every pair before (p, q), its union as a key,
      and under each key the pairs of that key's group. */
  ghost predicate GroupedBefore(es: seq<set<int>>, L: seq<int>, m: map<set<int>, seq<(int, int)>>, p: int, q: int)
    requires Positions(L, |es|)
  {
    m.Keys == UnionsBefore(es, L, p, q) &&
    forall u :: u in m ==> Ends(m[u]) == PartnersBefore(es, L, u, p, q)
  }

  lemma EndsAppend(ps: seq<(int, int)>, e: (int, int))
    ensures Ends(ps + [e]) == Ends(ps) + {e.0, e.1}
  {
    assert (ps + [e])[..|ps|] == ps;
  }

  /** A non-empty family of sets has a member. */
  lemma HasKey(family: set<set<int>>)
    requires family != {}
    ensures exists u :: u in family
  {
    if forall u :: u !in family {
      assert false;
    }
  }

  lemma UnionsStep(es: seq<set<int>>, L: seq<int>, p: int, q: int)
    requires Positions(L, |es|) && 0 <= p && p + 1 < q <= |L|
    ensures UnionsBefore(es, L, p, q) == UnionsBefore(es, L, p, q - 1) + {es[L[p]] + es[L[q - 1]]}
  {
    assert Before(p, q - 1, p, q);
  }

  lemma PartnersStep(es: seq<set<int>>, L: seq<int>, u: set<int>, p: int, q: int)
    requires Positions(L, |es|) && 0 <= p && p + 1 < q <= |L|
    ensures PartnersBefore(es, L, u, p, q) ==
      PartnersBefore(es, L, u, p, q - 1) + (if es[L[p]] + es[L[q - 1]] == u then {L[p], L[q - 1]} else {})
  {
    EndsStep(es, L, u, p, q, true);
    EndsStep(es, L, u, p, q, false);
  }

  /** One half of PartnersStep: the pair (p, q - 1) adds its own end. */
  lemma EndsStep(es: seq<set<int>>, L: seq<int>, u: set<int>, p: int, q: int, first: bool)
    requires Positions(L, |es|) && 0 <= p && p + 1 < q <= |L|
    ensures EndsBefore(es, L, u, p, q, first) ==
      EndsBefore(es, L, u, p, q - 1, first) +
      (if es[L[p]] + es[L[q - 1]] == u then {if first then L[p] else L[q - 1]} else {})
  {
    assert Before(p, q - 1, p, q);
  }

  /** A union no earlier pair produced has no entries yet. */
  lemma PartnersAbsent(es: seq<set<int>>, L: seq<int>, u: set<int>, p: int, q: int)
    requires Positions(L, |es|) && u !in UnionsBefore(es, L, p, q)
    ensures PartnersBefore(es, L, u, p, q) == {}
  {
  }

  lemma NoneBefore(es: seq<set<int>>, L: seq<int>)
    requires Positions(L, |es|)
    ensures UnionsBefore(es, L, 0, 1) == {}
  {
  }

  lemma Turn(es: seq<set<int>>, L: seq<int>, p: int, q: int)
    requires Positions(L, |es|) && 0 < p <= |L| && q == p + 1
    ensures UnionsBefore(es, L, p - 1, |L|) == UnionsBefore(es, L, p, q)
    ensures forall u :: PartnersBefore(es, L, u, p - 1, |L|) == PartnersBefore(es, L, u, p, q)
  {
  }

  lemma AllIn(es: seq<set<int>>, L: seq<int>)
    requires Positions(L, |es|)
    ensures UnionsBefore(es, L, |L|, |L| + 1) == PairUnions(es, L)
    ensures forall u :: PartnersBefore(es, L, u, |L|, |L| + 1) == Partners(es, L, u)
  {
  }

  /** Before the first pair the dictionary is empty. */
  lemma GroupedStart(es: seq<set<int>>, L: seq<int>)
    requires Positions(L, |es|)
    ensures GroupedBefore(es, L, map[], 0, 1)
  {
    NoneBefore(es, L);
  }

  /** The end of row p - 1 of the pair order is the start (p, q) of row p. */
  lemma GroupedTurn(es: seq<set<int>>, L: seq<int>, m: map<set<int>, seq<(int, int)>>, p: int, q: int)
    requires Positions(L, |es|) && 0 < p <= |L| && q == p + 1 && GroupedBefore(es, L, m, p - 1, |L|)
    ensures GroupedBefore(es, L, m, p, q)
  {
    Turn(es, L, p, q);
  }

  /** Once every pair is in, the dictionary holds every pair union, each
      with its whole group. */
  lemma GroupedAll(es: seq<set<int>>, L: seq<int>, m: map<set<int>, seq<(int, int)>>)
    requires Positions(L, |es|) && GroupedBefore(es, L, m, |L|, |L| + 1)
    ensures m.Keys == PairUnions(es, L)
    ensures forall u :: u in m ==> Ends(m[u]) == Partners(es, L, u)
  {
    AllIn(es, L);
  }

  lemma FlattenAdd(family: set<set<int>>, u: set<int>)
    ensures Flatten(family + {u}) == Flatten(family) + u
  {
    forall d | d in Flatten(family + {u})
      ensures d in Flatten(family) + u
    {
      var w :| w in family + {u} && d in w;
      if w != u {
        assert d in Flatten(family);
      }
    }
    forall d | d in u
      ensures d in Flatten(family + {u})
    {
      assert u in family + {u};
    }
  }

  lemma LockedInAdd(es: seq<set<int>>, L: seq<int>, k: int, keys: set<set<int>>, u: set<int>)
    requires Positions(L, |es|)
    ensures LockedIn(es, L, k, keys + {u}) ==
      LockedIn(es, L, k, keys) + (if Locked(es, L, u) && k !in Partners(es, L, u) then {u} else {})
  {
  }

  /** match_sets[key].append(e), with a missing key starting empty. */
  ghost function Insert(m: map<set<int>, seq<(int, int)>>, key: set<int>, e: (int, int)): map<set<int>, seq<(int, int)>>
  {
    m[key := (if key in m then m[key] else []) + [e]]
  }

  /** match_sets once the nested loops have inserted every pair before
      (p, q). */
  ghost function GroupsBefore(es: seq<set<int>>, L: seq<int>, p: int, q: int): map<set<int>, seq<(int, int)>>
    requires Positions(L, |es|) && 0 <= p <= |L| && p + 1 <= q && (q <= |L| || q == p + 1)
    decreases p, q
  {
    if q > p + 1 then Insert(GroupsBefore(es, L, p, q - 1), es[L[p]] + es[L[q - 1]], (L[p], L[q - 1]))
    else if p == 0 then map[]
    else GroupsBefore(es, L, p - 1, |L|)
  }

  lemma {:induction false} GroupsBeforeGrouped(es: seq<set<int>>, L: seq<int>, p: int, q: int)
    requires Positions(L, |es|) && 0 <= p <= |L| && p + 1 <= q && (q <= |L| || q == p + 1)
    ensures GroupedBefore(es, L, GroupsBefore(es, L, p, q), p, q)
    decreases p, q
  {
    if q > p + 1 {
      GroupsBeforeGrouped(es, L, p, q - 1);
      GroupsBeforeNext(es, L, p, q);
    } else if p == 0 {
      GroupedStart(es, L);
    } else {
      GroupsBeforeGrouped(es, L, p - 1, |L|);
      GroupsBeforeTurn(es, L, p, q);
    }
  }

  /** The step from (p, q - 1) to (p, q) within row p of the pair order. */
  lemma GroupsBeforeNext(es: seq<set<int>>, L: seq<int>, p: int, q: int)
    requires Positions(L, |es|) && 0 <= p && p + 1 < q <= |L|
    requires GroupedBefore(es, L, GroupsBefore(es, L, p, q - 1), p, q - 1)
    ensures GroupedBefore(es, L, GroupsBefore(es, L, p, q), p, q)
  {
    GroupedStep(es, L, GroupsBefore(es, L, p, q - 1), p, q);
  }

  /** The step from the end of row p - 1 to the start (p, q) of row p. */
  lemma GroupsBeforeTurn(es: seq<set<int>>, L: seq<int>, p: int, q: int)
    requires Positions(L, |es|) && 0 < p <= |L| && q == p + 1
    requires GroupedBefore(es, L, GroupsBefore(es, L, p - 1, |L|), p - 1, |L|)
    ensures GroupedBefore(es, L, GroupsBefore(es, L, p, q), p, q)
  {
    GroupedTurn(es, L, GroupsBefore(es, L, p - 1, |L|), p, q);
  }

  /** Applying one more group to entry k strikes its union from the entry
      exactly when the group is locked, k is open and k is not in it. */
  lemma GroupStepAt(sol: seq<Option<int>>, es: seq<set<int>>, L: seq<int>, keys: set<set<int>>, u: set<int>, k: int)
    requires |sol| == |es| && Positions(L, |es|) && 0 <= k < |es|
    ensures StruckBy(sol, es, L, keys + {u})[k] ==
      StruckBy(sol, es, L, keys)[k] -
      (if sol[k].None? && Locked(es, L, u) && k !in Partners(es, L, u) then u else {})
  {
    LockedInAdd(es, L, k, keys, u);
    if Locked(es, L, u) && k !in Partners(es, L, u) {
      FlattenAdd(LockedIn(es, L, k, keys), u);
    }
  }

  /** Applying one more group strikes its union from the open entries
      outside its group when it is locked, and changes nothing otherwise. */
  lemma GroupStep(sol: seq<Option<int>>, es: seq<set<int>>, L: seq<int>, keys: set<set<int>>, u: set<int>)
    requires |sol| == |es| && L == OpenIndices(sol)
    ensures StruckBy(sol, es, L, keys + {u}) ==
      if Locked(es, L, u) then StrikeAt(StruckBy(sol, es, L, keys), u, (set x | x in L) - Partners(es, L, u))
      else StruckBy(sol, es, L, keys)
  {
    var before := StruckBy(sol, es, L, keys);
    var after := StruckBy(sol, es, L, keys + {u});
    var P := Partners(es, L, u);
    var pool := (set x | x in L) - P;
    if Locked(es, L, u) {
      var struck := StrikeAt(before, u, pool);
      forall k | 0 <= k < |es|
        ensures after[k] == struck[k]
      {
        GroupStepAt(sol, es, L, keys, u, k);
        assert k in pool <==> sol[k].None? && k !in P;
      }
      assert after == struck;
    } else {
      forall k | 0 <= k < |es|
        ensures after[k] == before[k]
      {
        GroupStepAt(sol, es, L, keys, u, k);
      }
      assert after == before;
    }
  }

  /** No group applied: the line as it was. */
  lemma StruckNone(sol: seq<Option<int>>, es: seq<set<int>>, L: seq<int>)
    requires |sol| == |es| && Positions(L, |es|)
    ensures StruckBy(sol, es, L, {}) == es
  {
    forall k | 0 <= k < |es|
      ensures StruckBy(sol, es, L, {})[k] == es[k]
    {
      assert LockedIn(es, L, k, {}) == {};
      assert Flatten({}) == {};
    }
  }

  /** Every group applied: the line UnionVector describes. */
  lemma StruckAll(sol: seq<Option<int>>, es: seq<set<int>>)
    requires |sol| == |es|
    ensures StruckBy(sol, es, OpenIndices(sol), PairUnions(es, OpenIndices(sol))) == UnionVector(sol, es).0
  {
  }

  /** Applying groups only strikes candidates. */
  lemma StruckShrinks(sol: seq<Option<int>>, es: seq<set<int>>, L: seq<int>, keys: set<set<int>>)
    requires |sol| == |es| && Positions(L, |es|)
    ensures forall k :: 0 <= k < |es| ==> StruckBy(sol, es, L, keys)[k] <= es[k]
  {
  }

  /** Inserting pair (p, q - 1) under its union moves the dictionary one
      pair on, to the pairs before (p, q). */
  lemma GroupedStep(es: seq<set<int>>, L: seq<int>, m: map<set<int>, seq<(int, int)>>, p: int, q: int)
    requires Positions(L, |es|) && 0 <= p && p + 1 < q <= |L| && GroupedBefore(es, L, m, p, q - 1)
    ensures GroupedBefore(es, L, Insert(m, es[L[p]] + es[L[q - 1]], (L[p], L[q - 1])), p, q)
  {
    var key := es[L[p]] + es[L[q - 1]];
    var n := Insert(m, key, (L[p], L[q - 1]));
    UnionsStep(es, L, p, q);
    assert n.Keys == m.Keys + {key};
    forall u | u in n
      ensures Ends(n[u]) == PartnersBefore(es, L, u, p, q)
    {
      EntryStep(es, L, m, p, q, u);
    }
  }

  /** The entry for one key after inserting pair (p, q - 1). */
  lemma EntryStep(es: seq<set<int>>, L: seq<int>, m: map<set<int>, seq<(int, int)>>, p: int, q: int, u: set<int>)
    requires Positions(L, |es|) && 0 <= p && p + 1 < q <= |L| && GroupedBefore(es, L, m, p, q - 1)
    requires u in Insert(m, es[L[p]] + es[L[q - 1]], (L[p], L[q - 1]))
    ensures Ends(Insert(m, es[L[p]] + es[L[q - 1]], (L[p], L[q - 1]))[u]) == PartnersBefore(es, L, u, p, q)
  {
    var key := es[L[p]] + es[L[q - 1]];
    if u != key {
      EntryKept(es, L, m[u], u, p, q);
    } else if key in m {
      EntryGrown(es, L, m[key], u, p, q);
    } else {
      assert key !in m.Keys;
      EntryNew(es, L, u, p, q);
    }
  }

  /** A key other than the new pair's union keeps its entry. */
  lemma EntryKept(es: seq<set<int>>, L: seq<int>, ps: seq<(int, int)>, u: set<int>, p: int, q: int)
    requires Positions(L, |es|) && 0 <= p && p + 1 < q <= |L| && es[L[p]] + es[L[q - 1]] != u
    requires Ends(ps) == PartnersBefore(es, L, u, p, q - 1)
    ensures Ends(ps) == PartnersBefore(es, L, u, p, q)
  {
    PartnersStep(es, L, u, p, q);
  }

  /** The new pair's union, already a key, gains the pair's two entries. */
  lemma EntryGrown(es: seq<set<int>>, L: seq<int>, ps: seq<(int, int)>, u: set<int>, p: int, q: int)
    requires Positions(L, |es|) && 0 <= p && p + 1 < q <= |L| && es[L[p]] + es[L[q - 1]] == u
    requires Ends(ps) == PartnersBefore(es, L, u, p, q - 1)
    ensures Ends(ps + [(L[p], L[q - 1])]) == PartnersBefore(es, L, u, p, q)
  {
    PartnersStep(es, L, u, p, q);
    EndsAppend(ps, (L[p], L[q - 1]));
  }

  /** The new pair's union, not yet a key, starts with the pair's entries. */
  lemma EntryNew(es: seq<set<int>>, L: seq<int>, u: set<int>, p: int, q: int)
    requires Positions(L, |es|) && 0 <= p && p + 1 < q <= |L| && es[L[p]] + es[L[q - 1]] == u
    requires u !in UnionsBefore(es, L, p, q - 1)
    ensures Ends([] + [(L[p], L[q - 1])]) == PartnersBefore(es, L, u, p, q)
  {
    PartnersAbsent(es, L, u, p, q - 1);
    EntryGrown(es, L, [], u, p, q);
  }

  /** Striking one more position p keeps the accumulated line in step with
      StrikeAt, and the flag in step with "the line differs from es". */
  lemma StrikeStep(line: seq<set<int>>, es: seq<set<int>>, u: set<int>, S: set<int>, k: int)
    requires |line| == |es| && 0 <= k < |line| && k !in S
    requires forall m :: 0 <= m < |es| ==> line[m] <= es[m]
    ensures var out := StrikeAt(line, u, S);
      StrikeAt(line, u, S + {k}) == out[k := out[k] - u] &&
      ((out[k := out[k] - u] != es) <==> (out != es || out[k] - u != out[k]))
  {
    var out := StrikeAt(line, u, S);
    var o := out[k := out[k] - u];
    if o == es {
      forall m | 0 <= m < |es|
        ensures out[m] == es[m]
      {
        assert o[m] <= out[m];
      }
      assert out == es;
    }
  }

  /** valid_idxes: the open positions of the line, in ascending order. */
  method OpenPositions(sol: seq<Option<int>>) returns (valid: seq<int>)
    ensures valid == OpenIndices(sol)
  {
    valid := [];
    var n := 0;
    while n < |sol|
      invariant 0 <= n <= |sol|
      invariant valid == OpenPrefix(sol, n)
    {
      if sol[n].None? {
        valid := valid + [n];
      }
      n := n + 1;
    }
  }

  /** match_sets: each pair union, listed with the pairs of positions that
      produced it; its keys are the pair unions and the pairs listed under a
      key name exactly the key's group. */
  method GroupPairs(es: seq<set<int>>, valid: seq<int>) returns (matchSets: map<set<int>, seq<(int, int)>>)
    requires Positions(valid, |es|)
    ensures matchSets.Keys == PairUnions(es, valid)
    ensures forall u :: u in matchSets ==> Ends(matchSets[u]) == Partners(es, valid, u)
  {
    matchSets := map[];
    var p := 0;
    while p < |valid|
      invariant 0 <= p <= |valid|
      invariant matchSets == GroupsBefore(es, valid, p, p + 1)
    {
      matchSets := GroupRow(es, valid, p, matchSets);
      p := p + 1;
    }
    GroupsBeforeGrouped(es, valid, p, p + 1);
    GroupedAll(es, valid, matchSets);
  }

  /** The inner loop for position p of valid_idxes: its pairs with every
      later open position go in under their unions. */
  method GroupRow(es: seq<set<int>>, valid: seq<int>, p: int, m0: map<set<int>, seq<(int, int)>>)
    returns (matchSets: map<set<int>, seq<(int, int)>>)
    requires Positions(valid, |es|) && 0 <= p < |valid| && m0 == GroupsBefore(es, valid, p, p + 1)
    ensures matchSets == GroupsBefore(es, valid, p + 1, p + 2)
  {
    matchSets := m0;
    var q := p + 1;
    while q < |valid|
      invariant p + 1 <= q <= |valid|
      invariant matchSets == GroupsBefore(es, valid, p, q)
    {
      var key := es[valid[p]] + es[valid[q]];
      var prior := if key in matchSets then matchSets[key] else [];
      matchSets := matchSets[key := prior + [(valid[p], valid[q])]];
      q := q + 1;
    }
  }

  /** idx_set: the positions named by a group's pairs. */
  method GroupEntries(pairs: seq<(int, int)>) returns (idxSet: set<int>)
    ensures idxSet == Ends(pairs)
  {
    idxSet := {};
    var t := 0;
    while t < |pairs|
      invariant 0 <= t <= |pairs|
      invariant idxSet == Ends(pairs[..t])
    {
      assert pairs[..t + 1] == pairs[..t] + [pairs[t]];
      EndsAppend(pairs[..t], pairs[t]);
      idxSet := idxSet + {pairs[t].0, pairs[t].1};
      t := t + 1;
    }
    assert pairs[..t] == pairs;
  }

  /** Strikes the digits of u from every listed open position outside the
      group, raising the flag when an entry loses a digit. */
  method StrikeOutside(line: seq<set<int>>, es: seq<set<int>>, valid: seq<int>, idxSet: set<int>, u: set<int>, changed0: bool)
    returns (out: seq<set<int>>, changed: bool)
    requires |line| == |es| && Positions(valid, |line|)
    requires forall k :: 0 <= k < |es| ==> line[k] <= es[k]
    requires changed0 <==> line != es
    ensures out == StrikeAt(line, u, (set x | x in valid) - idxSet)
    ensures changed <==> out != es
  {
    out := line;
    changed := changed0;
    var pool := (set x | x in valid) - idxSet;
    var rest := pool;
    ghost var struck: set<int> := {};
    assert StrikeAt(line, u, {}) == line;
    while rest != {}
      invariant rest <= pool && struck == pool - rest
      invariant out == StrikeAt(line, u, struck)
      invariant changed <==> out != es
      decreases |rest|
    {
      HasMember(rest);
      var k :| k in rest;
      StrikeStep(line, es, u, struck, k);
      var dif := out[k] - u;
      if dif != out[k] {
        changed := true;
      }
      out := out[k := dif];
      KeyMoved(pool, rest, struck, k);
      rest := rest - {k};
      struck := struck + {k};
    }
  }

  /** The body of the pass over match_sets for the key u and its pairs:
      idx_set is collected from the pairs, and when the group is locked its
      union is struck from the open entries outside it. */
  method ApplyGroup(sol: seq<Option<int>>, es: seq<set<int>>, valid: seq<int>, u: set<int>, pairs: seq<(int, int)>,
                    ghost done: set<set<int>>, line: seq<set<int>>, changed0: bool)
    returns (out: seq<set<int>>, changed: bool)
    requires |sol| == |es| && valid == OpenIndices(sol)
    requires Ends(pairs) == Partners(es, valid, u)
    requires line == StruckBy(sol, es, valid, done) && (changed0 <==> line != es)
    ensures out == StruckBy(sol, es, valid, done + {u})
    ensures changed <==> out != es
  {
    var idxSet := GroupEntries(pairs);
    GroupStep(sol, es, valid, done, u);
    StruckShrinks(sol, es, valid, done);
    out, changed := line, changed0;
    if |u| == |idxSet| && |idxSet| != |valid| {
      out, changed := StrikeOutside(line, es, valid, idxSet, u, changed0);
    }
  }

  /** Moving a key from the keys still to visit to the keys visited keeps
      the two sets complementary. */
  lemma KeyMoved<T>(keys: set<T>, todo: set<T>, done: set<T>, u: T)
    requires todo <= keys && done == keys - todo && u in todo
    ensures todo - {u} <= keys && done + {u} == keys - (todo - {u})
  {
  }

  /** The pass over match_sets: every group applied, in whatever order the
      dictionary yields its keys. */
  method ApplyGroups(sol: seq<Option<int>>, es: seq<set<int>>, valid: seq<int>, matchSets: map<set<int>, seq<(int, int)>>)
    returns (out: seq<set<int>>, changed: bool)
    requires |sol| == |es| && valid == OpenIndices(sol)
    requires forall u :: u in matchSets ==> Ends(matchSets[u]) == Partners(es, valid, u)
    ensures out == StruckBy(sol, es, valid, matchSets.Keys)
    ensures changed <==> out != es
  {
    out := es;
    changed := false;
    var todo := matchSets.Keys;
    ghost var done: set<set<int>> := {};
    StruckNone(sol, es, valid);
    while todo != {}
      invariant todo <= matchSets.Keys && done == matchSets.Keys - todo
      invariant out == StruckBy(sol, es, valid, done)
      invariant changed <==> out != es
      decreases |todo|
    {
      HasKey(todo);
      var u :| u in todo;
      out, changed := ApplyGroup(sol, es, valid, u, matchSets[u], done, out, changed);
      KeyMoved(matchSets.Keys, todo, done, u);
      todo := todo - {u};
      done := done + {u};
    }
    assert done == matchSets.Keys;
  }

  /** union_pair_scan_vector(solution_slice, element_set_slice): the new
      candidate slice and the change flag are those of UnionVector. */
  method UnionPairScanVector(sol: seq<Option<int>>, es: seq<set<int>>) returns (out: seq<set<int>>, changed: bool)
    requires |sol| == |es|
    ensures (out, changed) == UnionVector(sol, es)
  {
    var valid := OpenPositions(sol);
    var matchSets := GroupPairs(es, valid);
    out, changed := ApplyGroups(sol, es, valid, matchSets);
    StruckAll(sol, es);
  }
}
