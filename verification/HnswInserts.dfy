// Joining the layers.

module HnswInserts {
  import opened Sequences
  import opened HnswNets
  import opened HnswSearches

  // ----- Choosing neighbours

  /** `n` is no closer to anything chosen than to `q`. */
  predicate InNewDirection(net: Net, q: Vector, chosen: seq<nat>, n: nat) {
    n < |net.nodes| && forall k :: 0 <= k < |chosen| ==> Distance(net, net.nodes[n].vec, chosen[k]) >= Distance(net, q, n)
  }

  /** Going through `s`, those in a new direction, at most `m`. */
  function Spread(net: Net, q: Vector, s: seq<nat>, m: nat): seq<nat> {
    if s == [] then []
    else
      var chosen, n := Spread(net, q, s[..|s| - 1], m), s[|s| - 1];
      if |chosen| < m && InNewDirection(net, q, chosen, n) then chosen + [n] else chosen
  }

  /** Going through `s` again, filling up to `m`. */
  function Filled(chosen: seq<nat>, s: seq<nat>, m: nat): seq<nat> {
    if s == [] then chosen
    else
      var more, n := Filled(chosen, s[..|s| - 1], m), s[|s| - 1];
      if |more| < m && n !in more then more + [n] else more
  }

  /** Those of the candidates, nearest first, that go in a new direction; then the nearest others. */
  ghost predicate Selected(net: Net, q: Vector, candidates: seq<nat>, m: nat, out: seq<nat>) {
    exists sorted :: Ranking(net, q, Elems(candidates), sorted) && out == Filled(Spread(net, q, sorted, m), sorted, m)
  }

  method SelectNeighbours(net: Net, q: Vector, candidates: seq<nat>, m: nat) returns (out: seq<nat>)
    requires UniqueIds(net.nodes) && forall n :: n in candidates ==> n < |net.nodes|
    ensures Selected(net, q, candidates, m, out)
  {
    var ranked := Ranked(net, q, Elems(candidates));
    out := [];
    var i := 0;
    while i < |ranked|
      invariant 0 <= i <= |ranked| && out == Spread(net, q, ranked[..i], m)
    {
      assert ranked[..i + 1][..i] == ranked[..i];
      if |out| < m && InNewDirection(net, q, out, ranked[i]) {
        out := out + [ranked[i]];
      }
      i := i + 1;
    }
    assert ranked[..i] == ranked;
    ghost var chosen := out;
    i := 0;
    while i < |ranked|
      invariant 0 <= i <= |ranked| && out == Filled(chosen, ranked[..i], m)
    {
      assert ranked[..i + 1][..i] == ranked[..i];
      if |out| < m && ranked[i] !in out {
        out := out + [ranked[i]];
      }
      i := i + 1;
    }
    assert ranked[..i] == ranked;
  }

  lemma {:induction false} SpreadIsPart(net: Net, q: Vector, s: seq<nat>, m: nat)
    requires Distinct(s)
    ensures var t := Spread(net, q, s, m); |t| <= m && Distinct(t) && forall n :: n in t ==> n in s
  {
    if s != [] {
      var init := s[..|s| - 1];
      SpreadIsPart(net, q, init, m);
      forall n | n in init ensures n != s[|s| - 1] && n in s {
        var k :| 0 <= k < |init| && init[k] == n;
        assert s[k] == n;
      }
      var chosen := Spread(net, q, init, m);
      assert forall i :: 0 <= i < |chosen| ==> chosen[i] in init;
    }
  }

  /** Each neighbour chosen first is closer to the query than to any chosen before it. */
  lemma {:induction false} SpreadIsDiverse(net: Net, q: Vector, s: seq<nat>, m: nat, i: nat, j: nat)
    requires i < j < |Spread(net, q, s, m)|
    ensures var t := Spread(net, q, s, m);
      t[j] < |net.nodes| && Distance(net, net.nodes[t[j]].vec, t[i]) >= Distance(net, q, t[j])
    decreases |s|
  {
    var init := s[..|s| - 1];
    if j < |Spread(net, q, init, m)| {
      SpreadIsDiverse(net, q, init, m, i, j);
    }
  }

  lemma {:induction false} FilledIsPart(chosen: seq<nat>, s: seq<nat>, m: nat)
    requires |chosen| <= m && Distinct(chosen)
    ensures var t := Filled(chosen, s, m);
      |t| <= m && Distinct(t) && chosen <= t && forall n :: n in t ==> n in chosen || n in s
  {
    if s != [] {
      FilledIsPart(chosen, s[..|s| - 1], m);
    }
  }

  /** No candidate is left out while there is room. */
  lemma {:induction false} FilledLeavesNoRoom(chosen: seq<nat>, s: seq<nat>, m: nat)
    requires |chosen| <= m && Distinct(chosen)
    ensures |Filled(chosen, s, m)| == m || forall n :: n in s ==> n in Filled(chosen, s, m)
  {
    FilledIsPart(chosen, s, m);
    if s != [] {
      FilledIsPart(chosen, s[..|s| - 1], m);
      FilledLeavesNoRoom(chosen, s[..|s| - 1], m);
      assert s == s[..|s| - 1] + [s[|s| - 1]];
    }
  }

  lemma Prefixes(s: seq<nat>, i: nat, n: nat)
    requires i <= n <= |s|
    ensures s[..n][..i] == s[..i]
  {
  }

  /** What was chosen before element `i`, and whether it is chosen. */
  lemma {:induction false} SpreadAt(net: Net, q: Vector, s: seq<nat>, m: nat, i: nat)
    requires Distinct(s) && i < |s|
    ensures var before, chosen := Spread(net, q, s[..i], m), Spread(net, q, s, m);
      && before <= chosen && (s[i] in chosen <==> |before| < m && InNewDirection(net, q, before, s[i]))
      && forall c :: c in chosen ==> c in s && (c in before <==> c in s[..i])
    decreases |s|
  {
    var n := |s| - 1;
    SpreadIsPart(net, q, s, m);
    SpreadIsPart(net, q, s[..i], m);
    if i < n {
      Prefixes(s, i, n);
      SpreadAt(net, q, s[..n], m, i);
      SpreadIsPart(net, q, s[..n], m);
      assert s[n] !in s[..n] && s[n] !in s[..i];
    } else {
      assert s[n] !in s[..n];
      assert forall c :: c in s ==> c in s[..n] || c == s[n];
    }
  }

  /** What was filled in before element `i` was looked at. */
  lemma {:induction false} FilledAt(chosen: seq<nat>, s: seq<nat>, m: nat, i: nat)
    requires i < |s|
    ensures var before, out := Filled(chosen, s[..i], m), Filled(chosen, s, m);
      && chosen <= before <= out && (forall k :: |chosen| <= k < |before| ==> before[k] in s[..i])
      && (s[i] !in out ==> |before| >= m)
    decreases |s|
  {
    var n := |s| - 1;
    FilledFrom(chosen, s[..i], m);
    if i < n {
      Prefixes(s, i, n);
      FilledAt(chosen, s[..n], m, i);
    }
  }

  lemma {:induction false} FilledFrom(chosen: seq<nat>, s: seq<nat>, m: nat)
    ensures var out := Filled(chosen, s, m);
      chosen <= out && (forall k :: |chosen| <= k < |out| ==> out[k] in s) && (|out| <= m || out == chosen)
  {
    if s != [] {
      var n := |s| - 1;
      FilledFrom(chosen, s[..n], m);
      assert s == s[..n] + [s[n]];
    }
  }

  /** `x` is no closer to anything chosen before it than to `q`, and not all places are taken. */
  ghost predicate TakenFirst(net: Net, q: Vector, chosen: seq<nat>, m: nat, x: nat) {
    && (forall c :: c in chosen && RanksBefore(net, q, c, x) ==> Distance(net, net.nodes[x].vec, c) >= Distance(net, q, x))
    && (|chosen| < m || exists c :: c in chosen && !RanksBefore(net, q, c, x))
  }

  /** The selection in two passes, the first `n` in the first: those that each go in a new
      direction, and then the nearest of the others. */
  ghost predicate TwoPasses(net: Net, q: Vector, candidates: seq<nat>, m: nat, out: seq<nat>, n: nat) {
    && n <= |out| <= m && Distinct(out) && (forall x :: x in out ==> x in candidates)
    && (forall x :: x in candidates ==> x < |net.nodes| && (x in out[..n] <==> TakenFirst(net, q, out[..n], m, x)))
    && forall x, k :: x in candidates && x !in out && n <= k < |out| ==> |out| == m && RanksBefore(net, q, out[k], x)
  }

  lemma RankedOnce(net: Net, q: Vector, sorted: seq<nat>, i: nat, j: nat)
    requires UniqueIds(net.nodes) && i < |sorted| && j < |sorted|
    requires forall a, b :: 0 <= a < b < |sorted| ==> RanksBefore(net, q, sorted[a], sorted[b])
    ensures RanksBefore(net, q, sorted[i], sorted[j]) <==> i < j
    ensures sorted[i] == sorted[j] <==> i == j
  {
  }

  /** What stands before element `i` is what ranks before it. */
  lemma BeforeInRank(net: Net, q: Vector, sorted: seq<nat>, i: nat, c: nat)
    requires UniqueIds(net.nodes) && i < |sorted| && c in sorted
    requires forall a, b :: 0 <= a < b < |sorted| ==> RanksBefore(net, q, sorted[a], sorted[b])
    ensures c in sorted[..i] <==> RanksBefore(net, q, c, sorted[i])
  {
    var j :| 0 <= j < |sorted| && sorted[j] == c;
    RankedOnce(net, q, sorted, j, i);
    if j < i {
      assert sorted[..i][j] == c;
    }
    if c in sorted[..i] {
      var k :| 0 <= k < i && sorted[..i][k] == c;
      RankedOnce(net, q, sorted, k, j);
    }
  }

  lemma TakenFirstExactly(net: Net, q: Vector, pool: set<nat>, sorted: seq<nat>, m: nat, i: nat)
    requires UniqueIds(net.nodes) && Ranking(net, q, pool, sorted) && i < |sorted| && sorted[i] < |net.nodes|
    ensures sorted[i] in Spread(net, q, sorted, m) <==> TakenFirst(net, q, Spread(net, q, sorted, m), m, sorted[i])
  {
    var before, chosen, x := Spread(net, q, sorted[..i], m), Spread(net, q, sorted, m), sorted[i];
    RankingIsDistinct(net, q, pool, sorted);
    SpreadAt(net, q, sorted, m, i);
    SpreadIsPart(net, q, sorted, m);
    forall c | c in chosen ensures c in before <==> RanksBefore(net, q, c, x) {
      BeforeInRank(net, q, sorted, i, c);
    }
    assert forall k :: 0 <= k < |before| ==> before[k] == chosen[k] && before[k] in chosen;
    RoomExactly(before, chosen, m);
  }

  /** Places are left where what came before fills none, or something came later. */
  lemma RoomExactly(before: seq<nat>, chosen: seq<nat>, m: nat)
    requires before <= chosen && |chosen| <= m && Distinct(chosen)
    ensures |before| < m <==> |chosen| < m || exists c :: c in chosen && c !in before
  {
    if |before| < |chosen| {
      var c := chosen[|before|];
      assert c in chosen && c !in before;
    }
  }

  /** A selection is made in two passes. */
  lemma SelectedInTwoPasses(net: Net, q: Vector, candidates: seq<nat>, m: nat, out: seq<nat>) returns (n: nat)
    requires UniqueIds(net.nodes) && Selected(net, q, candidates, m, out) && forall c :: c in candidates ==> c < |net.nodes|
    ensures TwoPasses(net, q, candidates, m, out, n)
  {
    var pool := Elems(candidates);
    var sorted :| Ranking(net, q, pool, sorted) && out == Filled(Spread(net, q, sorted, m), sorted, m);
    var chosen := Spread(net, q, sorted, m);
    n := |chosen|;
    RankingIsDistinct(net, q, pool, sorted);
    SpreadIsPart(net, q, sorted, m);
    FilledIsPart(chosen, sorted, m);
    FilledFrom(chosen, sorted, m);
    SelectedNeighbours(net, q, candidates, m, out);
    assert out[..n] == chosen;
    forall x | x in candidates ensures x in chosen <==> TakenFirst(net, q, chosen, m, x) {
      assert x in pool;
      var i :| 0 <= i < |sorted| && sorted[i] == x;
      TakenFirstExactly(net, q, pool, sorted, m, i);
    }
    forall x, k | x in candidates && x !in out && n <= k < |out| ensures |out| == m && RanksBefore(net, q, out[k], x) {
      assert x in pool;
      LeftOutRanksLater(net, q, pool, sorted, chosen, m, x, k);
    }
  }

  lemma LeftOutRanksLater(net: Net, q: Vector, pool: set<nat>, sorted: seq<nat>, chosen: seq<nat>, m: nat, x: nat, k: nat)
    requires UniqueIds(net.nodes) && Ranking(net, q, pool, sorted) && |chosen| <= m && Distinct(chosen)
    requires x in pool && x !in Filled(chosen, sorted, m) && |chosen| <= k < |Filled(chosen, sorted, m)|
    ensures RanksBefore(net, q, Filled(chosen, sorted, m)[k], x)
  {
    var i :| 0 <= i < |sorted| && sorted[i] == x;
    var out, before := Filled(chosen, sorted, m), Filled(chosen, sorted[..i], m);
    FilledAt(chosen, sorted, m, i);
    FilledIsPart(chosen, sorted, m);
    assert before[k] == out[k] && out[k] in sorted[..i];
    assert sorted[..i] <= sorted && out[k] in sorted;
    BeforeInRank(net, q, sorted, i, out[k]);
  }

  lemma RankingIsDistinct(net: Net, q: Vector, pool: set<nat>, s: seq<nat>)
    requires Ranking(net, q, pool, s) && UniqueIds(net.nodes)
    ensures Distinct(s)
  {
  }

  /** What is selected: candidates, each once, `m` of them or all. */
  lemma SelectedNeighbours(net: Net, q: Vector, candidates: seq<nat>, m: nat, out: seq<nat>)
    requires UniqueIds(net.nodes) && Selected(net, q, candidates, m, out)
    ensures |out| <= m && Distinct(out) && forall n :: n in out ==> n in candidates
    ensures |out| == m || forall n :: n in candidates ==> n in out
  {
    var sorted :| Ranking(net, q, Elems(candidates), sorted) && out == Filled(Spread(net, q, sorted, m), sorted, m);
    RankingIsDistinct(net, q, Elems(candidates), sorted);
    SpreadIsPart(net, q, sorted, m);
    FilledIsPart(Spread(net, q, sorted, m), sorted, m);
    FilledLeavesNoRoom(Spread(net, q, sorted, m), sorted, m);
    forall n | n in candidates ensures n in sorted {
      assert n in Elems(candidates);
    }
    forall n | n in sorted ensures n in candidates {
      assert n in Elems(candidates);
    }
  }

  lemma {:induction false} SpreadSame(a: Net, b: Net, q: Vector, s: seq<nat>, m: nat)
    requires a.sim == b.sim && SameTowers(a.nodes, b.nodes)
    ensures Spread(a, q, s, m) == Spread(b, q, s, m)
  {
    if s != [] {
      var n := s[|s| - 1];
      SpreadSame(a, b, q, s[..|s| - 1], m);
      SameDistances(a, b, q);
      if n < |a.nodes| {
        SameDistances(a, b, a.nodes[n].vec);
      }
    }
  }

  /** Which candidates are selected does not depend on links. */
  lemma SelectedSame(a: Net, b: Net, q: Vector, candidates: seq<nat>, m: nat, out: seq<nat>)
    requires a.sim == b.sim && SameTowers(a.nodes, b.nodes) && Selected(a, q, candidates, m, out)
    ensures Selected(b, q, candidates, m, out)
  {
    var sorted :| Ranking(a, q, Elems(candidates), sorted) && out == Filled(Spread(a, q, sorted, m), sorted, m);
    SameRanking(a, b, q, Elems(candidates), sorted);
    SpreadSame(a, b, q, sorted, m);
  }

  /** There is one selection. */
  lemma SelectedIsUnique(net: Net, q: Vector, candidates: seq<nat>, m: nat, out: seq<nat>, other: seq<nat>)
    requires Selected(net, q, candidates, m, out) && Selected(net, q, candidates, m, other)
    ensures out == other
  {
    var s :| Ranking(net, q, Elems(candidates), s) && out == Filled(Spread(net, q, s, m), s, m);
    var t :| Ranking(net, q, Elems(candidates), t) && other == Filled(Spread(net, q, t, m), t, m);
    RankingIsUnique(net, q, Elems(candidates), s, t);
  }

  // ----- Joining a layer

  const EVERYONE: Filter := (id: Id) => true

  /** The lists of all elements on all layers but one are the same. */
  ghost predicate SameOff(a: seq<Node>, b: seq<Node>, l: nat) {
    SameTowers(a, b) && forall k, i :: i != l ==> NeighboursAt(b, k, i) == NeighboursAt(a, k, i)
  }

  /** A new element not linked to on any layer up to `l`. */
  ghost predicate Joining(nodes: seq<Node>, m: nat, idx: nat, l: int) {
    Wired(nodes, m) && UniqueIds(nodes) && forall i: nat :: i <= l ==> Unlinked(nodes, idx, i)
  }

  lemma SameTowersKeep(a: seq<Node>, b: seq<Node>)
    requires SameTowers(a, b)
    ensures UniqueIds(a) ==> UniqueIds(b)
    ensures forall n, l :: LivesOn(a, n, l) <==> LivesOn(b, n, l)
  {
  }

  lemma LowerLayersKept(a: seq<Node>, b: seq<Node>, m: nat, idx: nat, l: nat)
    requires Joining(a, m, idx, l) && SameOff(a, b, l) && Wired(b, m)
    ensures Joining(b, m, idx, l - 1)
  {
    SameTowersKeep(a, b);
    forall i: nat | i <= l - 1 ensures Unlinked(b, idx, i) {
      assert Unlinked(a, idx, i);
    }
  }

  /** The list of `s` with the way back to `idx` added, and pruned when it is over the cap. */
  ghost predicate LinkedBack(net: Net, m: nat, s: nat, idx: nat, l: nat, list: seq<nat>) {
    var full := NeighboursAt(net.nodes, s, l) + [idx];
    && s < |net.nodes|
    && if |full| <= Cap(m, l) then list == full else Selected(net, net.nodes[s].vec, full, Cap(m, l), list)
  }

  /** On layer `l` the new element links to the selected ones, they are linked back,
      and all other lists are as before. */
  ghost predicate Connected(net: Net, after: seq<Node>, m: nat, idx: nat, l: nat, selected: seq<nat>) {
    && NeighboursAt(after, idx, l) == selected
    && (forall s :: s in selected ==> LinkedBack(net, m, s, idx, l, NeighboursAt(after, s, l)))
    && (forall k :: k != idx && k !in selected ==> NeighboursAt(after, k, l) == NeighboursAt(net.nodes, k, l))
  }

  /** What joining layer `l` from `cur` does: search there, select among what is found, connect. */
  ghost predicate JoinedBy(net: Net, after: seq<Node>, m: nat, ef: nat, v: Vector, idx: nat, l: nat, cur: nat,
                           candidates: seq<nat>, selected: seq<nat>) {
    && LayerFound(net, v, ef, l, EVERYONE, [cur], candidates) && candidates != []
    && Selected(net, v, candidates, Cap(m, l), selected)
    && Connected(net, after, m, idx, l, selected)
  }

  /** And goes on one layer down from the nearest element found. */
  ghost predicate Joined(net: Net, after: seq<Node>, m: nat, ef: nat, v: Vector, idx: nat, l: nat, cur: nat, next: nat) {
    exists candidates, selected ::
      JoinedBy(net, after, m, ef, v, idx, l, cur, candidates, selected) && next == candidates[0]
  }

  lemma LinkedBackSame(a: Net, b: Net, m: nat, s: nat, idx: nat, l: nat, list: seq<nat>)
    requires a.sim == b.sim && SameTowers(a.nodes, b.nodes) && NeighboursAt(a.nodes, s, l) == NeighboursAt(b.nodes, s, l)
    requires LinkedBack(a, m, s, idx, l, list)
    ensures LinkedBack(b, m, s, idx, l, list)
  {
    var full := NeighboursAt(a.nodes, s, l) + [idx];
    if |full| > Cap(m, l) {
      SelectedSame(a, b, a.nodes[s].vec, full, Cap(m, l), list);
    }
  }

  lemma ConnectedSame(a: Net, b: Net, after: seq<Node>, m: nat, idx: nat, l: nat, selected: seq<nat>)
    requires SameLayer(a, b, l) && Connected(a, after, m, idx, l, selected)
    ensures Connected(b, after, m, idx, l, selected)
  {
    forall s | s in selected ensures LinkedBack(b, m, s, idx, l, NeighboursAt(after, s, l)) {
      LinkedBackSame(a, b, m, s, idx, l, NeighboursAt(after, s, l));
    }
  }

  /** Joining a layer depends on that layer's links only. */
  lemma JoinedSame(a: Net, b: Net, after: seq<Node>, m: nat, ef: nat, v: Vector, idx: nat, l: nat, cur: nat, next: nat)
    requires SameLayer(a, b, l) && Joined(a, after, m, ef, v, idx, l, cur, next)
    ensures Joined(b, after, m, ef, v, idx, l, cur, next)
  {
    var candidates, selected :|
      JoinedBy(a, after, m, ef, v, idx, l, cur, candidates, selected) && next == candidates[0];
    SameFound(a, b, v, ef, l, EVERYONE, [cur], candidates);
    SelectedSame(a, b, v, candidates, Cap(m, l), selected);
    ConnectedSame(a, b, after, m, idx, l, selected);
    assert JoinedBy(b, after, m, ef, v, idx, l, cur, candidates, selected);
  }

  /** What was done on a layer stays when another layer changes. */
  lemma JoinedStays(net: Net, after: seq<Node>, later: seq<Node>, m: nat, ef: nat, v: Vector, idx: nat, l: nat, cur: nat, next: nat, other: nat)
    requires Joined(net, after, m, ef, v, idx, l, cur, next) && SameOff(after, later, other) && other != l
    ensures Joined(net, later, m, ef, v, idx, l, cur, next)
  {
    var candidates, selected :|
      JoinedBy(net, after, m, ef, v, idx, l, cur, candidates, selected) && next == candidates[0];
    assert forall k :: NeighboursAt(later, k, l) == NeighboursAt(after, k, l);
    assert Connected(net, later, m, idx, l, selected);
    assert JoinedBy(net, later, m, ef, v, idx, l, cur, candidates, selected);
  }

  /** Layers `top` down to `l + 1` joined, each from where the one above led. */
  ghost predicate JoinedDown(net: Net, after: seq<Node>, m: nat, ef: nat, v: Vector, idx: nat, top: nat, l: int, starts: seq<nat>) {
    && -1 <= l <= top && |starts| == top - l + 1
    && (forall i: nat :: i < top - l ==> Joined(net, after, m, ef, v, idx, top - i, starts[i], starts[i + 1]))
    && (forall k, i: nat :: i <= l ==> NeighboursAt(after, k, i) == NeighboursAt(net.nodes, k, i))
    && (forall k, i: nat :: i > top ==> NeighboursAt(after, k, i) == NeighboursAt(net.nodes, k, i))
  }

  lemma JoinOneMore(net: Net, was: seq<Node>, after: seq<Node>, m: nat, ef: nat, v: Vector, idx: nat, top: nat, l: nat, starts: seq<nat>, next: nat)
    requires SameTowers(net.nodes, was) && JoinedDown(net, was, m, ef, v, idx, top, l, starts)
    requires SameOff(was, after, l) && Joined(Net(was, net.sim), after, m, ef, v, idx, l, starts[top - l], next)
    ensures JoinedDown(net, after, m, ef, v, idx, top, l - 1, starts + [next])
  {
    var more := starts + [next];
    JoinedSame(Net(was, net.sim), net, after, m, ef, v, idx, l, starts[top - l], next);
    forall i: nat | i < top - (l - 1) ensures Joined(net, after, m, ef, v, idx, top - i, more[i], more[i + 1]) {
      if i < top - l {
        JoinedStays(net, was, after, m, ef, v, idx, top - i, starts[i], starts[i + 1], l);
      }
    }
  }

  /** A joined layer holds what the selection picked from what the search found there. */
  lemma JoinedLayer(net: Net, after: seq<Node>, m: nat, ef: nat, v: Vector, idx: nat, top: nat, starts: seq<nat>, l: nat)
    returns (candidates: seq<nat>)
    requires JoinedDown(net, after, m, ef, v, idx, top, -1, starts) && l <= top
    ensures JoinedBy(net, after, m, ef, v, idx, l, starts[top - l], candidates, NeighboursAt(after, idx, l))
    ensures starts[top - l + 1] == candidates[0]
  {
    var i: nat := top - l;
    assert Joined(net, after, m, ef, v, idx, top - i, starts[i], starts[i + 1]);
    var selected;
    candidates, selected :|
      JoinedBy(net, after, m, ef, v, idx, l, starts[i], candidates, selected) && starts[i + 1] == candidates[0];
  }

  // ----- A whole insertion

  /** The graph with the new element on its layers, not linked yet. */
  function Widened(before: Net, id: Id, v: Vector, level: nat): Net {
    Net(before.nodes + [Node(id, v, seq(level + 1, l => []))], before.sim)
  }

  function Lower(a: nat, b: nat): nat {
    if a < b then a else b
  }

  /** The graph after adding an element to one that is not empty: a greedy descent to its
      top layer, then each of its layers joined, from the top one down. */
  ghost predicate Inserted(before: Net, entry: nat, maxLay: nat, m: nat, ef: nat, id: Id, v: Vector, level: nat,
                           after: seq<Node>, starts: seq<nat>) {
    var net := Widened(before, id, v, level);
    && Wired(net.nodes, m) && LivesOn(net.nodes, entry, maxLay) && SameTowers(net.nodes, after)
    && JoinedDown(net, after, m, ef, v, |before.nodes|, Lower(level, maxLay), -1, starts)
    && starts[0] == DescentEnd(net, v, entry, maxLay, level, m)
  }

  /** With a positive cap a new element is linked on every layer it shares. */
  lemma NewElementIsLinked(before: Net, entry: nat, maxLay: nat, m: nat, ef: nat, id: Id, v: Vector, level: nat,
                           after: seq<Node>, starts: seq<nat>, l: nat)
    requires Inserted(before, entry, maxLay, m, ef, id, v, level, after, starts) && l <= level && l <= maxLay && 0 < m
    requires UniqueIds(Widened(before, id, v, level).nodes)
    ensures NeighboursAt(after, |before.nodes|, l) != []
  {
    var net := Widened(before, id, v, level);
    var candidates := JoinedLayer(net, after, m, ef, v, |before.nodes|, Lower(level, maxLay), starts, l);
    SelectedNeighbours(net, v, candidates, Cap(m, l), NeighboursAt(after, |before.nodes|, l));
    assert candidates[0] in candidates;
  }

  /** Pruning a list to the cap keeps `x`. */
  ghost predicate PruningKeeps(net: Net, q: Vector, full: seq<nat>, m: nat, x: nat) {
    exists list :: Selected(net, q, full, m, list) && x in list
  }

  /** The way back from a neighbour is there exactly when its list had room, or pruning
      kept the new element. */
  lemma WayBackKept(before: Net, entry: nat, maxLay: nat, m: nat, ef: nat, id: Id, v: Vector, level: nat,
                    after: seq<Node>, starts: seq<nat>, l: nat, s: nat)
    requires Inserted(before, entry, maxLay, m, ef, id, v, level, after, starts) && l <= level && l <= maxLay
    requires s in NeighboursAt(after, |before.nodes|, l)
    ensures var net, idx := Widened(before, id, v, level), |before.nodes|;
      && s < |net.nodes|
      && var was := NeighboursAt(net.nodes, s, l);
      idx in NeighboursAt(after, s, l) <==>
      |was| < Cap(m, l) || PruningKeeps(net, net.nodes[s].vec, was + [idx], Cap(m, l), idx)
  {
    var net, idx := Widened(before, id, v, level), |before.nodes|;
    var candidates := JoinedLayer(net, after, m, ef, v, idx, Lower(level, maxLay), starts, l);
    var list := NeighboursAt(after, s, l);
    assert LinkedBack(net, m, s, idx, l, list);
    OneWayBack(net, m, s, idx, l, list);
  }

  lemma OneWayBack(net: Net, m: nat, s: nat, idx: nat, l: nat, list: seq<nat>)
    requires LinkedBack(net, m, s, idx, l, list)
    ensures var was := NeighboursAt(net.nodes, s, l);
      idx in list <==> |was| < Cap(m, l) || PruningKeeps(net, net.nodes[s].vec, was + [idx], Cap(m, l), idx)
  {
    var was := NeighboursAt(net.nodes, s, l);
    if |was| >= Cap(m, l) && PruningKeeps(net, net.nodes[s].vec, was + [idx], Cap(m, l), idx) {
      var other :| Selected(net, net.nodes[s].vec, was + [idx], Cap(m, l), other) && idx in other;
      SelectedIsUnique(net, net.nodes[s].vec, was + [idx], Cap(m, l), list, other);
    }
  }

  // ----- What pruning drops

  lemma {:induction false} SpreadGrows(net: Net, q: Vector, s: seq<nat>, k: nat, m: nat)
    requires k <= |s|
    ensures Spread(net, q, s[..k], m) <= Spread(net, q, s, m)
    decreases |s|
  {
    if k < |s| {
      SpreadGrows(net, q, s[..|s| - 1], k, m);
      assert s[..|s| - 1][..k] == s[..k];
    } else {
      assert s[..k] == s;
    }
  }

  /** What was passed over for want of room comes before nothing that was filled in. */
  lemma {:induction false} FilledInOrder(chosen: seq<nat>, s: seq<nat>, m: nat, i: nat, j: nat)
    requires |chosen| <= m && Distinct(chosen) && Distinct(s) && i < j < |s|
    requires s[i] !in Filled(chosen, s, m) && s[j] in Filled(chosen, s, m)
    ensures s[j] in chosen
    decreases |s|
  {
    var n := |s| - 1;
    FilledIsPart(chosen, s[..n], m);
    if j < n {
      assert s[..n][i] == s[i] && s[..n][j] == s[j];
      FilledInOrder(chosen, s[..n], m, i, j);
    } else {
      assert s[..n][i] == s[i];
      FilledLeavesNoRoom(chosen, s[..n], m);
      assert s[i] in s[..n];
    }
  }

  /** Not chosen in the first pass, and last of those. */
  ghost predicate LastPassedOver(net: Net, q: Vector, sorted: seq<nat>, m: nat, x: nat) {
    && x !in Spread(net, q, sorted, m)
    && forall n :: n in sorted && n != x && n !in Spread(net, q, sorted, m) ==> RanksBefore(net, q, n, x)
  }

  lemma AtMostOneOut(full: seq<nat>, out: seq<nat>, x: nat, y: nat)
    requires Distinct(full) && Distinct(out) && |full| == |out| + 1 && forall n :: n in out ==> n in full
    requires x in full && y in full && x !in out && y !in out
    ensures x == y
  {
    SizeOfElems(full);
    SizeOfElems(out);
    if x != y {
      assert Elems(out) + {x, y} <= Elems(full);
      SubsetSize(Elems(out) + {x, y}, Elems(full));
    }
  }

  lemma SomeoneOut(full: seq<nat>, out: seq<nat>) returns (n: nat)
    requires Distinct(full) && Distinct(out) && |full| > |out|
    ensures n in full && n !in out
  {
    SizeOfElems(full);
    SizeOfElems(out);
    if forall x :: x in full ==> x in out {
      SubsetSize(Elems(full), Elems(out));
    }
    n :| n in full && n !in out;
  }

  /** A list one over the cap loses exactly one neighbour: the farthest of those that go
      in no new direction. */
  lemma PruningDropsExactly(net: Net, q: Vector, full: seq<nat>, m: nat, out: seq<nat>, sorted: seq<nat>, x: nat)
    requires UniqueIds(net.nodes) && Distinct(full) && |full| == m + 1 && x in full
    requires Selected(net, q, full, m, out) && Ranking(net, q, Elems(full), sorted)
    ensures x !in out <==> LastPassedOver(net, q, sorted, m, x)
  {
    var chosen := Spread(net, q, sorted, m);
    var s :| Ranking(net, q, Elems(full), s) && out == Filled(Spread(net, q, s, m), s, m);
    RankingIsUnique(net, q, Elems(full), s, sorted);
    RankingIsDistinct(net, q, Elems(full), sorted);
    SpreadIsPart(net, q, sorted, m);
    FilledIsPart(chosen, sorted, m);
    SelectedNeighbours(net, q, full, m, out);
    var y := SomeoneOut(full, out);
    assert |out| == m;
    assert x in sorted && y in sorted && x in Elems(full) && y in Elems(full);
    if x !in out {
      forall n | n in sorted && n != x && n !in chosen ensures RanksBefore(net, q, n, x) {
        FilledBefore(net, q, chosen, full, sorted, m, out, x, n);
      }
    } else if x !in chosen {
      FilledBefore(net, q, chosen, full, sorted, m, out, y, x);
    }
  }

  lemma FilledBefore(net: Net, q: Vector, chosen: seq<nat>, full: seq<nat>, sorted: seq<nat>, m: nat, out: seq<nat>, x: nat, n: nat)
    requires Distinct(full) && |full| == m + 1 && Ranking(net, q, Elems(full), sorted) && Distinct(sorted)
    requires |chosen| <= m && Distinct(chosen) && out == Filled(chosen, sorted, m) && |out| == m && Distinct(out)
    requires (forall y :: y in out ==> y in full) && (forall y :: y in chosen ==> y in out)
    requires x in sorted && x !in out && n in sorted && n != x && n !in chosen
    ensures n in out && RanksBefore(net, q, n, x)
  {
    assert x in Elems(full) && n in Elems(full);
    if n !in out {
      AtMostOneOut(full, out, x, n);
    }
    var i :| 0 <= i < |sorted| && sorted[i] == x;
    var j :| 0 <= j < |sorted| && sorted[j] == n;
    if i < j {
      FilledInOrder(chosen, sorted, m, i, j);
    }
  }

  /** A neighbour nearer than all others is never dropped. */
  lemma NearestIsKept(net: Net, q: Vector, full: seq<nat>, m: nat, x: nat, out: seq<nat>)
    requires Selected(net, q, full, m, out) && UniqueIds(net.nodes) && 0 < m && x < |net.nodes| && x in full
    requires forall n :: n in full && n != x ==> n < |net.nodes| && Distance(net, q, x) < Distance(net, q, n)
    ensures x in out
  {
    var s :| Ranking(net, q, Elems(full), s) && out == Filled(Spread(net, q, s, m), s, m);
    assert x in Elems(full);
    var i: nat :| i < |s| && s[i] == x;
    assert s[0] in Elems(full);
    assert s[0] == x;
    SpreadGrows(net, q, s, 1, m);
    assert Spread(net, q, s[..1], m) == [x];
    RankingIsDistinct(net, q, Elems(full), s);
    SpreadIsPart(net, q, s, m);
    FilledIsPart(Spread(net, q, s, m), s, m);
    assert Spread(net, q, s, m)[0] == x;
  }

  /** A neighbour whose list was full lists the new element unless that is the farthest of
      those that go in no new direction. */
  lemma WayBackLostExactly(before: Net, entry: nat, maxLay: nat, m: nat, ef: nat, id: Id, v: Vector, level: nat,
                           after: seq<Node>, starts: seq<nat>, l: nat, s: nat, sorted: seq<nat>)
    requires Inserted(before, entry, maxLay, m, ef, id, v, level, after, starts) && l <= level && l <= maxLay
    requires s in NeighboursAt(after, |before.nodes|, l) && UniqueIds(Widened(before, id, v, level).nodes)
    requires var net, idx := Widened(before, id, v, level), |before.nodes|;
      var was := NeighboursAt(net.nodes, s, l);
      s < |net.nodes| && |was| == Cap(m, l) && idx !in was && Ranking(net, net.nodes[s].vec, Elems(was + [idx]), sorted)
    ensures var net := Widened(before, id, v, level);
      |before.nodes| !in NeighboursAt(after, s, l) <==>
      LastPassedOver(net, net.nodes[s].vec, sorted, Cap(m, l), |before.nodes|)
  {
    var net, idx := Widened(before, id, v, level), |before.nodes|;
    var candidates := JoinedLayer(net, after, m, ef, v, idx, Lower(level, maxLay), starts, l);
    var was, list := NeighboursAt(net.nodes, s, l), NeighboursAt(after, s, l);
    assert LinkedBack(net, m, s, idx, l, list);
    DistinctWith(net, m, s, l, idx);
    PruningDropsExactly(net, net.nodes[s].vec, was + [idx], Cap(m, l), list, sorted, idx);
  }

  lemma DistinctWith(net: Net, m: nat, s: nat, l: nat, x: nat)
    requires Wired(net.nodes, m) && x !in NeighboursAt(net.nodes, s, l)
    ensures Distinct(NeighboursAt(net.nodes, s, l) + [x])
  {
    if LivesOn(net.nodes, s, l) {
      assert GoodList(net.nodes, s, l, NeighboursAt(net.nodes, s, l), m);
    }
  }
}
