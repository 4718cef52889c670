// The layered neighbour graph.

module HnswNets {
  type Vector = seq<real>

  // Page ids, numbered in their string order.
  type Id = nat

  datatype Node = Node(id: Id, vec: Vector, neighbours: seq<seq<nat>>)

  // The elements with the similarity they are compared by.
  datatype Net = Net(nodes: seq<Node>, sim: (Vector, Vector) -> real)

  function Distance(net: Net, q: Vector, n: nat): real {
    if n < |net.nodes| then 1.0 - net.sim(q, net.nodes[n].vec) else 0.0
  }

  predicate LivesOn(nodes: seq<Node>, n: nat, l: nat) {
    n < |nodes| && l < |nodes[n].neighbours|
  }

  function NeighboursAt(nodes: seq<Node>, n: nat, l: nat): seq<nat> {
    if LivesOn(nodes, n, l) then nodes[n].neighbours[l] else []
  }

  predicate Distinct(s: seq<nat>) {
    forall i, j :: 0 <= i < j < |s| ==> s[i] != s[j]
  }

  function Cap(m: nat, l: nat): nat {
    if l == 0 then 2 * m else m
  }

  /** Different elements of the same layer, none of them `n`, and no more than the cap. */
  ghost predicate GoodList(nodes: seq<Node>, n: nat, l: nat, s: seq<nat>, m: nat) {
    |s| <= Cap(m, l) && Distinct(s) && forall x :: x in s ==> x != n && LivesOn(nodes, x, l)
  }

  ghost predicate Wired(nodes: seq<Node>, m: nat) {
    forall n, l :: LivesOn(nodes, n, l) ==> GoodList(nodes, n, l, NeighboursAt(nodes, n, l), m)
  }

  /** The same elements on the same layers; only links may differ. */
  ghost predicate SameTowers(a: seq<Node>, b: seq<Node>) {
    |a| == |b| && forall n :: 0 <= n < |a| ==>
      a[n].id == b[n].id && a[n].vec == b[n].vec && |a[n].neighbours| == |b[n].neighbours|
  }

  /** Nobody on layer `l` links to `x`. */
  ghost predicate Unlinked(nodes: seq<Node>, x: nat, l: nat) {
    forall n :: x !in NeighboursAt(nodes, n, l)
  }

  // ----- Reachability on one layer

  ghost predicate ClosedOn(nodes: seq<Node>, l: nat, s: set<nat>) {
    forall a, b :: a in s && b in NeighboursAt(nodes, a, l) ==> b in s
  }

  /** `b` is in every set that holds `a` and is closed under the links of layer `l`. */
  ghost predicate Reach(nodes: seq<Node>, l: nat, a: nat, b: nat) {
    forall s: set<nat> {:trigger ClosedOn(nodes, l, s)} :: a in s && ClosedOn(nodes, l, s) ==> b in s
  }

  lemma ReachStep(nodes: seq<Node>, l: nat, a: nat, b: nat, c: nat)
    requires Reach(nodes, l, a, b) && c in NeighboursAt(nodes, b, l)
    ensures Reach(nodes, l, a, c)
  {
  }

  function Upto(n: nat): (s: set<nat>)
    ensures forall x: nat :: x in s <==> x < n
  {
    if n == 0 then {} else Upto(n - 1) + {n - 1}
  }

  /** What an element of a layer reaches lives there too, and is not an element nobody links to. */
  lemma ReachStays(nodes: seq<Node>, m: nat, l: nat, a: nat, b: nat)
    requires Wired(nodes, m) && LivesOn(nodes, a, l) && Reach(nodes, l, a, b)
    ensures LivesOn(nodes, b, l)
    ensures forall x :: x != a && Unlinked(nodes, x, l) ==> b != x
  {
    var here := set x | x in Upto(|nodes|) && LivesOn(nodes, x, l);
    assert ClosedOn(nodes, l, here);
    forall x | x != a && Unlinked(nodes, x, l) ensures b != x {
      assert ClosedOn(nodes, l, here - {x});
    }
  }

  // ----- Changing one list

  function WithList(nodes: seq<Node>, n: nat, l: nat, s: seq<nat>): seq<Node>
    requires LivesOn(nodes, n, l)
  {
    nodes[n := nodes[n].(neighbours := nodes[n].neighbours[l := s])]
  }

  lemma WithListChanges(nodes: seq<Node>, n: nat, l: nat, s: seq<nat>)
    requires LivesOn(nodes, n, l)
    ensures SameTowers(nodes, WithList(nodes, n, l, s))
    ensures forall k, i :: NeighboursAt(WithList(nodes, n, l, s), k, i) == if k == n && i == l then s else NeighboursAt(nodes, k, i)
    ensures forall k, i :: LivesOn(WithList(nodes, n, l, s), k, i) <==> LivesOn(nodes, k, i)
  {
  }

  lemma WithGoodList(nodes: seq<Node>, n: nat, l: nat, s: seq<nat>, m: nat)
    requires Wired(nodes, m) && LivesOn(nodes, n, l) && GoodList(nodes, n, l, s, m)
    ensures Wired(WithList(nodes, n, l, s), m)
  {
    WithListChanges(nodes, n, l, s);
    var after := WithList(nodes, n, l, s);
    forall k, i | LivesOn(after, k, i) ensures GoodList(after, k, i, NeighboursAt(after, k, i), m) {
      assert LivesOn(nodes, k, i);
    }
  }

  /** A new element without links changes nothing for the others. */
  lemma WithNewNode(nodes: seq<Node>, m: nat, node: Node)
    requires Wired(nodes, m) && forall l :: 0 <= l < |node.neighbours| ==> node.neighbours[l] == []
    ensures Wired(nodes + [node], m)
    ensures forall l :: Unlinked(nodes + [node], |nodes|, l)
    ensures forall n: nat, l: nat :: n < |nodes| ==> (LivesOn(nodes + [node], n, l) <==> LivesOn(nodes, n, l))
  {
    var more := nodes + [node];
    forall n: nat, l: nat ensures NeighboursAt(more, n, l) == NeighboursAt(nodes, n, l) {
      if n == |nodes| && LivesOn(more, n, l) {
        assert more[n] == node;
      }
    }
    forall n: nat, l: nat | LivesOn(more, n, l) ensures GoodList(more, n, l, NeighboursAt(more, n, l), m) {
      if n < |nodes| {
        assert LivesOn(nodes, n, l);
      }
    }
    forall n: nat, l: nat ensures |nodes| !in NeighboursAt(more, n, l) {
      if LivesOn(nodes, n, l) {
        assert GoodList(nodes, n, l, NeighboursAt(nodes, n, l), m);
      }
    }
  }

  // ----- Orders on elements

  /** Nearer to `q`, ties by position: the order candidates are expanded in. */
  predicate Nearer(net: Net, q: Vector, a: nat, b: nat) {
    Distance(net, q, a) < Distance(net, q, b) || (Distance(net, q, a) == Distance(net, q, b) && a < b)
  }

  /** Farther from `q`, ties by position: the order kept results are dropped in. */
  predicate Farther(net: Net, q: Vector, a: nat, b: nat) {
    Distance(net, q, a) > Distance(net, q, b) || (Distance(net, q, a) == Distance(net, q, b) && a < b)
  }

  /** Nearer to `q`, ties by id: the order results are returned in. */
  predicate RanksBefore(net: Net, q: Vector, a: nat, b: nat) {
    a < |net.nodes| && b < |net.nodes|
    && (Distance(net, q, a) < Distance(net, q, b)
        || (Distance(net, q, a) == Distance(net, q, b) && net.nodes[a].id < net.nodes[b].id))
  }

  ghost predicate Linear(before: (nat, nat) -> bool, s: set<nat>) {
    && (forall a, b :: a in s && b in s && a != b ==> before(a, b) || before(b, a))
    && (forall a, b, c :: a in s && b in s && c in s && before(a, b) && before(b, c) ==> before(a, c))
    && (forall a :: a in s ==> !before(a, a))
  }

  ghost predicate IsFirst(before: (nat, nat) -> bool, s: set<nat>, m: nat) {
    m in s && forall x :: x in s && x != m ==> before(m, x)
  }

  /** The element of `s` that comes first; a heap in the original. */
  method FirstOf(s: set<nat>, before: (nat, nat) -> bool) returns (m: nat)
    requires s != {} && Linear(before, s)
    ensures IsFirst(before, s, m)
  {
    m :| m in s;
    var rest := s - {m};
    while rest != {}
      invariant rest <= s && m in s && m !in rest
      invariant forall x :: x in s && x !in rest && x != m ==> before(m, x)
      decreases |rest|
    {
      var x :| x in rest;
      if before(x, m) {
        m := x;
      }
      rest := rest - {x};
    }
  }

  ghost predicate UniqueIds(nodes: seq<Node>) {
    forall i, j :: 0 <= i < j < |nodes| ==> nodes[i].id != nodes[j].id
  }

  /** All of `pool`, in rank order. */
  ghost predicate Ranking(net: Net, q: Vector, pool: set<nat>, s: seq<nat>) {
    && (forall n :: n in s <==> n in pool)
    && (forall i, j :: 0 <= i < j < |s| ==> RanksBefore(net, q, s[i], s[j]))
  }

  /** A pool has one ranking. */
  lemma {:induction false} RankingIsUnique(net: Net, q: Vector, pool: set<nat>, s: seq<nat>, t: seq<nat>)
    requires Ranking(net, q, pool, s) && Ranking(net, q, pool, t)
    ensures s == t
    decreases |s|
  {
    if s == [] {
      assert forall i :: 0 <= i < |t| ==> t[i] in pool;
    } else {
      assert s[0] in t && |t| > 0;
      var i: nat :| i < |t| && t[i] == s[0];
      assert t[0] in s;
      var j: nat :| j < |s| && s[j] == t[0];
      assert s[0] == t[0];
      RankingTail(net, q, pool, s);
      RankingTail(net, q, pool, t);
      RankingIsUnique(net, q, pool - {s[0]}, s[1..], t[1..]);
      assert s == [s[0]] + s[1..] && t == [t[0]] + t[1..];
    }
  }

  lemma RankingTail(net: Net, q: Vector, pool: set<nat>, s: seq<nat>)
    requires Ranking(net, q, pool, s) && s != []
    ensures Ranking(net, q, pool - {s[0]}, s[1..])
  {
  }

  lemma {:induction false} RankingSize(net: Net, q: Vector, pool: set<nat>, s: seq<nat>)
    requires Ranking(net, q, pool, s)
    ensures |s| == |pool|
    decreases |s|
  {
    if s == [] {
      assert pool == {};
    } else {
      assert s[0] in pool;
      RankingTail(net, q, pool, s);
      RankingSize(net, q, pool - {s[0]}, s[1..]);
    }
  }

  lemma RankOrderIsLinear(net: Net, q: Vector, s: set<nat>)
    requires UniqueIds(net.nodes) && forall n :: n in s ==> 0 <= n < |net.nodes|
    ensures Linear((a: nat, b: nat) => RanksBefore(net, q, a, b), s)
  {
  }

  method Ranked(net: Net, q: Vector, pool: set<nat>) returns (s: seq<nat>)
    requires UniqueIds(net.nodes) && forall n :: n in pool ==> 0 <= n < |net.nodes|
    ensures Ranking(net, q, pool, s)
  {
    s := [];
    var rest := pool;
    while rest != {}
      invariant rest <= pool && Ranking(net, q, pool - rest, s)
      invariant forall i, n :: 0 <= i < |s| && n in rest ==> RanksBefore(net, q, s[i], n)
      decreases |rest|
    {
      RankOrderIsLinear(net, q, rest);
      var n := FirstOf(rest, (a: nat, b: nat) => RanksBefore(net, q, a, b));
      s := s + [n];
      rest := rest - {n};
    }
    assert pool - rest == pool;
  }

  // ----- Walking downhill

  ghost function Closer(net: Net, q: Vector, d: real): set<nat> {
    set n | n in Upto(|net.nodes|) && Distance(net, q, n) < d
  }

  /** The nearest of `cur` and the elements `around` it, the first of them where several are. */
  function Nearest(net: Net, q: Vector, cur: nat, around: seq<nat>): nat {
    if around == [] then cur
    else
      var best, n := Nearest(net, q, cur, around[..|around| - 1]), around[|around| - 1];
      if Distance(net, q, n) < Distance(net, q, best) then n else best
  }

  lemma {:induction false} NearestIsNearest(net: Net, q: Vector, cur: nat, around: seq<nat>)
    ensures var best := Nearest(net, q, cur, around);
      && (best == cur || (best in around && Distance(net, q, best) < Distance(net, q, cur)))
      && forall n :: n in around ==> Distance(net, q, best) <= Distance(net, q, n)
  {
    if around != [] {
      var init := around[..|around| - 1];
      NearestIsNearest(net, q, cur, init);
      assert around == init + [around[|around| - 1]];
    }
  }

  /** One step of the walk. */
  function Step(net: Net, q: Vector, l: nat, cur: nat): nat {
    Nearest(net, q, cur, NeighboursAt(net.nodes, cur, l))
  }

  /** A step leads to a nearer element of the layer, or the walk is over. */
  lemma StepIsNearer(net: Net, q: Vector, l: nat, cur: nat, m: nat)
    requires Wired(net.nodes, m) && LivesOn(net.nodes, cur, l)
    ensures var next := Step(net, q, l, cur);
      && LivesOn(net.nodes, next, l) && Reach(net.nodes, l, cur, next)
      && (next != cur ==> Closer(net, q, Distance(net, q, next)) < Closer(net, q, Distance(net, q, cur)))
  {
    NearestIsNearest(net, q, cur, NeighboursAt(net.nodes, cur, l));
    assert GoodList(net.nodes, cur, l, NeighboursAt(net.nodes, cur, l), m);
    var next := Step(net, q, l, cur);
    if next != cur {
      ReachStep(net.nodes, l, cur, cur, next);
      assert next in Closer(net, q, Distance(net, q, cur));
      assert next !in Closer(net, q, Distance(net, q, next));
    }
  }

  /** Where the walk from `cur` ends. */
  ghost function WalkEnd(net: Net, q: Vector, l: nat, cur: nat, m: nat): nat
    requires Wired(net.nodes, m) && LivesOn(net.nodes, cur, l)
    decreases Closer(net, q, Distance(net, q, cur))
  {
    StepIsNearer(net, q, l, cur, m);
    var next := Step(net, q, l, cur);
    if next == cur then cur else WalkEnd(net, q, l, next, m)
  }

  /** It ends where no neighbour is nearer. */
  lemma {:induction false} WalkEndsNearest(net: Net, q: Vector, l: nat, cur: nat, m: nat)
    requires Wired(net.nodes, m) && LivesOn(net.nodes, cur, l)
    ensures var end := WalkEnd(net, q, l, cur, m);
      && LivesOn(net.nodes, end, l) && Reach(net.nodes, l, cur, end) && Distance(net, q, end) <= Distance(net, q, cur)
      && forall n :: n in NeighboursAt(net.nodes, end, l) ==> Distance(net, q, end) <= Distance(net, q, n)
    decreases Closer(net, q, Distance(net, q, cur))
  {
    StepIsNearer(net, q, l, cur, m);
    NearestIsNearest(net, q, cur, NeighboursAt(net.nodes, cur, l));
    var next := Step(net, q, l, cur);
    if next != cur {
      WalkEndsNearest(net, q, l, next, m);
      ReachOn(net.nodes, l, cur, next, WalkEnd(net, q, l, next, m));
    }
  }

  lemma ReachOn(nodes: seq<Node>, l: nat, a: nat, b: nat, c: nat)
    requires Reach(nodes, l, a, b) && Reach(nodes, l, b, c)
    ensures Reach(nodes, l, a, c)
  {
  }

  /** Walks on one layer until no neighbour is closer. */
  method GreedyStep(net: Net, q: Vector, start: nat, l: nat, ghost m: nat) returns (cur: nat)
    requires Wired(net.nodes, m) && LivesOn(net.nodes, start, l)
    ensures cur == WalkEnd(net, q, l, start, m) && LivesOn(net.nodes, cur, l)
  {
    cur := start;
    var improved := true;
    while improved
      invariant LivesOn(net.nodes, cur, l) && WalkEnd(net, q, l, cur, m) == WalkEnd(net, q, l, start, m)
      invariant !improved ==> WalkEnd(net, q, l, cur, m) == cur
      decreases Closer(net, q, Distance(net, q, cur)), improved
    {
      StepIsNearer(net, q, l, cur, m);
      var next := NearestAmong(net, q, cur, NeighboursAt(net.nodes, cur, l));
      improved := next != cur;
      cur := next;
    }
  }

  method NearestAmong(net: Net, q: Vector, cur: nat, around: seq<nat>) returns (best: nat)
    ensures best == Nearest(net, q, cur, around)
  {
    best := cur;
    var i := 0;
    while i < |around|
      invariant 0 <= i <= |around| && best == Nearest(net, q, cur, around[..i])
    {
      assert around[..i + 1][..i] == around[..i];
      if Distance(net, q, around[i]) < Distance(net, q, best) {
        best := around[i];
      }
      i := i + 1;
    }
    assert around[..i] == around;
  }

  /** Down from layer `from` to just above layer `to`, one walk a layer. */
  ghost function DescentEnd(net: Net, q: Vector, cur: nat, from: nat, to: nat, m: nat): nat
    requires Wired(net.nodes, m) && LivesOn(net.nodes, cur, from)
    decreases from
  {
    if from <= to then cur
    else
      WalkEndsNearest(net, q, from, cur, m);
      DescentEnd(net, q, WalkEnd(net, q, from, cur, m), from - 1, to, m)
  }

  /** From `cur` on layer `from`, one layer after the other, to an element reached there that
      no neighbour of it beats; `end` is where that leaves off above layer `to`. */
  ghost predicate DescendsTo(net: Net, q: Vector, cur: nat, from: nat, to: nat, end: nat)
    decreases from
  {
    if from <= to then end == cur
    else exists next :: WalksTo(net, q, from, cur, next) && DescendsTo(net, q, next, from - 1, to, end)
  }

  ghost predicate WalksTo(net: Net, q: Vector, l: nat, cur: nat, end: nat) {
    && Reach(net.nodes, l, cur, end)
    && forall n :: n in NeighboursAt(net.nodes, end, l) ==> Distance(net, q, end) <= Distance(net, q, n)
  }

  /** The descent walks down layer by layer. */
  lemma {:induction false} DescentIsGreedy(net: Net, q: Vector, cur: nat, from: nat, to: nat, m: nat)
    requires Wired(net.nodes, m) && LivesOn(net.nodes, cur, from)
    ensures DescendsTo(net, q, cur, from, to, DescentEnd(net, q, cur, from, to, m))
    decreases from
  {
    if to < from {
      WalkEndsNearest(net, q, from, cur, m);
      var next := WalkEnd(net, q, from, cur, m);
      assert WalksTo(net, q, from, cur, next);
      DescentIsGreedy(net, q, next, from - 1, to, m);
    }
  }

  lemma {:induction false} DescentLands(net: Net, q: Vector, cur: nat, from: nat, to: nat, m: nat)
    requires Wired(net.nodes, m) && LivesOn(net.nodes, cur, from)
    ensures LivesOn(net.nodes, DescentEnd(net, q, cur, from, to, m), if to < from then to else from)
    decreases from
  {
    if to < from {
      WalkEndsNearest(net, q, from, cur, m);
      var next := WalkEnd(net, q, from, cur, m);
      DescentLands(net, q, next, from - 1, to, m);
    }
  }

  /** It does not land on an element nobody links to. */
  lemma {:induction false} DescentAvoids(net: Net, q: Vector, cur: nat, from: nat, to: nat, m: nat, x: nat)
    requires Wired(net.nodes, m) && LivesOn(net.nodes, cur, from) && x != cur
    requires forall l: nat :: Unlinked(net.nodes, x, l)
    ensures DescentEnd(net, q, cur, from, to, m) != x
    decreases from
  {
    if to < from {
      WalkEndsNearest(net, q, from, cur, m);
      var next := WalkEnd(net, q, from, cur, m);
      assert Unlinked(net.nodes, x, from);
      ReachStays(net.nodes, m, from, cur, next);
      DescentAvoids(net, q, next, from - 1, to, m, x);
    }
  }

  /** The greedy half of an insertion or a query. */
  method Descend(net: Net, q: Vector, start: nat, from: nat, to: nat, ghost m: nat) returns (cur: nat)
    requires Wired(net.nodes, m) && LivesOn(net.nodes, start, from)
    ensures cur == DescentEnd(net, q, start, from, to, m)
  {
    cur := start;
    var l: nat := from;
    while l > to
      invariant l <= from && LivesOn(net.nodes, cur, l)
      invariant DescentEnd(net, q, cur, l, to, m) == DescentEnd(net, q, start, from, to, m)
    {
      cur := GreedyStep(net, q, cur, l, m);
      l := l - 1;
    }
  }
}
