// Components, by smallest member.

module Components {
  import opened Graphs
  import opened Tarjans

  type Labels = map<NodeId, nat>

  /** Two nodes share a number exactly when each reaches the other. */
  ghost predicate Partitions(g: Graph, ids: Labels) {
    && (forall n :: n in ids <==> n in g.nodes)
    && (forall a, b :: a in ids && b in ids ==> (ids[a] == ids[b] <==> Strong(g, a, b)))
  }

  ghost predicate SamePartition(comp: Labels, ids: Labels) {
    && (forall n :: n in ids <==> n in comp)
    && (forall a, b :: a in ids && b in ids ==> (ids[a] == ids[b] <==> comp[a] == comp[b]))
  }

  /** `n` is the smallest member of its component. */
  ghost predicate IsFirst(ids: Labels, n: NodeId) {
    n in ids && forall m :: m in ids && ids[m] == ids[n] ==> n <= m
  }

  ghost predicate Used(ids: Labels, c: nat) {
    exists m :: m in ids && ids[m] == c
  }

  /** The numbers are 0, 1, ... without a gap, in order of each component's smallest member. */
  ghost predicate InOrder(ids: Labels) {
    && (forall a, b :: IsFirst(ids, a) && IsFirst(ids, b) && a < b ==> ids[a] < ids[b])
    && (forall n, c: nat :: n in ids && c < ids[n] ==> Used(ids, c))
  }

  // ----- The numbering is determined by the partition

  lemma {:induction false} FirstOf(ids: Labels, n: NodeId) returns (f: NodeId)
    requires n in ids
    ensures IsFirst(ids, f) && ids[f] == ids[n] && f <= n
    decreases n
  {
    if IsFirst(ids, n) {
      f := n;
    } else {
      var m :| m in ids && ids[m] == ids[n] && m < n;
      f := FirstOf(ids, m);
    }
  }

  lemma {:induction false} FirstsAgree(p: Labels, q: Labels, n: NodeId)
    requires SamePartition(p, q) && InOrder(p) && InOrder(q) && IsFirst(p, n)
    ensures p[n] == q[n]
    decreases n
  {
    if p[n] < q[n] {
      NoLowerLabel(p, q, n);
    } else if q[n] < p[n] {
      NoLowerLabel(q, p, n);
    }
  }

  lemma NoLowerLabel(p: Labels, q: Labels, n: NodeId)
    requires SamePartition(p, q) && InOrder(p) && InOrder(q) && IsFirst(p, n)
    ensures p[n] >= q[n]
    decreases n, 0
  {
    if p[n] < q[n] {
      assert Used(q, p[n]);
      var m :| m in q && q[m] == p[n];
      var f := FirstOf(q, m);
      assert IsFirst(q, n) && IsFirst(p, f);
      assert f < n;
      FirstsAgree(p, q, f);
    }
  }

  /** One partition has one such numbering. */
  lemma NumberingIsUnique(p: Labels, q: Labels)
    requires SamePartition(p, q) && InOrder(p) && InOrder(q)
    ensures p == q
  {
    forall n | n in p ensures p[n] == q[n] {
      var f := FirstOf(p, n);
      FirstsAgree(p, q, f);
    }
  }

  lemma SameLinksReach(g: Graph, h: Graph, a: NodeId, b: NodeId)
    requires forall e :: e in g.edges ==> e in h.edges
    requires Reaches(g, a, b)
    ensures Reaches(h, a, b)
  {
    var p :| PathFrom(g, p, a, b);
    forall i | 0 <= i < |p| - 1 ensures Links(h, p[i], p[i + 1]) {
      assert Links(g, p[i], p[i + 1]);
    }
    assert PathFrom(h, p, a, b);
  }

  /** The result depends only on which nodes and edges there are, in whatever order. */
  lemma OrderIsIrrelevant(g: Graph, h: Graph, p: Labels, q: Labels)
    requires forall n :: n in g.nodes <==> n in h.nodes
    requires forall e :: e in g.edges <==> e in h.edges
    requires Partitions(g, p) && InOrder(p) && Partitions(h, q) && InOrder(q)
    ensures p == q
  {
    forall a, b | a in q && b in q ensures q[a] == q[b] <==> p[a] == p[b] {
      if Strong(g, a, b) {
        SameLinksReach(g, h, a, b);
        SameLinksReach(g, h, b, a);
      }
      if Strong(h, a, b) {
        SameLinksReach(h, g, a, b);
        SameLinksReach(h, g, b, a);
      }
    }
    NumberingIsUnique(p, q);
  }

  /** A node is alone in its component exactly when no other node is on a cycle with it. */
  lemma AloneUnlessOnCycle(g: Graph, ids: Labels, n: NodeId)
    requires Closed(g) && Partitions(g, ids) && n in ids
    ensures (exists m :: m in ids && m != n && ids[m] == ids[n])
       <==> (exists m :: m != n && Links(g, n, m) && Reaches(g, m, n))
  {
    if m :| m in ids && m != n && ids[m] == ids[n] {
      assert Strong(g, m, n);
      var k := FirstStep(g, n, m);
      ReachesOn(g, k, m, n);
    }
    if m :| m != n && Links(g, n, m) && Reaches(g, m, n) {
      ReachesLink(g, n, m);
      assert Edge(n, m) in g.edges;
      assert Strong(g, m, n) && m in ids;
    }
  }

  /** A way from `a` to another node leaves `a` for good by some link. */
  lemma {:induction false} FirstStepOf(g: Graph, p: seq<NodeId>, a: NodeId, b: NodeId) returns (k: NodeId)
    requires PathFrom(g, p, a, b) && a != b
    ensures k != a && Links(g, a, k) && Reaches(g, k, b)
    decreases |p|
  {
    var q := p[1..];
    assert Links(g, p[0], p[1]);
    forall i | 0 <= i < |q| - 1 ensures Links(g, q[i], q[i + 1]) {
      assert Links(g, p[i + 1], p[i + 2]);
    }
    assert PathFrom(g, q, p[1], b);
    if p[1] == a {
      k := FirstStepOf(g, q, a, b);
    } else {
      k := p[1];
    }
  }

  lemma FirstStep(g: Graph, a: NodeId, b: NodeId) returns (k: NodeId)
    requires Reaches(g, a, b) && a != b
    ensures k != a && Links(g, a, k) && Reaches(g, k, b)
  {
    var p :| PathFrom(g, p, a, b);
    k := FirstStepOf(g, p, a, b);
  }

  // ----- Renumbering

  /** For each component its smallest member. */
  ghost predicate Smallest(comp: Labels, nodes: set<NodeId>, smallest: map<nat, NodeId>) {
    && (forall n :: n in nodes && n in comp ==> comp[n] in smallest && smallest[comp[n]] <= n)
    && (forall c :: c in smallest ==> smallest[c] in nodes && smallest[c] in comp && comp[smallest[c]] == c)
  }

  method SmallestMembers(comp: Labels) returns (smallest: map<nat, NodeId>)
    ensures Smallest(comp, comp.Keys, smallest)
  {
    smallest := map[];
    var rest := comp.Keys;
    while rest != {}
      invariant rest <= comp.Keys && Smallest(comp, comp.Keys - rest, smallest)
      decreases |rest|
    {
      var n :| n in rest;
      var c := comp[n];
      if c !in smallest || n < smallest[c] {
        smallest := smallest[c := n];
      }
      rest := rest - {n};
    }
  }

  /** Strictly ascending by smallest member. */
  ghost predicate Ascending(order: seq<nat>, smallest: map<nat, NodeId>) {
    && (forall i :: 0 <= i < |order| ==> order[i] in smallest)
    && (forall i, j :: 0 <= i < j < |order| ==> smallest[order[i]] < smallest[order[j]])
  }

  method Place(order: seq<nat>, smallest: map<nat, NodeId>, c: nat) returns (wider: seq<nat>)
    requires Ascending(order, smallest) && c in smallest
    requires forall i :: 0 <= i < |order| ==> smallest[order[i]] != smallest[c]
    ensures Ascending(wider, smallest) && forall x :: x in wider <==> x in order || x == c
  {
    var j := |order|;
    while j > 0 && smallest[c] < smallest[order[j - 1]]
      invariant 0 <= j <= |order|
      invariant forall k :: j <= k < |order| ==> smallest[c] < smallest[order[k]]
    {
      j := j - 1;
    }
    wider := order[..j] + [c] + order[j..];
    InsertKeepsMembers(order, j, c);
    LowerPart(order, smallest, c, j);
    PlacedAscending(order, smallest, c, j);
  }

  lemma LowerPart(order: seq<nat>, smallest: map<nat, NodeId>, c: nat, j: nat)
    requires Ascending(order, smallest) && c in smallest && j <= |order|
    requires j > 0 ==> smallest[order[j - 1]] < smallest[c]
    ensures forall k :: 0 <= k < j ==> smallest[order[k]] < smallest[c]
  {
  }

  lemma PlacedAscending(order: seq<nat>, smallest: map<nat, NodeId>, c: nat, j: nat)
    requires Ascending(order, smallest) && c in smallest && j <= |order|
    requires forall k :: 0 <= k < j ==> smallest[order[k]] < smallest[c]
    requires forall k :: j <= k < |order| ==> smallest[c] < smallest[order[k]]
    ensures Ascending(order[..j] + [c] + order[j..], smallest)
  {
  }

  method SortedBySmallest(comp: Labels, smallest: map<nat, NodeId>) returns (order: seq<nat>)
    requires Smallest(comp, comp.Keys, smallest)
    ensures Ascending(order, smallest) && forall c :: c in order <==> c in smallest
  {
    order := [];
    var rest := smallest.Keys;
    while rest != {}
      invariant rest <= smallest.Keys && Ascending(order, smallest)
      invariant forall c :: c in order <==> c in smallest && c !in rest
      decreases |rest|
    {
      var c :| c in rest;
      order := Place(order, smallest, c);
      rest := rest - {c};
    }
  }

  method Ranks(order: seq<nat>, ghost smallest: map<nat, NodeId>) returns (rank: map<nat, nat>)
    requires Ascending(order, smallest)
    ensures forall c :: c in rank <==> c in order
    ensures forall i :: 0 <= i < |order| ==> rank[order[i]] == i
  {
    rank := map[];
    var i := 0;
    while i < |order|
      invariant 0 <= i <= |order|
      invariant forall c :: c in rank <==> c in order[..i]
      invariant forall j :: 0 <= j < i ==> order[j] in order[..i] && rank[order[j]] == j
    {
      assert order[..i + 1] == order[..i] + [order[i]];
      rank := rank[order[i] := i];
      i := i + 1;
    }
    assert order[..i] == order;
  }

  /** Renumbers the components by smallest member; which nodes share one does not change. */
  method RelabelBySmallestMember(comp: Labels) returns (ids: Labels)
    ensures SamePartition(comp, ids) && InOrder(ids)
  {
    var smallest := SmallestMembers(comp);
    var order := SortedBySmallest(comp, smallest);
    var rank := Ranks(order, smallest);
    ids := map n | n in comp :: rank[comp[n]];
    RanksSeparate(order, rank);
    RanksInOrder(comp, smallest, order, rank, ids);
  }

  lemma RanksSeparate(order: seq<nat>, rank: map<nat, nat>)
    requires forall c :: c in rank <==> c in order
    requires forall i :: 0 <= i < |order| ==> rank[order[i]] == i
    ensures forall c :: c in rank ==> rank[c] < |order| && order[rank[c]] == c
  {
  }

  lemma RanksInOrder(comp: Labels, smallest: map<nat, NodeId>, order: seq<nat>, rank: map<nat, nat>, ids: Labels)
    requires Smallest(comp, comp.Keys, smallest) && Ascending(order, smallest)
    requires forall c :: c in rank ==> rank[c] < |order| && order[rank[c]] == c
    requires forall i :: 0 <= i < |order| ==> order[i] in rank && rank[order[i]] == i
    requires forall n :: n in ids <==> n in comp
    requires forall n :: n in comp ==> comp[n] in rank && ids[n] == rank[comp[n]]
    ensures SamePartition(comp, ids) && InOrder(ids)
  {
    forall a, b | IsFirst(ids, a) && IsFirst(ids, b) && a < b ensures ids[a] < ids[b] {
      assert smallest[comp[a]] == a && smallest[comp[b]] == b;
      assert order[ids[a]] == comp[a] && order[ids[b]] == comp[b];
    }
    forall n, c: nat | n in ids && c < ids[n] ensures Used(ids, c) {
      var m := smallest[order[c]];
      assert m in ids && ids[m] == c;
    }
  }

  // ----- The whole computation

  lemma NothingLeft(g: Graph, stack: seq<NodeId>)
    requires AllAnchored(g, stack, {})
    ensures stack == []
  {
    assert |stack| > 0 ==> Anchored(g, stack, {}, 0);
  }

  /** With no visit running the stack is empty and every visited node is in a component. */
  lemma SearchIsOver(g: Graph, s: Search)
    requires Inv(g, s, {}) && forall n :: n in g.nodes ==> n in s.num
    ensures Partitions(g, s.comp)
  {
    NothingLeft(g, s.stack);
    forall a, b | a in s.comp && b in s.comp ensures s.comp[a] == s.comp[b] <==> Strong(g, a, b) {
      assert Strong(g, a, b) <==> SameComponent(s, a, b);
    }
  }

  method Start(search: Tarjan, n: NodeId)
    requires search.Valid({}) && n in search.g.nodes
    modifies search
    ensures search.Valid({}) && n in search.indexOf && forall m :: m in old(search.indexOf) ==> m in search.indexOf
  {
    if n !in search.indexOf {
      ghost var before := search.View();
      search.StrongConnect(n, {});
      assert Grows(before, search.View());
    }
  }

  method StartAll(search: Tarjan, nodes: seq<NodeId>)
    requires search.Valid({}) && forall n :: n in nodes ==> n in search.g.nodes
    modifies search
    ensures search.Valid({}) && forall n :: n in nodes ==> n in search.indexOf
  {
    var i := 0;
    ghost var done: set<NodeId> := {};
    while i < |nodes|
      invariant 0 <= i <= |nodes| && Started(search, done) && AllIn(nodes, i, done)
    {
      OneMoreIn(nodes, i, done);
      StartNext(search, done, nodes[i]);
      done := done + {nodes[i]};
      i := i + 1;
    }
  }

  method StartNext(search: Tarjan, ghost done: set<NodeId>, n: NodeId)
    requires Started(search, done) && n in search.g.nodes
    modifies search
    ensures Started(search, done + {n})
  {
    Start(search, n);
  }

  /** No visit is running, and these nodes have been visited. */
  ghost predicate Started(search: Tarjan, nodes: set<NodeId>)
    reads search
  {
    search.Valid({}) && forall n :: n in nodes ==> n in search.indexOf
  }

  /** Two nodes get the same number exactly when each reaches the other, and the
      numbers follow the components' smallest members. */
  method StronglyConnected(g: Graph) returns (ids: Labels)
    requires Closed(g)
    ensures Partitions(g, ids) && InOrder(ids)
  {
    var out, _ := BuildAdjacency(g);
    ListedMeansLinked(g, out);
    var nodes := Sorted(g.nodes);
    var search := new Tarjan(g, out);
    StartAll(search, nodes);
    SearchIsOver(g, search.View());
    var comp := search.comp;
    ids := RelabelBySmallestMember(comp);
    PartitionKept(g, comp, ids);
  }

  lemma PartitionKept(g: Graph, comp: Labels, ids: Labels)
    requires Partitions(g, comp) && SamePartition(comp, ids)
    ensures Partitions(g, ids)
  {
  }
}
