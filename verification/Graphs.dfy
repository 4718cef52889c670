// Directed graphs of pages: reachability along links, the adjacency lists built
// from them, and a small sort.

module Graphs {
  // Page ids, numbered in their string order.
  type NodeId = nat

  datatype Edge = Edge(from: NodeId, to: NodeId)

  datatype Graph = Graph(nodes: seq<NodeId>, edges: seq<Edge>)

  /** Nodes holds every page: each edge joins two of them. */
  ghost predicate Closed(g: Graph) {
    forall e :: e in g.edges ==> e.from in g.nodes && e.to in g.nodes
  }

  predicate Links(g: Graph, a: NodeId, b: NodeId) {
    Edge(a, b) in g.edges
  }

  ghost predicate IsPath(g: Graph, p: seq<NodeId>) {
    p != [] && forall i :: 0 <= i < |p| - 1 ==> Links(g, p[i], p[i + 1])
  }

  ghost predicate PathFrom(g: Graph, p: seq<NodeId>, a: NodeId, b: NodeId) {
    IsPath(g, p) && p[0] == a && p[|p| - 1] == b
  }

  /** `b` can be reached from `a` along links, in zero or more steps. */
  ghost predicate Reaches(g: Graph, a: NodeId, b: NodeId) {
    exists p :: PathFrom(g, p, a, b)
  }

  lemma ReachesSelf(g: Graph, a: NodeId)
    ensures Reaches(g, a, a)
  {
    assert PathFrom(g, [a], a, a);
  }

  lemma ReachesLink(g: Graph, a: NodeId, b: NodeId)
    requires Links(g, a, b)
    ensures Reaches(g, a, b)
  {
    assert PathFrom(g, [a, b], a, b);
  }

  lemma ReachesOn(g: Graph, a: NodeId, b: NodeId, c: NodeId)
    requires Reaches(g, a, b) && Reaches(g, b, c)
    ensures Reaches(g, a, c)
  {
    var p :| PathFrom(g, p, a, b);
    var q :| PathFrom(g, q, b, c);
    var r := p + q[1..];
    forall i | 0 <= i < |r| - 1 ensures Links(g, r[i], r[i + 1]) {
      if i < |p| - 1 {
        assert Links(g, p[i], p[i + 1]);
      } else {
        assert Links(g, q[i - |p| + 1], q[i - |p| + 2]);
      }
    }
    assert PathFrom(g, r, a, c);
  }

  /** A set closed under links keeps whatever it reaches. */
  lemma {:induction false} ClosedUnderPath(g: Graph, s: set<NodeId>, p: seq<NodeId>)
    requires IsPath(g, p) && p[0] in s
    requires forall a, b :: a in s && Links(g, a, b) ==> b in s
    ensures p[|p| - 1] in s
  {
    if |p| > 1 {
      var q := p[1..];
      assert Links(g, p[0], p[1]);
      forall i | 0 <= i < |q| - 1 ensures Links(g, q[i], q[i + 1]) {
        assert Links(g, p[i + 1], p[i + 2]);
      }
      ClosedUnderPath(g, s, q);
    }
  }

  lemma ClosedUnderReach(g: Graph, s: set<NodeId>, a: NodeId, b: NodeId)
    requires a in s && Reaches(g, a, b)
    requires forall x, y :: x in s && Links(g, x, y) ==> y in s
    ensures b in s
  {
    var p :| PathFrom(g, p, a, b);
    ClosedUnderPath(g, s, p);
  }

  /** Each reaches the other. */
  ghost predicate Strong(g: Graph, a: NodeId, b: NodeId) {
    Reaches(g, a, b) && Reaches(g, b, a)
  }

  /** How many edges lead from `a` to `b`. */
  function EdgeCount(edges: seq<Edge>, a: NodeId, b: NodeId): nat {
    if edges == [] then 0
    else EdgeCount(edges[..|edges| - 1], a, b) + if edges[|edges| - 1] == Edge(a, b) then 1 else 0
  }

  lemma {:induction false} CountedMeansLinked(edges: seq<Edge>, a: NodeId, b: NodeId)
    ensures EdgeCount(edges, a, b) > 0 <==> Edge(a, b) in edges
  {
    if edges != [] {
      CountedMeansLinked(edges[..|edges| - 1], a, b);
      assert edges == edges[..|edges| - 1] + [edges[|edges| - 1]];
    }
  }

  /** The out-edges of each node, as often as they are listed. */
  ghost predicate Lists(out: map<NodeId, seq<NodeId>>, edges: seq<Edge>) {
    forall n, m :: n in out ==> multiset(out[n])[m] == EdgeCount(edges, n, m)
  }

  /** The links at each node, whichever way they point, a link to itself twice. */
  ghost predicate ListsBoth(both: map<NodeId, seq<NodeId>>, edges: seq<Edge>) {
    forall n, m :: n in both ==> multiset(both[n])[m] == EdgeCount(edges, n, m) + EdgeCount(edges, m, n)
  }

  /** Out-edges of every node, and its links in both directions, in edge order. */
  method BuildAdjacency(g: Graph) returns (directed: map<NodeId, seq<NodeId>>, undirected: map<NodeId, seq<NodeId>>)
    requires Closed(g)
    ensures forall n :: n in directed <==> n in g.nodes
    ensures forall n :: n in undirected <==> n in g.nodes
    ensures Lists(directed, g.edges) && ListsBoth(undirected, g.edges)
  {
    directed := NoLinks(g);
    undirected := NoLinks(g);
    var i := 0;
    while i < |g.edges|
      invariant 0 <= i <= |g.edges|
      invariant forall n :: n in directed <==> n in g.nodes
      invariant forall n :: n in undirected <==> n in g.nodes
      invariant Lists(directed, g.edges[..i]) && ListsBoth(undirected, g.edges[..i])
    {
      directed := AddOut(g, directed, i);
      undirected := AddBoth(g, undirected, i);
      i := i + 1;
    }
    assert g.edges[..i] == g.edges;
  }

  /** What is listed at a node is what it links to. */
  lemma ListedMeansLinked(g: Graph, out: map<NodeId, seq<NodeId>>)
    requires Lists(out, g.edges)
    ensures forall n, m :: n in out ==> (m in out[n] <==> Links(g, n, m))
  {
    forall n, m | n in out ensures m in out[n] <==> Links(g, n, m) {
      CountedMeansLinked(g.edges, n, m);
    }
  }

  /** Lists one link at its start. */
  method AddOut(g: Graph, out: map<NodeId, seq<NodeId>>, i: nat) returns (more: map<NodeId, seq<NodeId>>)
    requires Closed(g) && i < |g.edges| && (forall n :: n in out <==> n in g.nodes) && Lists(out, g.edges[..i])
    ensures (forall n :: n in more <==> n in g.nodes) && Lists(more, g.edges[..i + 1])
  {
    var e := g.edges[i];
    ListOne(g.edges, i);
    more := out[e.from := out[e.from] + [e.to]];
  }

  method NoLinks(g: Graph) returns (out: map<NodeId, seq<NodeId>>)
    ensures forall n :: n in out <==> n in g.nodes
    ensures forall n :: n in out ==> out[n] == []
  {
    out := map[];
    var i := 0;
    while i < |g.nodes|
      invariant 0 <= i <= |g.nodes|
      invariant forall n :: n in out <==> n in g.nodes[..i]
      invariant forall n :: n in out ==> out[n] == []
    {
      out := out[g.nodes[i] := []];
      i := i + 1;
    }
    assert g.nodes[..i] == g.nodes;
  }

  /** Lists one link at both its ends. */
  method AddBoth(g: Graph, both: map<NodeId, seq<NodeId>>, i: nat) returns (more: map<NodeId, seq<NodeId>>)
    requires Closed(g) && i < |g.edges| && (forall n :: n in both <==> n in g.nodes) && ListsBoth(both, g.edges[..i])
    ensures (forall n :: n in more <==> n in g.nodes) && ListsBoth(more, g.edges[..i + 1])
  {
    var e := g.edges[i];
    var half := ListAt(both, e.from, e.to);
    more := ListAt(half, e.to, e.from);
    ListOne(g.edges, i);
  }

  /** Lists `m` once more at `n`. */
  method ListAt(lists: map<NodeId, seq<NodeId>>, n: NodeId, m: NodeId) returns (more: map<NodeId, seq<NodeId>>)
    requires n in lists
    ensures more.Keys == lists.Keys
    ensures forall x, y :: x in lists ==>
      multiset(more[x])[y] == multiset(lists[x])[y] + if x == n && y == m then 1 else 0
  {
    more := lists[n := lists[n] + [m]];
  }

  lemma ListOne(edges: seq<Edge>, i: nat)
    requires i < |edges|
    ensures forall n, m :: EdgeCount(edges[..i + 1], n, m) == EdgeCount(edges[..i], n, m) + if edges[i] == Edge(n, m) then 1 else 0
  {
    assert edges[..i + 1][..i] == edges[..i];
  }

  /** Ascending, by insertion; a sort is a library call in the original. */
  method Sorted(s: seq<NodeId>) returns (r: seq<NodeId>)
    ensures Ascends(r) && multiset(r) == multiset(s)
    ensures |r| == |s| && forall x :: x in r <==> x in s
  {
    r := [];
    var i := 0;
    while i < |s|
      invariant 0 <= i <= |s| && Ascends(r) && multiset(r) == multiset(s[..i])
    {
      assert s[..i + 1] == s[..i] + [s[i]];
      r := Insert(r, s[i]);
      i := i + 1;
    }
    assert s[..i] == s;
    SameMembers(r, s);
  }

  ghost predicate Ascends(r: seq<NodeId>) {
    forall i, j :: 0 <= i < j < |r| ==> r[i] <= r[j]
  }

  lemma SameMembers(r: seq<NodeId>, s: seq<NodeId>)
    requires multiset(r) == multiset(s)
    ensures |r| == |s| && forall x :: x in r <==> x in s
  {
    assert |multiset(r)| == |multiset(s)|;
    assert forall x :: x in r <==> x in multiset(r);
    assert forall x :: x in s <==> x in multiset(s);
  }

  method Insert(r: seq<NodeId>, x: NodeId) returns (t: seq<NodeId>)
    requires Ascends(r)
    ensures Ascends(t) && multiset(t) == multiset(r) + multiset{x}
  {
    var j := |r|;
    while j > 0 && x < r[j - 1]
      invariant 0 <= j <= |r|
      invariant forall k :: j <= k < |r| ==> x < r[k]
    {
      j := j - 1;
    }
    InsertInto(r, j, x);
    t := r[..j] + [x] + r[j..];
    assert r == r[..j] + r[j..];
  }

  lemma InsertInto(r: seq<NodeId>, j: nat, x: NodeId)
    requires Ascends(r) && j <= |r| && (j > 0 ==> r[j - 1] <= x) && forall k :: j <= k < |r| ==> x < r[k]
    ensures Ascends(r[..j] + [x] + r[j..])
  {
    var t := r[..j] + [x] + r[j..];
    forall k | 0 <= k < j ensures r[k] <= x {
      if k < j - 1 {
        assert r[k] <= r[j - 1];
      }
    }
    forall a, b | 0 <= a < b < |t| ensures t[a] <= t[b] {
      assert t[a] == if a < j then r[a] else if a == j then x else r[a - 1];
      assert t[b] == if b < j then r[b] else if b == j then x else r[b - 1];
    }
  }

  lemma InsertKeepsMembers(r: seq<NodeId>, j: nat, x: NodeId)
    requires j <= |r|
    ensures forall y :: y in r[..j] + [x] + r[j..] <==> y in r || y == x
  {
    assert r == r[..j] + r[j..];
  }
}
