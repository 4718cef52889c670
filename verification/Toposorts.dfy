// Reading orders of the page graph.

module Toposorts {
  // The smallest page whose prerequisites are all placed comes next.

  import opened Sequences
  import opened Graphs

  // ----- What is computed

  /** Not placed yet, and every prerequisite is. */
  ghost predicate Available(g: Graph, placed: set<NodeId>, n: NodeId) {
    n in g.nodes && n !in placed && forall m :: Links(g, m, n) ==> m in placed
  }

  ghost predicate LeastAvailable(g: Graph, placed: set<NodeId>, n: NodeId) {
    Available(g, placed, n) && forall m :: Available(g, placed, m) ==> n <= m
  }

  /** Each page is the least one available after those before it. */
  ghost predicate Greedy(g: Graph, order: seq<NodeId>) {
    forall k :: 0 <= k < |order| ==> LeastAvailable(g, Elems(order[..k]), order[k])
  }

  ghost predicate Stuck(g: Graph, order: seq<NodeId>) {
    forall n :: !Available(g, Elems(order), n)
  }

  /** A reading order: every page once, every link forward. */
  ghost predicate Topological(g: Graph, t: seq<NodeId>) {
    && (forall i, j :: 0 <= i < j < |t| ==> t[i] != t[j])
    && (forall n :: n in t <==> n in g.nodes)
    && (forall i, j :: 0 <= i < |t| && 0 <= j < |t| && Links(g, t[i], t[j]) ==> i < j)
  }

  predicate LexAtMost(a: seq<NodeId>, b: seq<NodeId>) {
    a == [] || (b != [] && (a[0] < b[0] || (a[0] == b[0] && LexAtMost(a[1..], b[1..]))))
  }

  ghost predicate OnCycle(g: Graph, c: NodeId) {
    exists m :: Links(g, c, m) && Reaches(g, m, c)
  }

  /** On a cycle, or reached from one. */
  ghost predicate Tangled(g: Graph, n: NodeId) {
    exists c :: OnCycle(g, c) && Reaches(g, c, n)
  }

  // ----- What is left to place before a page

  /** Links to `n` from pages not placed yet. */
  function Pending(edges: seq<Edge>, placed: set<NodeId>, n: NodeId): nat {
    if edges == [] then 0
    else
      var e := edges[|edges| - 1];
      Pending(edges[..|edges| - 1], placed, n) + if e.to == n && e.from !in placed then 1 else 0
  }

  lemma {:induction false} NonePending(edges: seq<Edge>, placed: set<NodeId>, n: NodeId)
    ensures Pending(edges, placed, n) == 0 <==> forall e :: e in edges && e.to == n ==> e.from in placed
  {
    if edges != [] {
      var rest, last := edges[..|edges| - 1], edges[|edges| - 1];
      NonePending(rest, placed, n);
      assert edges == rest + [last];
    }
  }

  lemma {:induction false} PendingAfter(edges: seq<Edge>, placed: set<NodeId>, n: NodeId, m: NodeId)
    requires n !in placed
    ensures Pending(edges, placed, m) == Pending(edges, placed + {n}, m) + EdgeCount(edges, n, m)
  {
    if edges != [] {
      PendingAfter(edges[..|edges| - 1], placed, n, m);
    }
  }

  lemma AvailableIsUnblocked(g: Graph, placed: set<NodeId>, n: NodeId)
    ensures Available(g, placed, n) <==> n in g.nodes && n !in placed && Pending(g.edges, placed, n) == 0
  {
    NonePending(g.edges, placed, n);
    assert forall m :: Links(g, m, n) <==> Edge(m, n) in g.edges;
    assert forall e :: e in g.edges && e.to == n ==> e == Edge(e.from, n);
  }

  // ----- The computation

  ghost predicate Counted(g: Graph, placed: set<NodeId>, indegree: map<NodeId, int>) {
    && (forall n :: n in indegree <==> n in g.nodes)
    && (forall n :: n in indegree ==> indegree[n] == Pending(g.edges, placed, n))
  }

  ghost predicate NoRepeats(s: seq<NodeId>) {
    forall n :: multiset(s)[n] <= 1
  }

  /** Prerequisites of placed pages are placed. */
  ghost predicate Grounded(g: Graph, placed: set<NodeId>) {
    forall a, b :: Links(g, a, b) && b in placed ==> a in placed
  }

  ghost predicate Queued(g: Graph, placed: set<NodeId>, ready: seq<NodeId>) {
    NoRepeats(ready) && forall n :: n in ready <==> Available(g, placed, n)
  }

  /** The unplaced pages with nothing pending. */
  ghost predicate Waiting(g: Graph, placed: set<NodeId>, indegree: map<NodeId, int>, ready: seq<NodeId>)
    requires forall n :: n in g.nodes ==> n in indegree
  {
    NoRepeats(ready) && forall n :: n in ready <==> n in g.nodes && n !in placed && indegree[n] == 0
  }

  lemma QueuedIsWaiting(g: Graph, placed: set<NodeId>, indegree: map<NodeId, int>, ready: seq<NodeId>)
    requires Counted(g, placed, indegree)
    ensures Queued(g, placed, ready) <==> Waiting(g, placed, indegree, ready)
  {
    forall n ensures Available(g, placed, n) <==> n in g.nodes && n !in placed && indegree[n] == 0 {
      AvailableIsUnblocked(g, placed, n);
    }
  }

  method CountIncoming(g: Graph) returns (indegree: map<NodeId, int>)
    requires Closed(g)
    ensures Counted(g, {}, indegree)
  {
    indegree := map[];
    var i := 0;
    while i < |g.nodes|
      invariant 0 <= i <= |g.nodes|
      invariant forall n :: n in indegree <==> n in g.nodes[..i]
      invariant forall n :: n in indegree ==> indegree[n] == 0
    {
      indegree := indegree[g.nodes[i] := 0];
      i := i + 1;
    }
    assert g.nodes[..i] == g.nodes;
    i := 0;
    while i < |g.edges|
      invariant 0 <= i <= |g.edges|
      invariant forall n :: n in indegree <==> n in g.nodes
      invariant forall n :: n in indegree ==> indegree[n] == Pending(g.edges[..i], {}, n)
    {
      var e := g.edges[i];
      assert g.edges[..i + 1][..i] == g.edges[..i];
      indegree := indegree[e.to := indegree[e.to] + 1];
      i := i + 1;
    }
    assert g.edges[..i] == g.edges;
  }

  method FirstReady(g: Graph, indegree: map<NodeId, int>) returns (ready: seq<NodeId>)
    requires Counted(g, {}, indegree)
    ensures Queued(g, {}, ready)
  {
    ready := [];
    var rest := indegree.Keys;
    while rest != {}
      invariant rest <= indegree.Keys && NoRepeats(ready)
      invariant forall n :: n in ready <==> n in g.nodes && n !in rest && indegree[n] == 0
      decreases |rest|
    {
      var n :| n in rest;
      if indegree[n] == 0 {
        AppendNew(ready, n);
        ready := ready + [n];
      }
      rest := rest - {n};
    }
    QueuedIsWaiting(g, {}, indegree, ready);
  }

  lemma AppendNew(s: seq<NodeId>, n: NodeId)
    requires NoRepeats(s) && n !in s
    ensures NoRepeats(s + [n]) && forall m :: m in s + [n] <==> m in s || m == n
  {
  }

  /** Placing `n` takes its links off the counts; pages left with none become ready. */
  method Release(g: Graph, ghost placed: set<NodeId>, n: NodeId, out: seq<NodeId>,
                 indegree0: map<NodeId, int>, ready0: seq<NodeId>)
    returns (indegree: map<NodeId, int>, ready: seq<NodeId>)
    requires Closed(g) && Counted(g, placed, indegree0) && Grounded(g, placed) && Available(g, placed, n)
    requires forall m :: multiset(out)[m] == EdgeCount(g.edges, n, m)
    requires Waiting(g, placed + {n}, indegree0, ready0)
    ensures Counted(g, placed + {n}, indegree) && Queued(g, placed + {n}, ready)
  {
    indegree, ready := indegree0, ready0;
    var j := 0;
    while j < |out|
      invariant 0 <= j <= |out|
      invariant TakenOff(g, indegree0, indegree, out[..j]) && Waiting(g, placed + {n}, indegree, ready)
    {
      var m := out[j];
      OutIsBlocked(g, placed, n, out, j);
      TakenOffNext(g, indegree0, indegree, out, j, m);
      TakeOff(g, placed + {n}, indegree, ready, m);
      indegree := indegree[m := indegree[m] - 1];
      if indegree[m] == 0 {
        ready := ready + [m];
      }
      j := j + 1;
    }
    assert out[..j] == out;
    AllTakenOff(g, placed, n, out, indegree0, indegree, ready);
  }

  /** The links in `done` have been taken off the counts. */
  ghost predicate TakenOff(g: Graph, indegree0: map<NodeId, int>, indegree: map<NodeId, int>, done: seq<NodeId>) {
    && (forall m :: m in indegree <==> m in g.nodes)
    && (forall m :: m in indegree ==> m in indegree0 && indegree[m] == indegree0[m] - multiset(done)[m])
  }

  lemma TakenOffNext(g: Graph, indegree0: map<NodeId, int>, indegree: map<NodeId, int>, out: seq<NodeId>, j: nat, m: NodeId)
    requires j < |out| && m == out[j] && m in g.nodes && TakenOff(g, indegree0, indegree, out[..j])
    ensures TakenOff(g, indegree0, indegree[m := indegree[m] - 1], out[..j + 1])
  {
    assert out[..j + 1] == out[..j] + [m];
  }

  /** A page whose last pending link is taken off becomes ready. */
  lemma TakeOff(g: Graph, placed: set<NodeId>, indegree: map<NodeId, int>, ready: seq<NodeId>, m: NodeId)
    requires (forall n :: n in g.nodes ==> n in indegree) && Waiting(g, placed, indegree, ready)
    requires m in g.nodes && m !in placed && indegree[m] > 0
    ensures Waiting(g, placed, indegree[m := indegree[m] - 1], if indegree[m] == 1 then ready + [m] else ready)
  {
    AppendNew(ready, m);
  }

  lemma AllTakenOff(g: Graph, placed: set<NodeId>, n: NodeId, out: seq<NodeId>,
                    indegree0: map<NodeId, int>, indegree: map<NodeId, int>, ready: seq<NodeId>)
    requires Closed(g) && Counted(g, placed, indegree0) && Available(g, placed, n)
    requires forall m :: multiset(out)[m] == EdgeCount(g.edges, n, m)
    requires TakenOff(g, indegree0, indegree, out)
    requires Waiting(g, placed + {n}, indegree, ready)
    ensures Counted(g, placed + {n}, indegree) && Queued(g, placed + {n}, ready)
  {
    forall m | m in indegree ensures indegree[m] == Pending(g.edges, placed + {n}, m) {
      PendingAfter(g.edges, placed, n, m);
    }
    QueuedIsWaiting(g, placed + {n}, indegree, ready);
  }

  /** A page that `n` links to is not placed, and still waits for the links not taken off yet. */
  lemma OutIsBlocked(g: Graph, placed: set<NodeId>, n: NodeId, out: seq<NodeId>, j: nat)
    requires Closed(g) && Grounded(g, placed) && Available(g, placed, n) && j < |out|
    requires forall m :: multiset(out)[m] == EdgeCount(g.edges, n, m)
    ensures out[j] in g.nodes && out[j] !in placed + {n}
    ensures multiset(out[..j])[out[j]] < Pending(g.edges, placed, out[j])
  {
    var m := out[j];
    assert out == out[..j] + [m] + out[j + 1..];
    CountedMeansLinked(g.edges, n, m);
    assert Links(g, n, m);
    PendingAfter(g.edges, placed, n, m);
  }

  /** Places the pages, least first; `ok` when all of them could be placed. */
  method TopologicalSort(g: Graph) returns (order: seq<NodeId>, ok: bool)
    requires Closed(g)
    ensures Greedy(g, order) && Stuck(g, order)
    ensures ok <==> |order| == |g.nodes|
  {
    var out, _ := BuildAdjacency(g);
    ListedMeansLinked(g, out);
    var indegree := CountIncoming(g);
    var ready := FirstReady(g, indegree);
    ready := SortReady(g, {}, ready);
    order := [];
    assert Elems(order) == {};
    while ready != []
      invariant Greedy(g, order) && Grounded(g, Elems(order)) && Elems(order) <= Elems(g.nodes)
      invariant Counted(g, Elems(order), indegree) && Queued(g, Elems(order), ready) && Ascends(ready)
      decreases Elems(g.nodes) - Elems(order)
    {
      ghost var placed := Elems(order);
      var n := ready[0];
      PlaceLeast(g, order, ready);
      QueuedIsWaiting(g, placed, indegree, ready);
      TakeFirst(g, placed, indegree, ready);
      ready := ready[1..];
      order := order + [n];
      var links := Sorted(out[n]);
      indegree, ready := Release(g, placed, n, links, indegree, ready);
      ready := SortReady(g, placed + {n}, ready);
    }
    ok := |order| == |g.nodes|;
  }

  method SortReady(g: Graph, ghost placed: set<NodeId>, ready: seq<NodeId>) returns (r: seq<NodeId>)
    requires Queued(g, placed, ready)
    ensures Queued(g, placed, r) && Ascends(r)
  {
    r := Sorted(ready);
  }

  lemma PlaceLeast(g: Graph, order: seq<NodeId>, ready: seq<NodeId>)
    requires Greedy(g, order) && Grounded(g, Elems(order)) && Queued(g, Elems(order), ready) && Ascends(ready) && ready != []
    ensures Available(g, Elems(order), ready[0])
    ensures Greedy(g, order + [ready[0]]) && Elems(order + [ready[0]]) == Elems(order) + {ready[0]}
    ensures Grounded(g, Elems(order) + {ready[0]})
  {
    var n := ready[0];
    assert n in ready;
    forall m | Available(g, Elems(order), m) ensures n <= m {
      assert m in ready;
    }
    var longer := order + [n];
    forall k | 0 <= k < |longer| ensures LeastAvailable(g, Elems(longer[..k]), longer[k]) {
      if k < |order| {
        assert longer[..k] == order[..k];
      } else {
        assert longer[..k] == order;
      }
    }
  }

  lemma TakeFirst(g: Graph, placed: set<NodeId>, indegree: map<NodeId, int>, ready: seq<NodeId>)
    requires (forall n :: n in g.nodes ==> n in indegree) && Waiting(g, placed, indegree, ready) && ready != []
    ensures Waiting(g, placed + {ready[0]}, indegree, ready[1..])
  {
    assert ready == [ready[0]] + ready[1..];
    assert multiset(ready) == multiset{ready[0]} + multiset(ready[1..]);
    assert multiset(ready)[ready[0]] <= 1;
    assert forall n :: multiset(ready[1..])[n] <= multiset(ready)[n];
    assert ready[0] !in multiset(ready[1..]);
  }

  // ----- Which pages are placed

  lemma GreedyAt(g: Graph, order: seq<NodeId>, i: nat, j: nat)
    requires Greedy(g, order) && i < |order| && j < |order|
    ensures i != j ==> order[i] != order[j]
    ensures Links(g, order[i], order[j]) ==> i < j
  {
  }

  /** Whatever leads to a placed page is placed, and not after it. */
  lemma {:induction false} PlacedBefore(g: Graph, order: seq<NodeId>, p: seq<NodeId>, j: nat) returns (i: nat)
    requires Greedy(g, order) && IsPath(g, p) && j < |order| && order[j] == p[|p| - 1]
    ensures i <= j && order[i] == p[0] && (|p| > 1 ==> i < j)
    decreases |p|
  {
    if |p| == 1 {
      i := j;
    } else {
      var q := p[..|p| - 1];
      assert Links(g, p[|p| - 2], p[|p| - 1]);
      forall k | 0 <= k < |q| - 1 ensures Links(g, q[k], q[k + 1]) {
        assert Links(g, p[k], p[k + 1]);
      }
      assert LeastAvailable(g, Elems(order[..j]), order[j]);
      var k :| 0 <= k < |order[..j]| && order[..j][k] == q[|q| - 1];
      i := PlacedBefore(g, order, q, k);
    }
  }

  lemma TangledNotPlaced(g: Graph, order: seq<NodeId>, n: NodeId)
    requires Greedy(g, order) && Tangled(g, n)
    ensures n !in order
  {
    var c :| OnCycle(g, c) && Reaches(g, c, n);
    if n in order {
      var j :| 0 <= j < |order| && order[j] == n;
      var p :| PathFrom(g, p, c, n);
      var i := PlacedBefore(g, order, p, j);
      var m :| Links(g, c, m) && Reaches(g, m, c);
      var q :| PathFrom(g, q, m, c);
      var k := PlacedBefore(g, order, q, i);
      GreedyAt(g, order, i, k);
    }
  }

  /** From an unplaced page back along unplaced prerequisites, until one repeats. */
  lemma {:induction false} BackToCycle(g: Graph, order: seq<NodeId>, p: seq<NodeId>)
    requires Closed(g) && Stuck(g, order) && IsPath(g, p)
    requires forall x :: x in p ==> x in g.nodes && x !in order
    ensures Tangled(g, p[|p| - 1])
    decreases Elems(g.nodes) - Elems(p)
  {
    assert p[0] in p && !Available(g, Elems(order), p[0]);
    var m :| Links(g, m, p[0]) && m !in Elems(order);
    assert Edge(m, p[0]) in g.edges;
    if m in p {
      var k :| 0 <= k < |p| && p[k] == m;
      PathParts(g, p, k);
      assert OnCycle(g, m);
    } else {
      var q := [m] + p;
      forall i | 0 <= i < |q| - 1 ensures Links(g, q[i], q[i + 1]) {
        if i > 0 {
          assert Links(g, p[i - 1], p[i]);
        }
      }
      assert m in Elems(g.nodes) - Elems(p) && m in Elems(q);
      BackToCycle(g, order, q);
    }
  }

  lemma PathParts(g: Graph, p: seq<NodeId>, k: nat)
    requires IsPath(g, p) && k < |p|
    ensures Reaches(g, p[0], p[k]) && Reaches(g, p[k], p[|p| - 1])
  {
    var front, back := p[..k + 1], p[k..];
    forall i | 0 <= i < k ensures Links(g, front[i], front[i + 1]) {
      assert Links(g, p[i], p[i + 1]);
    }
    forall i | 0 <= i < |back| - 1 ensures Links(g, back[i], back[i + 1]) {
      assert Links(g, p[k + i], p[k + i + 1]);
    }
    assert PathFrom(g, front, p[0], p[k]) && PathFrom(g, back, p[k], p[|p| - 1]);
  }

  /** The pages that could not be placed are those on a cycle and everything downstream of one. */
  lemma UnplacedIsTangled(g: Graph, order: seq<NodeId>, n: NodeId)
    requires Closed(g) && Greedy(g, order) && Stuck(g, order) && n in g.nodes
    ensures n !in order <==> Tangled(g, n)
  {
    if Tangled(g, n) {
      TangledNotPlaced(g, order, n);
    }
    if n !in order {
      BackToCycle(g, order, [n]);
    }
  }

  ghost predicate Acyclic(g: Graph) {
    forall c :: !OnCycle(g, c)
  }

  lemma GreedyPlacesPages(g: Graph, order: seq<NodeId>, n: NodeId)
    requires Greedy(g, order) && n in order
    ensures n in g.nodes
  {
  }

  /** With no cycle the result is a reading order; with one there is none. */
  lemma SortsExactlyAcyclic(g: Graph, order: seq<NodeId>)
    requires Closed(g) && Greedy(g, order) && Stuck(g, order)
    ensures Acyclic(g) <==> Topological(g, order)
  {
    if Acyclic(g) {
      forall n ensures n in order <==> n in g.nodes {
        if n in order {
          GreedyPlacesPages(g, order, n);
        } else if n in g.nodes {
          UnplacedIsTangled(g, order, n);
        }
      }
      forall i, j | 0 <= i < |order| && 0 <= j < |order|
        ensures (i < j ==> order[i] != order[j]) && (Links(g, order[i], order[j]) ==> i < j)
      {
        GreedyAt(g, order, i, j);
      }
    } else {
      var c :| OnCycle(g, c);
      var m :| Links(g, c, m) && Reaches(g, m, c);
      assert Edge(c, m) in g.edges;
      ReachesSelf(g, c);
      assert Tangled(g, c);
      TangledNotPlaced(g, order, c);
    }
  }

  /** `ok` is reported exactly when there is no cycle and no page is listed twice. */
  lemma OkMeansAcyclic(g: Graph, order: seq<NodeId>)
    requires Closed(g) && Greedy(g, order) && Stuck(g, order)
    ensures |order| == |g.nodes| <==> Acyclic(g) && forall i, j :: 0 <= i < j < |g.nodes| ==> g.nodes[i] != g.nodes[j]
  {
    forall i, j | 0 <= i < j < |order| ensures order[i] != order[j] {
      GreedyAt(g, order, i, j);
    }
    forall n | n in order ensures n in g.nodes {
      GreedyPlacesPages(g, order, n);
    }
    SizeOfElems(order);
    SizeOfElems(g.nodes);
    assert Elems(order) <= Elems(g.nodes);
    SubsetOfSameSize(Elems(order), Elems(g.nodes));
    SortsExactlyAcyclic(g, order);
    if |order| == |g.nodes| {
      forall n ensures n in order <==> n in g.nodes {
        assert n in order <==> n in Elems(order);
        assert n in g.nodes <==> n in Elems(g.nodes);
      }
      forall i, j | 0 <= i < |order| && 0 <= j < |order| && Links(g, order[i], order[j]) ensures i < j {
        GreedyAt(g, order, i, j);
      }
    } else if Acyclic(g) {
      assert Elems(order) == Elems(g.nodes);
    }
  }

  /** A page listed twice, without a link: nothing is left out, and `ok` is not reported. */
  lemma ListedTwiceIsNotOk(order: seq<NodeId>)
    requires var g := Graph([0, 0], []); Greedy(g, order) && Stuck(g, order)
    ensures order == [0] && |order| != 2 && Acyclic(Graph([0, 0], []))
  {
    var g := Graph([0, 0], []);
    forall n ensures !OnCycle(g, n) {
      assert forall m :: !Links(g, n, m);
    }
    OkMeansAcyclic(g, order);
    SortsExactlyAcyclic(g, order);
    assert g.nodes[0] == g.nodes[1];
    OnlyZero(g, order);
  }

  lemma OnlyZero(g: Graph, order: seq<NodeId>)
    requires Greedy(g, order) && Stuck(g, order) && g == Graph([0, 0], [])
    ensures order == [0]
  {
    forall k | 0 <= k < |order| ensures order[k] == 0 {
      GreedyPlacesPages(g, order, order[k]);
    }
    if |order| > 1 {
      GreedyAt(g, order, 0, 1);
    }
    assert !Available(g, Elems(order), 0);
    assert 0 in Elems(order);
  }

  lemma {:induction false} SubsetOfSameSize(a: set<NodeId>, b: set<NodeId>)
    requires a <= b
    ensures |a| <= |b| && (|a| == |b| ==> a == b)
  {
    var rest := b - a;
    assert b == a + rest && a !! rest;
    assert |b| == |a| + |rest|;
  }

  // ----- Ties

  /** Every page of a reading order is placed. */
  lemma {:induction false} OrderIsPlaced(g: Graph, order: seq<NodeId>, t: seq<NodeId>, k: nat)
    requires Closed(g) && Stuck(g, order) && Topological(g, t) && k <= |t|
    ensures forall i :: 0 <= i < k ==> t[i] in order
  {
    if k > 0 {
      OrderIsPlaced(g, order, t, k - 1);
      var n := t[k - 1];
      if n !in order {
        forall m | Links(g, m, n) ensures m in Elems(order) {
          assert Edge(m, n) in g.edges;
          var i :| 0 <= i < |t| && t[i] == m;
        }
        assert n in t && Available(g, Elems(order), n);
      }
    }
  }

  lemma {:induction false} LeastFrom(g: Graph, order: seq<NodeId>, t: seq<NodeId>, k: nat)
    requires Closed(g) && Greedy(g, order) && Topological(g, t) && k <= |order| && k <= |t| && order[..k] == t[..k]
    ensures LexAtMost(order[k..], t[k..])
    decreases |order| - k
  {
    if k < |order| {
      assert LeastAvailable(g, Elems(order[..k]), order[k]);
      MoreInOrder(g, order, t, k);
      NextInOrder(g, t, k);
      if order[k] == t[k] {
        assert order[..k + 1] == order[..k] + [order[k]] && t[..k + 1] == t[..k] + [t[k]];
        LeastFrom(g, order, t, k + 1);
        assert order[k..][1..] == order[k + 1..] && t[k..][1..] == t[k + 1..];
      }
    }
  }

  lemma MoreInOrder(g: Graph, order: seq<NodeId>, t: seq<NodeId>, k: nat)
    requires Greedy(g, order) && Topological(g, t) && k < |order| && k <= |t| && order[..k] == t[..k]
    ensures k < |t|
  {
  }

  lemma NextInOrder(g: Graph, t: seq<NodeId>, k: nat)
    requires Closed(g) && Topological(g, t) && k < |t|
    ensures Available(g, Elems(t[..k]), t[k])
  {
  }

  /** Of all reading orders the result is the first in lexicographic order. */
  lemma LeastOrder(g: Graph, order: seq<NodeId>, t: seq<NodeId>)
    requires Closed(g) && Greedy(g, order) && Stuck(g, order) && Topological(g, t)
    ensures Topological(g, order) && LexAtMost(order, t)
  {
    OrderIsPlaced(g, order, t, |t|);
    forall n | n in t ensures n in order {
      var i :| 0 <= i < |t| && t[i] == n;
    }
    forall n | n in order ensures n in g.nodes {
      GreedyPlacesPages(g, order, n);
    }
    forall i, j | 0 <= i < |order| && 0 <= j < |order|
      ensures (i < j ==> order[i] != order[j]) && (Links(g, order[i], order[j]) ==> i < j)
    {
      GreedyAt(g, order, i, j);
    }
    assert order[..0] == t[..0];
    LeastFrom(g, order, t, 0);
    assert order[0..] == order && t[0..] == t;
  }

  // ----- The rest

  /** The pages the order leaves out, ascending. */
  method Unplaced(g: Graph, order: seq<NodeId>) returns (out: seq<NodeId>)
    ensures Ascends(out) && forall n :: n in out <==> n in g.nodes && n !in order
  {
    out := [];
    var i := 0;
    while i < |g.nodes|
      invariant 0 <= i <= |g.nodes|
      invariant forall n :: n in out <==> n in g.nodes[..i] && n !in order
    {
      assert g.nodes[..i + 1] == g.nodes[..i] + [g.nodes[i]];
      if g.nodes[i] !in order {
        out := out + [g.nodes[i]];
      }
      i := i + 1;
    }
    assert g.nodes[..i] == g.nodes;
    out := Sorted(out);
  }

  // ----- Levels

  /** Distinct pages, every link among them forward. */
  ghost predicate Forward(g: Graph, order: seq<NodeId>) {
    && (forall i, j :: 0 <= i < j < |order| ==> order[i] != order[j])
    && (forall i, j :: 0 <= i < |order| && 0 <= j < |order| && Links(g, order[i], order[j]) ==> i < j)
  }

  /** The links that join two of the `placed` pages. */
  ghost function Among(edges: seq<Edge>, placed: seq<NodeId>): seq<Edge> {
    if edges == [] then []
    else
      var e := edges[|edges| - 1];
      Among(edges[..|edges| - 1], placed) + if e.from in placed && e.to in placed then [e] else []
  }

  /** The placed part of the graph. */
  ghost function Within(g: Graph, order: seq<NodeId>): Graph {
    Graph(order, Among(g.edges, order))
  }

  lemma {:induction false} InAmong(edges: seq<Edge>, placed: seq<NodeId>, e: Edge)
    ensures e in Among(edges, placed) <==> e in edges && e.from in placed && e.to in placed
  {
    if edges != [] {
      InAmong(edges[..|edges| - 1], placed, e);
      assert edges == edges[..|edges| - 1] + [edges[|edges| - 1]];
    }
  }

  lemma LinksWithin(g: Graph, order: seq<NodeId>, m: NodeId, n: NodeId)
    ensures Links(Within(g, order), m, n) <==> Links(g, m, n) && m in order && n in order
  {
    InAmong(g.edges, order, Edge(m, n));
  }

  ghost predicate ChainTo(g: Graph, p: seq<NodeId>, n: NodeId) {
    IsPath(g, p) && p[|p| - 1] == n
  }

  /** `d` links are the longest chain that ends at `n`. */
  ghost predicate IsDepth(g: Graph, n: NodeId, d: nat) {
    (exists p :: ChainTo(g, p, n) && |p| == d + 1) && forall p :: ChainTo(g, p, n) ==> |p| <= d + 1
  }

  /** The pages of `order` on level `l`, in order. */
  function AtLevel(order: seq<NodeId>, level: map<NodeId, nat>, l: nat): seq<NodeId>
    requires forall n :: n in order ==> n in level
  {
    if order == [] then []
    else AtLevel(order[..|order| - 1], level, l) + if level[order[|order| - 1]] == l then [order[|order| - 1]] else []
  }

  ghost predicate Deeper(g: Graph, n: NodeId, level: map<NodeId, nat>, l: nat, seen: set<NodeId>) {
    && (forall m :: m in seen ==> Links(g, m, n) && m in level && level[m] < l)
    && (l > 0 ==> exists m :: m in seen && m in level && level[m] + 1 == l)
  }

  /** One more than the deepest prerequisite is the depth of a page. */
  lemma DepthFromPrerequisites(g: Graph, n: NodeId, level: map<NodeId, nat>, l: nat, seen: set<NodeId>)
    requires Deeper(g, n, level, l, seen)
    requires forall m :: Links(g, m, n) ==> m in seen
    requires forall m :: m in seen ==> IsDepth(g, m, level[m])
    ensures IsDepth(g, n, l)
  {
    if l > 0 {
      var m :| m in seen && m in level && level[m] + 1 == l;
      var p :| ChainTo(g, p, m) && |p| == level[m] + 1;
      var q := p + [n];
      forall i | 0 <= i < |q| - 1 ensures Links(g, q[i], q[i + 1]) {
        if i < |p| - 1 {
          assert Links(g, p[i], p[i + 1]);
        }
      }
      assert ChainTo(g, q, n);
    } else {
      assert ChainTo(g, [n], n);
    }
    forall p | ChainTo(g, p, n) ensures |p| <= l + 1 {
      if |p| > 1 {
        var q := p[..|p| - 1];
        assert Links(g, p[|p| - 2], p[|p| - 1]);
        forall i | 0 <= i < |q| - 1 ensures Links(g, q[i], q[i + 1]) {
          assert Links(g, p[i], p[i + 1]);
        }
        assert ChainTo(g, q, p[|p| - 2]);
      }
    }
  }

  /** For each placed page its placed prerequisites. */
  method Prerequisites(g: Graph, order: seq<NodeId>) returns (before: map<NodeId, seq<NodeId>>)
    ensures forall n, m :: Links(Within(g, order), m, n) <==> n in before && m in before[n]
  {
    before := map[];
    var i := 0;
    while i < |g.edges|
      invariant 0 <= i <= |g.edges|
      invariant forall n, m :: Edge(m, n) in Among(g.edges[..i], order) <==> n in before && m in before[n]
    {
      var e := g.edges[i];
      assert g.edges[..i + 1][..i] == g.edges[..i];
      if e.from in order && e.to in order {
        before := before[e.to := (if e.to in before then before[e.to] else []) + [e.from]];
      }
      i := i + 1;
    }
    assert g.edges[..i] == g.edges;
  }

  lemma ElemsNext(s: seq<NodeId>, i: nat)
    requires i < |s|
    ensures Elems(s[..i + 1]) == Elems(s[..i]) + {s[i]}
  {
    assert s[..i + 1] == s[..i] + [s[i]];
  }

  lemma DeeperWith(g: Graph, n: NodeId, level: map<NodeId, nat>, l: nat, seen: set<NodeId>, m: NodeId)
    requires Deeper(g, n, level, l, seen) && Links(g, m, n) && m in level
    ensures Deeper(g, n, level, if level[m] + 1 > l then level[m] + 1 else l, seen + {m})
  {
    if l > 0 && level[m] + 1 <= l {
      var k :| k in seen && k in level && level[k] + 1 == l;
      assert k in seen + {m};
    } else {
      assert m in seen + {m};
    }
  }

  /** The level of `n`: one more than its deepest prerequisite. */
  method LevelOf(ghost g: Graph, n: NodeId, before: seq<NodeId>, level: map<NodeId, nat>) returns (l: nat)
    requires forall m :: Links(g, m, n) <==> m in before
    requires forall m :: m in before ==> m in level && IsDepth(g, m, level[m])
    ensures IsDepth(g, n, l)
  {
    l := 0;
    var i := 0;
    while i < |before|
      invariant 0 <= i <= |before| && Deeper(g, n, level, l, Elems(before[..i]))
    {
      var m := before[i];
      ElemsNext(before, i);
      assert Links(g, m, n);
      DeeperWith(g, n, level, l, Elems(before[..i]), m);
      if level[m] + 1 > l {
        l := level[m] + 1;
      }
      i := i + 1;
    }
    assert before[..i] == before;
    DepthFromPrerequisites(g, n, level, l, Elems(before));
  }

  /** The placed pages by level, a page's level being its longest chain of placed prerequisites. */
  method Layers(g: Graph, order: seq<NodeId>) returns (layers: seq<seq<NodeId>>, level: map<NodeId, nat>)
    requires Forward(g, order)
    ensures forall n :: n in order <==> n in level
    ensures forall n :: n in order ==> IsDepth(Within(g, order), n, level[n]) && level[n] < |layers|
    ensures forall l :: 0 <= l < |layers| ==> layers[l] == AtLevel(order, level, l)
    ensures order != [] ==> exists n :: n in order && level[n] == |layers| - 1
    ensures order == [] ==> layers == [[]]
  {
    var deepest;
    level, deepest := Levels(g, order);
    assert order != [] ==> order[0] in level;
    layers := FillLayers(order, level, deepest);
  }

  method FillLayers(order: seq<NodeId>, level: map<NodeId, nat>, deepest: nat) returns (layers: seq<seq<NodeId>>)
    requires forall n :: n in order ==> n in level && level[n] <= deepest
    ensures |layers| == deepest + 1
    ensures forall l :: 0 <= l <= deepest ==> layers[l] == AtLevel(order, level, l)
  {
    layers := seq(deepest + 1, l => []);
    var i := 0;
    while i < |order|
      invariant 0 <= i <= |order| && |layers| == deepest + 1
      invariant forall l :: 0 <= l <= deepest ==> layers[l] == AtLevel(order[..i], level, l)
    {
      var l := level[order[i]];
      assert order[..i + 1][..i] == order[..i];
      layers := layers[l := layers[l] + [order[i]]];
      i := i + 1;
    }
    assert order[..i] == order;
  }

  ghost predicate Depths(g: Graph, level: map<NodeId, nat>) {
    forall n :: n in level ==> IsDepth(g, n, level[n])
  }

  ghost predicate Deepest(level: map<NodeId, nat>, deepest: nat) {
    && (forall n :: n in level ==> level[n] <= deepest)
    && (if level == map[] then deepest == 0 else exists n :: n in level && level[n] == deepest)
  }

  lemma DeepestWith(level: map<NodeId, nat>, deepest: nat, n: NodeId, l: nat)
    requires Deepest(level, deepest) && n !in level
    ensures Deepest(level[n := l], if l > deepest then l else deepest)
  {
    var more := level[n := l];
    assert more[n] == l;
    if l <= deepest && level != map[] {
      var m :| m in level && level[m] == deepest;
      assert more[m] == deepest;
    }
  }

  /** The next page of the order is new, and its placed prerequisites are before it. */
  lemma NextPage(g: Graph, order: seq<NodeId>, i: nat)
    requires Forward(g, order) && i < |order|
    ensures order[i] !in order[..i] && (forall m :: Links(Within(g, order), m, order[i]) ==> m in order[..i])
    ensures forall n :: n in order[..i + 1] <==> n in order[..i] || n == order[i]
  {
    forall m | Links(Within(g, order), m, order[i]) ensures m in order[..i] {
      LinksWithin(g, order, m, order[i]);
      var k :| 0 <= k < |order| && order[k] == m;
      assert order[..i][k] == m;
    }
  }

  method Levels(g: Graph, order: seq<NodeId>) returns (level: map<NodeId, nat>, deepest: nat)
    requires Forward(g, order)
    ensures (forall n :: n in order <==> n in level) && Depths(Within(g, order), level) && Deepest(level, deepest)
  {
    var before := Prerequisites(g, order);
    level, deepest := map[], 0;
    var i := 0;
    while i < |order|
      invariant 0 <= i <= |order| && forall n :: n in level <==> n in order[..i]
      invariant Depths(Within(g, order), level) && Deepest(level, deepest)
    {
      level, deepest := AddLevel(g, order, i, before, level, deepest);
      i := i + 1;
    }
    assert order[..i] == order;
  }

  method AddLevel(g: Graph, order: seq<NodeId>, i: nat, before: map<NodeId, seq<NodeId>>, level: map<NodeId, nat>, deepest: nat)
    returns (more: map<NodeId, nat>, lowest: nat)
    requires Forward(g, order) && i < |order| && forall n :: n in level <==> n in order[..i]
    requires forall n, m :: Links(Within(g, order), m, n) <==> n in before && m in before[n]
    requires Depths(Within(g, order), level) && Deepest(level, deepest)
    ensures forall n :: n in more <==> n in order[..i + 1]
    ensures Depths(Within(g, order), more) && Deepest(more, lowest)
  {
    var n := order[i];
    NextPage(g, order, i);
    var l := LevelOf(Within(g, order), n, if n in before then before[n] else [], level);
    DeepestWith(level, deepest, n, l);
    DepthsWith(Within(g, order), level, n, l);
    more := level[n := l];
    lowest := if l > deepest then l else deepest;
  }

  lemma DepthsWith(g: Graph, level: map<NodeId, nat>, n: NodeId, l: nat)
    requires Depths(g, level) && IsDepth(g, n, l)
    ensures Depths(g, level[n := l])
  {
  }

  lemma GreedyIsForward(g: Graph, order: seq<NodeId>)
    requires Greedy(g, order)
    ensures Forward(g, order)
  {
    forall i, j | 0 <= i < |order| && 0 <= j < |order|
      ensures (i < j ==> order[i] != order[j]) && (Links(g, order[i], order[j]) ==> i < j)
    {
      GreedyAt(g, order, i, j);
    }
  }

  lemma PlacedIsGrounded(g: Graph, order: seq<NodeId>, a: NodeId, b: NodeId)
    requires Greedy(g, order) && b in order
    ensures Links(g, a, b) ==> a in order
  {
  }

  lemma {:induction false} ChainIsPlaced(g: Graph, order: seq<NodeId>, p: seq<NodeId>, n: NodeId)
    requires Greedy(g, order) && n in order && ChainTo(g, p, n)
    ensures ChainTo(Within(g, order), p, n)
    decreases |p|
  {
    if |p| > 1 {
      var q, m := p[..|p| - 1], p[|p| - 2];
      assert Links(g, m, p[|p| - 1]);
      forall i | 0 <= i < |q| - 1 ensures Links(g, q[i], q[i + 1]) {
        assert Links(g, p[i], p[i + 1]);
      }
      PlacedIsGrounded(g, order, m, n);
      ChainIsPlaced(g, order, q, m);
      LinksWithin(g, order, m, n);
      forall i | 0 <= i < |p| - 1 ensures Links(Within(g, order), p[i], p[i + 1]) {
        if i < |q| - 1 {
          assert Links(Within(g, order), q[i], q[i + 1]);
        }
      }
    }
  }

  lemma PlacedChainIsChain(g: Graph, order: seq<NodeId>, p: seq<NodeId>, n: NodeId)
    requires ChainTo(Within(g, order), p, n)
    ensures ChainTo(g, p, n)
  {
    forall i | 0 <= i < |p| - 1 ensures Links(g, p[i], p[i + 1]) {
      assert Links(Within(g, order), p[i], p[i + 1]);
      LinksWithin(g, order, p[i], p[i + 1]);
    }
  }

  /** In the order the sort gives, a page's level is its longest chain in the whole graph. */
  lemma GreedyDepth(g: Graph, order: seq<NodeId>, n: NodeId, d: nat)
    requires Greedy(g, order) && n in order
    ensures Forward(g, order) && (IsDepth(Within(g, order), n, d) <==> IsDepth(g, n, d))
  {
    GreedyIsForward(g, order);
    forall p ensures ChainTo(Within(g, order), p, n) <==> ChainTo(g, p, n) {
      if ChainTo(g, p, n) {
        ChainIsPlaced(g, order, p, n);
      }
      if ChainTo(Within(g, order), p, n) {
        PlacedChainIsChain(g, order, p, n);
      }
    }
  }
}
