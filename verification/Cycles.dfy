// Finding one cycle of links.

module Cycles {
  // Depth-first search in three colours.

  import opened Graphs
  import opened Toposorts
  import Components

  datatype Color = White | Gray | Black

  /** A walk along links back to its start, through no other node twice. */
  ghost predicate ClosedWalk(g: Graph, c: seq<NodeId>) {
    && |c| >= 2 && IsPath(g, c) && c[0] == c[|c| - 1]
    && forall i, j :: 0 <= i < j < |c| - 1 ==> c[i] != c[j]
  }

  lemma ClosedWalkIsCycle(g: Graph, c: seq<NodeId>)
    requires ClosedWalk(g, c)
    ensures OnCycle(g, c[0])
  {
    PathParts(g, c, 1);
    assert Links(g, c[0], c[0 + 1]);
  }

  function ColorOf(color: map<NodeId, Color>, n: NodeId): Color {
    if n in color then color[n] else White
  }

  // ----- The invariant

  /** The gray nodes are those on the stack, which is a path through distinct nodes. */
  ghost predicate OnPath(g: Graph, color: map<NodeId, Color>, stack: seq<NodeId>) {
    && (forall n :: n in stack <==> ColorOf(color, n) == Gray)
    && (forall i, j :: 0 <= i < j < |stack| ==> stack[i] != stack[j])
    && (stack != [] ==> IsPath(g, stack))
  }

  /** The black nodes in the order they were finished: links lead to nodes finished before. */
  ghost predicate Settled(g: Graph, color: map<NodeId, Color>, done: seq<NodeId>) {
    && (forall n :: n in done <==> ColorOf(color, n) == Black)
    && (forall j, m :: 0 <= j < |done| && Links(g, done[j], m) ==> m in done[..j])
  }

  ghost predicate Inv(g: Graph, color: map<NodeId, Color>, stack: seq<NodeId>, done: seq<NodeId>) {
    && Closed(g) && (forall n :: n in color ==> n in g.nodes && color[n] != White)
    && OnPath(g, color, stack) && Settled(g, color, done)
  }

  /** Colours only darken. */
  ghost predicate Darker(color: map<NodeId, Color>, later: map<NodeId, Color>) {
    forall n :: n in color ==> n in later && (color[n] == Black ==> later[n] == Black)
  }

  ghost function Uncolored(g: Graph, color: map<NodeId, Color>): set<NodeId> {
    set n | n in g.nodes && n !in color
  }

  lemma PushKeeps(g: Graph, color: map<NodeId, Color>, stack: seq<NodeId>, done: seq<NodeId>, n: NodeId)
    requires Inv(g, color, stack, done) && n in g.nodes && n !in color
    requires stack != [] ==> Links(g, stack[|stack| - 1], n)
    ensures Inv(g, color[n := Gray], stack + [n], done)
  {
    var longer, dark := stack + [n], color[n := Gray];
    assert ColorOf(color, n) == White;
    forall i | 0 <= i < |longer| - 1 ensures Links(g, longer[i], longer[i + 1]) {
      if i < |stack| - 1 {
        assert Links(g, stack[i], stack[i + 1]);
      }
    }
    forall m ensures (m in longer <==> ColorOf(dark, m) == Gray) && (m in done <==> ColorOf(dark, m) == Black) {
      assert m in longer <==> m in stack || m == n;
    }
  }

  lemma PopKeeps(g: Graph, color: map<NodeId, Color>, stack: seq<NodeId>, done: seq<NodeId>, n: NodeId)
    requires Inv(g, color, stack + [n], done) && forall m :: Links(g, n, m) ==> ColorOf(color, m) == Black
    ensures Inv(g, color[n := Black], stack, done + [n])
  {
    var full, dark, more := stack + [n], color[n := Black], done + [n];
    assert full[|stack|] == n && n in full;
    forall i | 0 <= i < |stack| ensures stack[i] != n {
      assert full[i] == stack[i];
    }
    forall m ensures (m in stack <==> ColorOf(dark, m) == Gray) && (m in more <==> ColorOf(dark, m) == Black) {
      assert m in full <==> m in stack || m == n;
      assert m in more <==> m in done || m == n;
    }
    forall i | 0 <= i < |stack| - 1 ensures Links(g, stack[i], stack[i + 1]) {
      assert Links(g, full[i], full[i + 1]);
    }
    forall i, j | 0 <= i < j < |stack| ensures stack[i] != stack[j] {
      assert full[i] != full[j];
    }
    forall j, m | 0 <= j < |more| && Links(g, more[j], m) ensures m in more[..j] {
      if j < |done| {
        assert m in done[..j] && more[..j] == done[..j];
      } else {
        assert more[..j] == done && m in done;
      }
    }
  }

  /** A link from the top of the stack into it closes a walk. */
  lemma ClosesWalk(g: Graph, stack: seq<NodeId>, i: nat)
    requires stack != [] && IsPath(g, stack) && i < |stack| && Links(g, stack[|stack| - 1], stack[i])
    requires forall a, b :: 0 <= a < b < |stack| ==> stack[a] != stack[b]
    ensures ClosedWalk(g, stack[i..] + [stack[i]])
  {
  }

  // ----- The search

  class Finder {
    ghost const g: Graph
    const out: map<NodeId, seq<NodeId>>
    var color: map<NodeId, Color>
    var stack: seq<NodeId>
    var cycle: seq<NodeId>
    ghost var done: seq<NodeId>

    ghost predicate Valid()
      reads this
    {
      && Inv(g, color, stack, done)
      && (forall n :: n in out <==> n in g.nodes)
      && (forall n, m :: n in out ==> (m in out[n] <==> Links(g, n, m)))
    }

    constructor (ghost graph: Graph, out: map<NodeId, seq<NodeId>>)
      requires Closed(graph)
      requires forall n :: n in out <==> n in graph.nodes
      requires forall n, m :: n in out ==> (m in out[n] <==> Links(graph, n, m))
      ensures Valid() && g == graph && color == map[] && stack == []
    {
      this.g := graph;
      this.out := out;
      color, stack, cycle, done := map[], [], [], [];
    }

    /** The stack from `target` to its top, and `target` again. */
    method ClosedCycleFrom(target: NodeId) returns (c: seq<NodeId>)
      requires Valid() && target in stack && Links(g, stack[|stack| - 1], target)
      ensures ClosedWalk(g, c)
    {
      var i := 0;
      while stack[i] != target
        invariant 0 <= i < |stack| && target in stack[i..]
        decreases |stack| - i
      {
        assert stack[i..] == [stack[i]] + stack[i + 1..];
        i := i + 1;
      }
      ClosesWalk(g, stack, i);
      c := stack[i..] + [target];
    }

    /** Explores from `n`: either a cycle is found, or `n` and all it leads to are finished. */
    method Visit(n: NodeId) returns (found: bool)
      requires Valid() && n in g.nodes && n !in color && (stack != [] ==> Links(g, stack[|stack| - 1], n))
      modifies this
      ensures found ==> ClosedWalk(g, cycle)
      ensures !found ==> Valid() && stack == old(stack) && Darker(old(color), color) && ColorOf(color, n) == Black
      decreases Uncolored(g, color), 0
    {
      PushKeeps(g, color, stack, done, n);
      assert n in Uncolored(g, color);
      color := color[n := Gray];
      stack := stack + [n];
      assert n !in Uncolored(g, color);
      found := FollowAll(n);
      if found {
        return;
      }
      PopKeeps(g, color, old(stack), done, n);
      assert stack[..|stack| - 1] == old(stack);
      stack := stack[..|stack| - 1];
      color := color[n := Black];
      done := done + [n];
    }

    /** Goes along the links from the top of the stack, one after another. */
    method FollowAll(n: NodeId) returns (found: bool)
      requires Valid() && n in g.nodes && stack != [] && stack[|stack| - 1] == n
      modifies this
      ensures found ==> ClosedWalk(g, cycle)
      ensures !found ==> Valid() && stack == old(stack) && Darker(old(color), color)
      ensures !found ==> forall m :: Links(g, n, m) ==> ColorOf(color, m) == Black
      decreases Uncolored(g, color), 2
    {
      found := false;
      var i := 0;
      while i < |out[n]|
        invariant 0 <= i <= |out[n]|
        invariant Valid() && stack == old(stack) && Darker(old(color), color)
        invariant forall k :: 0 <= k < i ==> ColorOf(color, out[n][k]) == Black
      {
        StillUncolored(g, old(color), color);
        assert out[n][i] in out[n];
        found := Follow(n, out[n][i]);
        if found {
          return;
        }
        i := i + 1;
      }
      forall m | Links(g, n, m) ensures ColorOf(color, m) == Black {
        assert m in out[n];
      }
    }

    /** Goes along one link from the top of the stack. */
    method Follow(n: NodeId, next: NodeId) returns (found: bool)
      requires Valid() && stack != [] && stack[|stack| - 1] == n && Links(g, n, next)
      modifies this
      ensures found ==> ClosedWalk(g, cycle)
      ensures !found ==> Valid() && stack == old(stack) && Darker(old(color), color) && ColorOf(color, next) == Black
      decreases Uncolored(g, color), 1
    {
      found := false;
      match ColorOf(color, next) {
        case White =>
          found := Visit(next);
        case Gray =>
          cycle := ClosedCycleFrom(next);
          found := true;
        case Black =>
      }
    }
  }

  lemma StillUncolored(g: Graph, color: map<NodeId, Color>, later: map<NodeId, Color>)
    requires Darker(color, later)
    ensures Uncolored(g, later) <= Uncolored(g, color)
  {
  }

  // ----- No cycle found means there is none

  /** Whatever a finished node leads to was finished no later. */
  lemma {:induction false} SettledReach(g: Graph, color: map<NodeId, Color>, done: seq<NodeId>, p: seq<NodeId>, j: nat) returns (i: nat)
    requires Settled(g, color, done) && IsPath(g, p) && j < |done| && done[j] == p[0]
    ensures i <= j && done[i] == p[|p| - 1] && (|p| > 1 ==> i < j)
    decreases |p|
  {
    if |p| == 1 {
      i := j;
    } else {
      var q := p[1..];
      assert Links(g, p[0], p[1]);
      forall k | 0 <= k < |q| - 1 ensures Links(g, q[k], q[k + 1]) {
        assert Links(g, p[k + 1], p[k + 2]);
      }
      var k: nat :| k < |done[..j]| && done[..j][k] == p[1];
      i := SettledReach(g, color, done, q, k);
    }
  }

  /** Among distinct finish positions a closed path has nowhere to go. */
  lemma {:induction false} SettledAcyclic(g: Graph, color: map<NodeId, Color>, done: seq<NodeId>, c: NodeId, j: nat)
    requires Settled(g, color, done) && j < |done| && done[j] == c
    ensures !OnCycle(g, c)
    decreases j
  {
    if OnCycle(g, c) {
      var m :| Links(g, c, m) && Reaches(g, m, c);
      var k: nat :| k < |done[..j]| && done[..j][k] == m;
      var p :| PathFrom(g, p, m, c);
      var i := SettledReach(g, color, done, p, k);
      SettledAcyclic(g, color, done, c, i);
    }
  }

  /** A cycle as a closed walk, or nothing when there is none. */
  method DetectCycle(g: Graph) returns (cycle: seq<NodeId>)
    requires Closed(g)
    ensures cycle == [] ==> Acyclic(g)
    ensures cycle != [] ==> ClosedWalk(g, cycle)
  {
    var out, _ := BuildAdjacency(g);
    ListedMeansLinked(g, out);
    var finder := new Finder(g, out);
    var i := 0;
    while i < |g.nodes|
      invariant 0 <= i <= |g.nodes| && fresh(finder) && finder.g == g
      invariant finder.Valid() && finder.stack == []
      invariant forall k :: 0 <= k < i ==> ColorOf(finder.color, g.nodes[k]) == Black
    {
      if g.nodes[i] !in finder.color {
        var found := finder.Visit(g.nodes[i]);
        if found {
          return finder.cycle;
        }
      } else {
        assert ColorOf(finder.color, g.nodes[i]) == Gray ==> g.nodes[i] in finder.stack;
      }
      i := i + 1;
    }
    cycle := [];
    forall c ensures !OnCycle(g, c) {
      if c in finder.done {
        var j: nat :| j < |finder.done| && finder.done[j] == c;
        SettledAcyclic(g, finder.color, finder.done, c, j);
      } else {
        OffGraph(g, c);
      }
    }
  }

  lemma OffGraph(g: Graph, c: NodeId)
    requires Closed(g) && c !in g.nodes
    ensures !OnCycle(g, c)
  {
  }

  /** No cycle is reported exactly when every page can be put in a reading order. */
  lemma NoCycleMeansSortable(g: Graph, cycle: seq<NodeId>, order: seq<NodeId>)
    requires Closed(g) && Greedy(g, order) && Stuck(g, order)
    requires (cycle == [] ==> Acyclic(g)) && (cycle != [] ==> ClosedWalk(g, cycle))
    ensures cycle == [] <==> Topological(g, order)
    ensures cycle == [] <==> forall n :: n in g.nodes ==> n in order
  {
    SortsExactlyAcyclic(g, order);
    if cycle != [] {
      var c := cycle[0];
      ClosedWalkIsCycle(g, cycle);
      ReachesSelf(g, c);
      assert Tangled(g, c);
      TangledNotPlaced(g, order, c);
      assert Links(g, cycle[0], cycle[0 + 1]);
      assert Edge(cycle[0], cycle[1]) in g.edges;
    }
  }

  /** No cycle means every component is a single page without a link to itself. */
  lemma AcyclicMeansAllAlone(g: Graph, ids: Components.Labels)
    requires Closed(g) && Components.Partitions(g, ids)
    ensures Acyclic(g) <==>
      (forall a, b :: a in ids && b in ids && ids[a] == ids[b] ==> a == b) && forall a :: !Links(g, a, a)
  {
    if Acyclic(g) {
      forall a, b | a in ids && b in ids && ids[a] == ids[b] ensures a == b {
        Components.AloneUnlessOnCycle(g, ids, a);
        assert !OnCycle(g, a);
      }
      forall a ensures !Links(g, a, a) {
        ReachesSelf(g, a);
        assert !OnCycle(g, a);
      }
    } else {
      var c :| OnCycle(g, c);
      var m :| Links(g, c, m) && Reaches(g, m, c);
      assert Edge(c, m) in g.edges;
      ReachesLink(g, c, m);
      assert Strong(g, c, m);
    }
  }

  /** A page that links to itself: every component is one page, and there is a cycle. */
  lemma SelfLinkIsCycle(ids: Components.Labels)
    requires Components.Partitions(Graph([0], [Edge(0, 0)]), ids)
    ensures !Acyclic(Graph([0], [Edge(0, 0)]))
    ensures forall a, b :: a in ids && b in ids && ids[a] == ids[b] ==> a == b
  {
    var g := Graph([0], [Edge(0, 0)]);
    ReachesSelf(g, 0);
    assert Links(g, 0, 0) && OnCycle(g, 0);
  }
}
