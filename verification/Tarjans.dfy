// Strongly connected components: one depth-first search with lowlinks. What a
// visit keeps is an invariant over the set of nodes whose visit is still running;
// closing a component pops exactly the nodes that reach each other.

module Tarjans {
  import opened Graphs

  // What the search has done so far: discovery numbers, the component stack
  // (bottom first), and the components already closed.
  datatype Search = Search(index: nat, num: map<NodeId, nat>, stack: seq<NodeId>, comp: map<NodeId, nat>, next: nat)

  // ----- The invariant, over the set of nodes whose visit is still running

  /** Visited nodes are on the stack or in a component, never both; the stack is in discovery order. */
  ghost predicate Shaped(g: Graph, s: Search, gray: set<NodeId>) {
    && (forall n :: n in s.num ==> n in g.nodes && s.num[n] < s.index)
    && (forall n :: n in s.num <==> n in s.stack || n in s.comp)
    && (forall n :: n in s.stack ==> n !in s.comp)
    && (forall n :: n in gray ==> n in s.stack)
    && Ordered(s)
    && (forall n :: n in s.comp ==> s.comp[n] < s.next)
  }

  ghost predicate Ordered(s: Search) {
    && (forall i :: 0 <= i < |s.stack| ==> s.stack[i] in s.num)
    && (forall i, j :: 0 <= i < j < |s.stack| ==> s.num[s.stack[i]] < s.num[s.stack[j]])
  }

  /** Finished visits leave no link to an unvisited node. */
  ghost predicate Finished(g: Graph, s: Search, gray: set<NodeId>) {
    forall a, b :: Links(g, a, b) && a in s.num && a !in gray ==> b in s.num
  }

  /** Closed components are closed under links. */
  ghost predicate Sealed(g: Graph, s: Search) {
    forall a, b :: Links(g, a, b) && a in s.comp ==> b in s.comp
  }

  /** Lower stack entries reach higher ones. */
  ghost predicate Rising(g: Graph, stack: seq<NodeId>) {
    forall i, j :: 0 <= i <= j < |stack| ==> Reaches(g, stack[i], stack[j])
  }

  /** Entry `i` reaches a running visit no later than itself. */
  ghost predicate Anchored(g: Graph, stack: seq<NodeId>, gray: set<NodeId>, i: nat)
    requires i < |stack|
  {
    exists j :: 0 <= j <= i && stack[j] in gray && Reaches(g, stack[i], stack[j])
  }

  ghost predicate AllAnchored(g: Graph, stack: seq<NodeId>, gray: set<NodeId>) {
    forall i :: 0 <= i < |stack| ==> Anchored(g, stack, gray, i)
  }

  /** Each closed component is a whole strongly connected component. */
  ghost predicate Components(g: Graph, s: Search) {
    forall a, b :: a in s.comp && b in g.nodes ==> (Strong(g, a, b) <==> SameComponent(s, a, b))
  }

  predicate SameComponent(s: Search, a: NodeId, b: NodeId)
    requires a in s.comp
  {
    b in s.comp && s.comp[a] == s.comp[b]
  }

  ghost predicate Inv(g: Graph, s: Search, gray: set<NodeId>) {
    && Closed(g) && Shaped(g, s, gray) && Finished(g, s, gray) && Sealed(g, s)
    && Rising(g, s.stack) && AllAnchored(g, s.stack, gray) && Components(g, s)
  }

  // ----- Starting a visit

  function Pushed(s: Search, v: NodeId): Search {
    Search(s.index + 1, s.num[v := s.index], s.stack + [v], s.comp, s.next)
  }

  lemma PushRises(g: Graph, stack: seq<NodeId>, gray: set<NodeId>, v: NodeId)
    requires Rising(g, stack) && AllAnchored(g, stack, gray)
    requires forall x :: x in gray ==> Reaches(g, x, v)
    ensures Rising(g, stack + [v])
  {
    var t := stack + [v];
    forall i, j | 0 <= i <= j < |t| ensures Reaches(g, t[i], t[j]) {
      if j == |stack| && i < j {
        assert Anchored(g, stack, gray, i);
        var k :| 0 <= k <= i && stack[k] in gray && Reaches(g, stack[i], stack[k]);
        ReachesOn(g, stack[i], stack[k], v);
      } else if j == |stack| {
        ReachesSelf(g, v);
      } else {
        assert Reaches(g, stack[i], stack[j]);
      }
    }
  }

  lemma PushAnchors(g: Graph, stack: seq<NodeId>, gray: set<NodeId>, v: NodeId)
    requires AllAnchored(g, stack, gray)
    ensures AllAnchored(g, stack + [v], gray + {v})
  {
    var t := stack + [v];
    forall i | 0 <= i < |t| ensures Anchored(g, t, gray + {v}, i) {
      if i == |stack| {
        ReachesSelf(g, v);
        assert t[i] in gray + {v} && Reaches(g, t[i], t[i]);
      } else {
        assert Anchored(g, stack, gray, i);
        var k :| 0 <= k <= i && stack[k] in gray && Reaches(g, stack[i], stack[k]);
        assert t[k] in gray + {v} && Reaches(g, t[i], t[k]);
      }
    }
  }

  lemma PushShapes(g: Graph, s: Search, gray: set<NodeId>, v: NodeId)
    requires Shaped(g, s, gray) && v in g.nodes && v !in s.num
    ensures Shaped(g, Pushed(s, v), gray + {v})
  {
    var t := Pushed(s, v);
    assert forall n :: n in t.stack <==> n in s.stack || n == v;
    forall i, j | 0 <= i < j < |t.stack| ensures t.num[t.stack[i]] < t.num[t.stack[j]] {
      assert s.stack[i] in s.stack;
      if j < |s.stack| {
        assert s.stack[j] in s.stack;
      }
    }
  }

  lemma PushTracks(stack: seq<NodeId>, v: NodeId)
    ensures forall n :: n in stack + [v] <==> n in stack || n == v
  {
  }

  lemma PushKeepsInv(g: Graph, s: Search, gray: set<NodeId>, v: NodeId)
    requires Inv(g, s, gray) && v in g.nodes && v !in s.num
    requires forall x :: x in gray ==> Reaches(g, x, v)
    ensures Inv(g, Pushed(s, v), gray + {v})
  {
    PushShapes(g, s, gray, v);
    PushRises(g, s.stack, gray, v);
    PushAnchors(g, s.stack, gray, v);
    assert forall a, b :: a in s.comp && b in g.nodes ==> (SameComponent(Pushed(s, v), a, b) <==> SameComponent(s, a, b));
  }

  // ----- What a visit leaves behind

  /** `t` continues `s`: nothing visited is renumbered, the old stack is untouched below. */
  ghost predicate Grows(s: Search, t: Search) {
    && (forall n :: n in s.num ==> n in t.num && t.num[n] == s.num[n])
    && (forall n :: n in s.comp ==> n in t.comp)
    && s.stack <= t.stack
  }

  /** `low` is the number of a stack entry that `v` reaches. */
  ghost predicate LowReached(g: Graph, t: Search, v: NodeId, low: nat) {
    exists y :: y in t.stack && y in t.num && t.num[y] == low && Reaches(g, v, y)
  }

  /** No link from an entry at or above `from` leads to one under `base` numbered less than `low`. */
  ghost predicate LowBounds(g: Graph, t: Search, from: nat, base: nat, low: nat) {
    forall i, j :: from <= i < |t.stack| && 0 <= j < base <= |t.stack| && Links(g, t.stack[i], t.stack[j]) ==>
      t.stack[j] in t.num && low <= t.num[t.stack[j]]
  }

  /** A finished visit of `v`: closed with its component, or still on the stack
      above the old one with a sound lowlink. */
  ghost predicate Visited(g: Graph, s: Search, t: Search, v: NodeId, low: nat) {
    && Grows(s, t) && v in t.num && low <= t.num[v] && t.num[v] == s.index
    && (v in t.comp ==> t.stack == s.stack && low == t.num[v])
    && (v !in t.comp ==> LowReached(g, t, v, low) && LowBounds(g, t, |s.stack|, |s.stack|, low))
  }

  lemma StackPosition(s: Search, i: nat, j: nat)
    requires Ordered(s) && i < |s.stack| && j < |s.stack|
    ensures s.num[s.stack[i]] < s.num[s.stack[j]] <==> i < j
    ensures s.stack[i] == s.stack[j] <==> i == j
  {
  }

  // ----- Finishing a visit: staying on the stack

  /** With a lowlink below its own number, `v` reaches a running visit below it. */
  lemma LowerAnchor(g: Graph, t: Search, gray: set<NodeId>, v: NodeId, base: nat, low: nat) returns (m: nat)
    requires Ordered(t) && AllAnchored(g, t.stack, gray + {v})
    requires base < |t.stack| && t.stack[base] == v && v in t.num && low < t.num[v] && LowReached(g, t, v, low)
    ensures m < base && t.stack[m] in gray && Reaches(g, v, t.stack[m])
  {
    var y :| y in t.stack && y in t.num && t.num[y] == low && Reaches(g, v, y);
    var k :| 0 <= k < |t.stack| && t.stack[k] == y;
    StackPosition(t, k, base);
    assert Anchored(g, t.stack, gray + {v}, k);
    m :| 0 <= m <= k && t.stack[m] in gray + {v} && Reaches(g, t.stack[k], t.stack[m]);
    StackPosition(t, m, base);
    ReachesOn(g, v, y, t.stack[m]);
  }

  lemma KeepAnchors(g: Graph, t: Search, gray: set<NodeId>, v: NodeId, base: nat, low: nat)
    requires Ordered(t) && AllAnchored(g, t.stack, gray + {v})
    requires base < |t.stack| && t.stack[base] == v && v in t.num && low < t.num[v] && LowReached(g, t, v, low)
    ensures AllAnchored(g, t.stack, gray)
  {
    var m := LowerAnchor(g, t, gray, v, base, low);
    forall i | 0 <= i < |t.stack| ensures Anchored(g, t.stack, gray, i) {
      assert Anchored(g, t.stack, gray + {v}, i);
      var j :| 0 <= j <= i && t.stack[j] in gray + {v} && Reaches(g, t.stack[i], t.stack[j]);
      if t.stack[j] == v {
        StackPosition(t, j, base);
        ReachesOn(g, t.stack[i], v, t.stack[m]);
        assert 0 <= m <= i && t.stack[m] in gray;
      }
    }
  }

  lemma KeepOnStack(g: Graph, t: Search, gray: set<NodeId>, v: NodeId, base: nat, low: nat)
    requires Inv(g, t, gray + {v})
    requires base < |t.stack| && t.stack[base] == v && v in t.num && low < t.num[v] && LowReached(g, t, v, low)
    requires forall b :: Links(g, v, b) ==> b in t.num
    ensures Inv(g, t, gray)
  {
    KeepAnchors(g, t, gray, v, base, low);
  }

  // ----- Finishing a visit: closing a component

  /** The nodes from `base` up on the stack. */
  ghost function Top(stack: seq<NodeId>, base: nat): set<NodeId>
    requires base <= |stack|
  {
    set x | x in stack[base..]
  }

  lemma TopAt(stack: seq<NodeId>, base: nat, x: NodeId) returns (i: nat)
    requires base <= |stack| && x in Top(stack, base)
    ensures base <= i < |stack| && stack[i] == x
  {
    var k :| 0 <= k < |stack[base..]| && stack[base..][k] == x;
    i := base + k;
  }

  /** The running visits other than `v` are all under `base`. */
  ghost predicate GrayUnder(stack: seq<NodeId>, base: nat, gray: set<NodeId>)
    requires base <= |stack|
  {
    forall x :: x in gray ==> x in stack[..base]
  }

  lemma UnderIsNotTop(t: Search, base: nat, x: NodeId)
    requires Ordered(t) && base <= |t.stack| && x in t.stack[..base]
    ensures x !in Top(t.stack, base)
  {
    var j :| 0 <= j < |t.stack[..base]| && t.stack[..base][j] == x;
    forall k | 0 <= k < |t.stack[base..]| ensures t.stack[base..][k] != x {
      StackPosition(t, j, base + k);
    }
  }

  /** Everything the top of the stack links to is in it or in a closed component. */
  lemma TopIsClosed(g: Graph, t: Search, gray: set<NodeId>, v: NodeId, base: nat, a: NodeId, b: NodeId)
    requires Shaped(g, t, gray + {v}) && Finished(g, t, gray + {v})
    requires base < |t.stack| && t.stack[base] == v && v in t.num && LowBounds(g, t, base, base, t.num[v])
    requires GrayUnder(t.stack, base, gray)
    requires forall b :: Links(g, v, b) ==> b in t.num
    requires a in Top(t.stack, base) && Links(g, a, b)
    ensures b in Top(t.stack, base) || b in t.comp
  {
    var i := TopAt(t.stack, base, a);
    if a in gray {
      UnderIsNotTop(t, base, a);
    }
    assert b in t.num;
    if b !in t.comp {
      var j :| 0 <= j < |t.stack| && t.stack[j] == b;
      StackPosition(t, j, base);
      assert j >= base ==> t.stack[base..][j - base] == b;
    }
  }

  lemma TopReachesBase(g: Graph, t: Search, gray: set<NodeId>, v: NodeId, base: nat, a: NodeId)
    requires Ordered(t) && Rising(g, t.stack) && AllAnchored(g, t.stack, gray + {v})
    requires base < |t.stack| && t.stack[base] == v && a in Top(t.stack, base) && GrayUnder(t.stack, base, gray)
    ensures Strong(g, a, v)
  {
    var i := TopAt(t.stack, base, a);
    assert Reaches(g, t.stack[base], t.stack[i]);
    assert Anchored(g, t.stack, gray + {v}, i);
    var j :| 0 <= j <= i && t.stack[j] in gray + {v} && Reaches(g, t.stack[i], t.stack[j]);
    if t.stack[j] != v {
      var k :| 0 <= k < |t.stack[..base]| && t.stack[..base][k] == t.stack[j];
      assert Reaches(g, t.stack[k], t.stack[base]);
      ReachesOn(g, a, t.stack[k], v);
    }
  }

  /** What the pop needs: `v` at `base`, its lowlink its own number, all its links visited. */
  ghost predicate ReadyToClose(g: Graph, t: Search, gray: set<NodeId>, v: NodeId, base: nat) {
    && Inv(g, t, gray + {v}) && base < |t.stack| && t.stack[base] == v && v in t.num
    && GrayUnder(t.stack, base, gray) && LowBounds(g, t, base, base, t.num[v])
    && (forall b :: Links(g, v, b) ==> b in t.num)
  }

  /** The top of the stack is exactly the strongly connected component of each of its nodes. */
  lemma TopIsComponent(g: Graph, t: Search, gray: set<NodeId>, v: NodeId, base: nat, a: NodeId, b: NodeId)
    requires ReadyToClose(g, t, gray, v, base) && a in Top(t.stack, base)
    ensures Strong(g, a, b) <==> b in Top(t.stack, base)
  {
    TopReachesBase(g, t, gray, v, base, a);
    if b in Top(t.stack, base) {
      TopReachesBase(g, t, gray, v, base, b);
      ReachesOn(g, a, v, b);
      ReachesOn(g, b, v, a);
    }
    if Strong(g, a, b) {
      var s := Top(t.stack, base) + t.comp.Keys;
      forall x, y | x in s && Links(g, x, y) ensures y in s {
        if x in Top(t.stack, base) {
          TopIsClosed(g, t, gray, v, base, x, y);
        }
      }
      ClosedUnderReach(g, s, a, b);
      if b in t.comp {
        ClosedUnderReach(g, t.comp.Keys, b, a);
        var i := TopAt(t.stack, base, a);
      }
    }
  }

  /** Closing the component: the top of the stack is popped and numbered. */
  ghost function Popped(t: Search, base: nat): Search
    requires base <= |t.stack|
  {
    Search(t.index, t.num, t.stack[..base], Closing(t, base), t.next + 1)
  }

  lemma PopShapes(g: Graph, t: Search, gray: set<NodeId>, v: NodeId, base: nat)
    requires Shaped(g, t, gray + {v}) && base < |t.stack| && GrayUnder(t.stack, base, gray)
    ensures Shaped(g, Popped(t, base), gray)
  {
    var u := Popped(t, base);
    PopOrders(t, base);
    PopParts(t, base);
    forall n | n in u.stack ensures n !in u.comp {
      UnderIsNotTop(t, base, n);
    }
  }

  lemma PopOrders(t: Search, base: nat)
    requires Ordered(t) && base <= |t.stack|
    ensures Ordered(Popped(t, base))
  {
    assert forall i :: 0 <= i < base ==> t.stack[..base][i] == t.stack[i];
  }

  /** The stack is what stays under `base` and the top. */
  lemma PopParts(t: Search, base: nat)
    requires base <= |t.stack|
    ensures forall n :: n in t.stack <==> n in t.stack[..base] || n in Top(t.stack, base)
  {
    assert t.stack == t.stack[..base] + t.stack[base..];
  }

  lemma PopAnchors(g: Graph, t: Search, gray: set<NodeId>, v: NodeId, base: nat)
    requires Ordered(t) && AllAnchored(g, t.stack, gray + {v}) && base < |t.stack| && t.stack[base] == v
    ensures AllAnchored(g, t.stack[..base], gray)
  {
    var u := t.stack[..base];
    forall i | 0 <= i < base ensures Anchored(g, u, gray, i) {
      assert Anchored(g, t.stack, gray + {v}, i);
      var j :| 0 <= j <= i && t.stack[j] in gray + {v} && Reaches(g, t.stack[i], t.stack[j]);
      StackPosition(t, j, base);
      assert u[j] in gray && Reaches(g, u[i], u[j]);
    }
  }

  lemma PopSeals(g: Graph, t: Search, gray: set<NodeId>, v: NodeId, base: nat)
    requires ReadyToClose(g, t, gray, v, base)
    ensures Sealed(g, Popped(t, base))
  {
    var u := Popped(t, base);
    forall a, b | Links(g, a, b) && a in u.comp ensures b in u.comp {
      if a in Top(t.stack, base) {
        TopIsClosed(g, t, gray, v, base, a, b);
      }
    }
  }

  lemma TopShareNumber(t: Search, base: nat, a: NodeId, b: NodeId)
    requires base <= |t.stack| && a in Top(t.stack, base) && forall n :: n in t.comp ==> t.comp[n] < t.next
    ensures SameComponent(Popped(t, base), a, b) <==> b in Top(t.stack, base)
  {
  }

  lemma OthersKeepNumber(t: Search, base: nat, a: NodeId, b: NodeId)
    requires base <= |t.stack| && a in t.comp && a !in Top(t.stack, base) && forall n :: n in t.comp ==> t.comp[n] < t.next
    ensures SameComponent(Popped(t, base), a, b) <==> b !in Top(t.stack, base) && SameComponent(t, a, b)
  {
  }

  lemma TopNotClosed(g: Graph, t: Search, gray: set<NodeId>, base: nat, b: NodeId)
    requires Shaped(g, t, gray) && base <= |t.stack| && b in Top(t.stack, base)
    ensures b !in t.comp
  {
    var i := TopAt(t.stack, base, b);
  }

  lemma PopCompletes(g: Graph, t: Search, gray: set<NodeId>, v: NodeId, base: nat, a: NodeId, b: NodeId)
    requires ReadyToClose(g, t, gray, v, base) && a in Popped(t, base).comp && b in g.nodes
    ensures Strong(g, a, b) <==> SameComponent(Popped(t, base), a, b)
  {
    if a in Top(t.stack, base) {
      TopIsComponent(g, t, gray, v, base, a, b);
      TopShareNumber(t, base, a, b);
    } else {
      OthersKeepNumber(t, base, a, b);
      if b in Top(t.stack, base) {
        TopNotClosed(g, t, gray + {v}, base, b);
      }
    }
  }

  lemma PopRises(g: Graph, stack: seq<NodeId>, base: nat)
    requires Rising(g, stack) && base <= |stack|
    ensures Rising(g, stack[..base])
  {
    forall i, j | 0 <= i <= j < base ensures Reaches(g, stack[..base][i], stack[..base][j]) {
      assert Reaches(g, stack[i], stack[j]);
    }
  }

  lemma PopKeepsInv(g: Graph, t: Search, gray: set<NodeId>, v: NodeId, base: nat)
    requires ReadyToClose(g, t, gray, v, base)
    ensures Inv(g, Popped(t, base), gray)
  {
    var u := Popped(t, base);
    PopShapes(g, t, gray, v, base);
    PopAnchors(g, t, gray, v, base);
    PopSeals(g, t, gray, v, base);
    PopRises(g, t.stack, base);
    forall a, b | a in u.comp && b in g.nodes ensures Strong(g, a, b) <==> SameComponent(u, a, b) {
      PopCompletes(g, t, gray, v, base, a, b);
    }
  }

  // ----- Going through the links of a node

  /** The links gone through so far lead to visited nodes, and `low` accounts for
      those into the stack under `base`. */
  ghost predicate Covered(t: Search, base: nat, low: nat, done: set<NodeId>)
    requires base <= |t.stack|
  {
    forall w :: w in done ==> w in t.num && (w in t.stack[..base] ==> low <= t.num[w])
  }

  /** A visit of `v` in progress: `start` just opened it at `base`. */
  ghost predicate Exploring(g: Graph, start: Search, t: Search, v: NodeId, base: nat, low: nat, done: set<NodeId>) {
    && Grows(start, t) && v in t.num && base < |t.stack| && t.stack[base] == v && low <= t.num[v]
    && LowReached(g, t, v, low) && LowBounds(g, t, base + 1, base, low) && Covered(t, base, low, done)
  }

  lemma StartExploring(g: Graph, s: Search, gray: set<NodeId>, v: NodeId)
    requires Shaped(g, s, gray) && v !in s.num
    ensures Exploring(g, Pushed(s, v), Pushed(s, v), v, |s.stack|, s.index, {})
  {
    ReachesSelf(g, v);
    var t := Pushed(s, v);
    assert t.stack[|s.stack|] == v;
    assert v in t.stack && t.num[v] == s.index && Reaches(g, v, v);
  }

  lemma ChildLow(g: Graph, t: Search, u: Search, v: NodeId, w: NodeId, low: nat, childLow: nat)
    requires Grows(t, u) && LowReached(g, t, v, low) && Links(g, v, w)
    requires childLow < low ==> LowReached(g, u, w, childLow)
    ensures LowReached(g, u, v, if childLow < low then childLow else low)
  {
    if childLow < low {
      var y :| y in u.stack && y in u.num && u.num[y] == childLow && Reaches(g, w, y);
      ReachesLink(g, v, w);
      ReachesOn(g, v, w, y);
    } else {
      var y :| y in t.stack && y in t.num && t.num[y] == low && Reaches(g, v, y);
      var i :| 0 <= i < |t.stack| && t.stack[i] == y;
      assert u.stack[i] == y;
    }
  }

  lemma ChildBounds(g: Graph, t: Search, u: Search, w: NodeId, base: nat, low: nat, childLow: nat)
    requires Visited(g, t, u, w, childLow) && base < |t.stack| && LowBounds(g, t, base + 1, base, low)
    ensures LowBounds(g, u, base + 1, base, if childLow < low then childLow else low)
  {
    var least := if childLow < low then childLow else low;
    forall i, j | base + 1 <= i < |u.stack| && 0 <= j < base && Links(g, u.stack[i], u.stack[j])
      ensures u.stack[j] in u.num && least <= u.num[u.stack[j]]
    {
      assert u.stack[j] == t.stack[j];
      if i < |t.stack| {
        assert u.stack[i] == t.stack[i];
      }
    }
  }

  lemma ChildCovers(g: Graph, t: Search, u: Search, w: NodeId, base: nat, low: nat, childLow: nat, done: set<NodeId>)
    requires (forall x :: x in t.stack ==> x in t.num) && base <= |t.stack| && Covered(t, base, low, done)
    requires w !in t.num && Visited(g, t, u, w, childLow)
    ensures base <= |u.stack| && Covered(u, base, if childLow < low then childLow else low, done + {w})
  {
    assert u.stack[..base] == t.stack[..base];
    assert forall x :: x in t.stack[..base] ==> x in t.stack;
  }

  lemma ChildExplored(g: Graph, start: Search, t: Search, u: Search, v: NodeId, w: NodeId,
                      base: nat, low: nat, childLow: nat, done: set<NodeId>)
    requires (forall x :: x in t.stack ==> x in t.num) && Exploring(g, start, t, v, base, low, done)
    requires Links(g, v, w) && w !in t.num && Visited(g, t, u, w, childLow) && t.num[v] < t.index
    ensures Exploring(g, start, u, v, base, if childLow < low then childLow else low, done + {w})
  {
    assert w !in t.stack;
    ChildLow(g, t, u, v, w, low, childLow);
    ChildBounds(g, t, u, w, base, low, childLow);
    ChildCovers(g, t, u, w, base, low, childLow, done);
  }

  lemma SeenExplored(g: Graph, start: Search, t: Search, v: NodeId, w: NodeId, base: nat, low: nat, done: set<NodeId>)
    requires Exploring(g, start, t, v, base, low, done) && Links(g, v, w) && w in t.num
    ensures Exploring(g, start, t, v, base, if w in t.stack && t.num[w] < low then t.num[w] else low, done + {w})
  {
    ReachesLink(g, v, w);
    assert forall x :: x in t.stack[..base] ==> x in t.stack;
  }

  /** Once every link of `v` has been gone through, its lowlink bounds the links of the whole top. */
  lemma AllExplored(g: Graph, start: Search, t: Search, v: NodeId, base: nat, low: nat, done: set<NodeId>)
    requires Exploring(g, start, t, v, base, low, done) && forall b :: Links(g, v, b) ==> b in done
    ensures LowBounds(g, t, base, base, low) && forall b :: Links(g, v, b) ==> b in t.num
  {
    forall i, j | base <= i < |t.stack| && 0 <= j < base && Links(g, t.stack[i], t.stack[j])
      ensures t.stack[j] in t.num && low <= t.num[t.stack[j]]
    {
      if i == base {
        assert t.stack[..base][j] == t.stack[j];
      }
    }
  }

  // ----- The search

  class Tarjan {
    ghost const g: Graph
    const out: map<NodeId, seq<NodeId>>
    var index: nat
    var indexOf: map<NodeId, nat>
    var lowlink: map<NodeId, nat>
    var onStack: map<NodeId, bool>
    var stack: seq<NodeId>
    var comp: map<NodeId, nat>
    var next: nat

    ghost function View(): Search
      reads this
    {
      Search(index, indexOf, stack, comp, next)
    }

    /** The flag map agrees with the stack, and every visited node has a lowlink. */
    ghost predicate Tracked()
      reads this
    {
      && (forall n :: n in stack <==> n in onStack && onStack[n])
      && (forall n :: n in indexOf ==> n in lowlink)
      && (forall n :: n in out <==> n in g.nodes)
      && (forall n, m :: n in out ==> (m in out[n] <==> Links(g, n, m)))
    }

    ghost predicate Valid(gray: set<NodeId>)
      reads this
    {
      Tracked() && Inv(g, View(), gray)
    }

    /** The visit of `v` that `start` opened at `base` has gone through the links `done`. */
    ghost predicate Visiting(v: NodeId, gray: set<NodeId>, start: Search, base: nat, done: set<NodeId>)
      reads this
    {
      Valid(gray + {v}) && v in indexOf && Exploring(g, start, View(), v, base, lowlink[v], done)
    }

    constructor (ghost graph: Graph, out: map<NodeId, seq<NodeId>>)
      requires Closed(graph)
      requires forall n :: n in out <==> n in graph.nodes
      requires forall n, m :: n in out ==> (m in out[n] <==> Links(graph, n, m))
      ensures Valid({}) && g == graph && View() == Search(0, map[], [], map[], 0)
    {
      this.g := graph;
      this.out := out;
      index, next := 0, 0;
      indexOf, lowlink, onStack, comp := map[], map[], map[], map[];
      stack := [];
    }

    /** Opens a visit of `v`. */
    method Open(v: NodeId)
      requires Tracked()
      modifies this
      ensures Tracked() && View() == old(Pushed(View(), v)) && lowlink == old(lowlink)[v := old(index)]
    {
      PushTracks(stack, v);
      indexOf := indexOf[v := index];
      lowlink := lowlink[v := index];
      index := index + 1;
      stack := stack + [v];
      onStack := onStack[v := true];
    }

    /** Takes the top node off the stack into the component being closed. */
    method PopNode(ghost s: Search) returns (w: NodeId)
      requires Tracked() && PoppedTo(s, View()) && Ordered(s) && stack != []
      modifies this`stack, this`onStack, this`comp
      ensures Tracked() && PoppedTo(s, View()) && |stack| == old(|stack|) - 1
      ensures w == s.stack[|stack|]
    {
      ghost var n := |stack| - 1;
      PopOne(s, n);
      w := stack[|stack| - 1];
      stack := stack[..|stack| - 1];
      onStack := onStack[w := false];
      comp := comp[w := next];
      assert stack == s.stack[..n];
    }

    /** Pops the stack down to `v`, numbering what comes off as one component. */
    method Close(v: NodeId, ghost base: nat)
      requires Tracked() && Ordered(View()) && base < |stack| && stack[base] == v
      modifies this`stack, this`onStack, this`comp, this`next
      ensures Tracked() && View() == old(Popped(View(), base))
    {
      ghost var s := View();
      assert PoppedTo(s, s) by { assert s.stack[..|s.stack|] == s.stack; }
      while true
        invariant base < |stack| && Tracked() && PoppedTo(s, View())
        decreases |stack|
      {
        var w := PopNode(s);
        StackPosition(s, |stack|, base);
        if w == v {
          break;
        }
      }
      next := next + 1;
    }

    /** Ends the visit of `v`: closes its component or leaves it on the stack. */
    method Finish(v: NodeId, ghost gray: set<NodeId>, ghost base: nat)
      requires Tracked() && Inv(g, View(), gray + {v}) && v in indexOf
      requires base < |stack| && stack[base] == v && GrayUnder(stack, base, gray)
      requires lowlink[v] <= indexOf[v] && LowReached(g, View(), v, lowlink[v]) && LowBounds(g, View(), base, base, lowlink[v])
      requires forall b :: Links(g, v, b) ==> b in indexOf
      modifies this`stack, this`onStack, this`comp, this`next
      ensures Valid(gray)
      ensures old(lowlink[v] == indexOf[v]) ==> View() == old(Popped(View(), base))
      ensures old(lowlink[v] != indexOf[v]) ==> View() == old(View())
    {
      if lowlink[v] == indexOf[v] {
        PopKeepsInv(g, View(), gray, v, base);
        Close(v, base);
      } else {
        KeepOnStack(g, View(), gray, v, base, lowlink[v]);
      }
    }

    /** Goes through one link of the running visit of `v`. */
    method Follow(v: NodeId, w: NodeId, ghost gray: set<NodeId>, ghost start: Search, ghost base: nat, ghost done: set<NodeId>)
      requires Visiting(v, gray, start, base, done) && Links(g, v, w)
      requires forall x :: x in gray ==> Reaches(g, x, v)
      modifies this
      ensures Visiting(v, gray, start, base, done + {w})
      ensures SameLow(old(indexOf) - {v}, old(lowlink), lowlink)
      decreases Unvisited(g, indexOf), 3
    {
      if w !in indexOf {
        Descend(v, w, gray, start, base, done);
      } else {
        NoteSeen(v, w, gray, start, base, done);
      }
    }

    /** Visits `w`, new, and takes over its lowlink where that is lower. */
    method Descend(v: NodeId, w: NodeId, ghost gray: set<NodeId>, ghost start: Search, ghost base: nat, ghost done: set<NodeId>)
      requires Visiting(v, gray, start, base, done) && w !in indexOf && Links(g, v, w)
      requires forall x :: x in gray ==> Reaches(g, x, v)
      modifies this
      ensures Visiting(v, gray, start, base, done + {w})
      ensures SameLow(old(indexOf) - {v}, old(lowlink), lowlink)
      decreases Unvisited(g, indexOf), 2
    {
      ghost var t, low := View(), lowlink[v];
      GrayReachesChild(g, gray, v, w);
      StrongConnect(w, gray + {v});
      ghost var u, childLow := View(), lowlink[w];
      ghost var least := if childLow < low then childLow else low;
      ChildExplored(g, start, t, u, v, w, base, low, childLow, done);
      LowerLink(v, lowlink[w]);
      assert View() == u && lowlink[v] == least;
    }

    /** Lowers the lowlink of `v` to `low`, if that is lower. */
    method LowerLink(v: NodeId, low: nat)
      requires Tracked() && v in lowlink
      modifies this`lowlink
      ensures Tracked() && View() == old(View())
      ensures lowlink == old(lowlink)[v := if low < old(lowlink[v]) then low else old(lowlink[v])]
    {
      if low < lowlink[v] {
        lowlink := lowlink[v := low];
      }
    }

    /** Takes the number of `w`, seen before, as lowlink if it is on the stack and lower. */
    method NoteSeen(v: NodeId, w: NodeId, ghost gray: set<NodeId>, ghost start: Search, ghost base: nat, ghost done: set<NodeId>)
      requires Visiting(v, gray, start, base, done) && w in indexOf && Links(g, v, w)
      modifies this`lowlink
      ensures Visiting(v, gray, start, base, done + {w})
      ensures SameLow(indexOf - {v}, old(lowlink), lowlink)
    {
      SeenExplored(g, start, View(), v, w, base, lowlink[v], done);
      if w in onStack && onStack[w] {
        LowerLink(v, indexOf[w]);
      }
    }

    /** Visits `v` and everything new it reaches: afterwards `v` is closed with its
        whole component, or on the stack with a sound lowlink. */
    method StrongConnect(v: NodeId, ghost gray: set<NodeId>)
      requires Valid(gray) && v in g.nodes && v !in indexOf
      requires forall x :: x in gray ==> Reaches(g, x, v)
      modifies this
      ensures Valid(gray) && v in indexOf && Visited(g, old(View()), View(), v, lowlink[v])
      ensures SameLow(old(indexOf), old(lowlink), lowlink)
      decreases Unvisited(g, indexOf), 1
    {
      ghost var before, base := View(), |stack|;
      Explore(v, gray);
      Leave(v, gray, before, base);
    }

    /** Opens the visit of `v` and goes through its links. */
    method Explore(v: NodeId, ghost gray: set<NodeId>)
      requires Valid(gray) && v in g.nodes && v !in indexOf
      requires forall x :: x in gray ==> Reaches(g, x, v)
      modifies this
      ensures Visiting(v, gray, old(Pushed(View(), v)), old(|stack|), {})
      ensures LowBounds(g, View(), old(|stack|), old(|stack|), lowlink[v]) && forall b :: Links(g, v, b) ==> b in indexOf
      ensures SameLow(old(indexOf), old(lowlink), lowlink)
      decreases Unvisited(g, indexOf), 0
    {
      ghost var before, base := View(), |stack|;
      StartExploring(g, before, gray, v);
      PushKeepsInv(g, before, gray, v);
      Open(v);
      assert v in Unvisited(g, before.num) && v !in Unvisited(g, indexOf);
      FollowAll(v, gray, before, base);
    }

    /** Ends the visit of `v` once all its links have been gone through. */
    method Leave(v: NodeId, ghost gray: set<NodeId>, ghost before: Search, ghost base: nat)
      requires Visiting(v, gray, Pushed(before, v), base, {})
      requires v !in before.num && Shaped(g, before, gray) && base == |before.stack|
      requires LowBounds(g, View(), base, base, lowlink[v]) && forall b :: Links(g, v, b) ==> b in indexOf
      modifies this`stack, this`onStack, this`comp, this`next
      ensures Valid(gray) && Visited(g, before, View(), v, lowlink[v])
    {
      ghost var t := View();
      VisitEnds(g, before, t, v, gray, base);
      Finish(v, gray, base);
      VisitedEnds(g, before, t, View(), v, gray, base, lowlink[v]);
    }

    /** Goes through every link of `v`, whose visit has just been opened. */
    method FollowAll(v: NodeId, ghost gray: set<NodeId>, ghost before: Search, ghost base: nat)
      requires Visiting(v, gray, View(), base, {}) && v in g.nodes && View() == Pushed(before, v) && v !in before.num
      requires forall x :: x in gray ==> Reaches(g, x, v)
      modifies this
      ensures Visiting(v, gray, Pushed(before, v), base, {})
      ensures LowBounds(g, View(), base, base, lowlink[v]) && forall b :: Links(g, v, b) ==> b in indexOf
      ensures SameLow(before.num, old(lowlink), lowlink)
      decreases Unvisited(g, indexOf), 6
    {
      var links := LinksOf(v);
      ghost var done := FollowLinks(v, links, gray, Pushed(before, v), base, before.num);
      AllExplored(g, Pushed(before, v), View(), v, base, lowlink[v], done);
    }

    method FollowLinks(v: NodeId, links: seq<NodeId>, ghost gray: set<NodeId>, ghost start: Search, ghost base: nat,
                       ghost kept: map<NodeId, nat>) returns (ghost done: set<NodeId>)
      requires Visiting(v, gray, start, base, {}) && View() == start && OpenedOn(g, v, gray, start, kept)
      requires forall b :: b in links ==> Links(g, v, b)
      modifies this
      ensures Followed(v, gray, start, base, done, kept, old(lowlink)) && forall b :: b in links ==> b in done
      decreases Unvisited(g, indexOf), 5
    {
      var i := 0;
      ghost var low := lowlink;
      done := {};
      while i < |links|
        invariant 0 <= i <= |links| && AllIn(links, i, done)
        invariant Followed(v, gray, start, base, done, kept, low)
      {
        OneMoreIn(links, i, done);
        FollowedShrinks(v, gray, start, base, done);
        FollowNext(v, links[i], done, gray, start, base, kept, low);
        done := done + {links[i]};
        i := i + 1;
      }
    }

    lemma FollowedShrinks(v: NodeId, gray: set<NodeId>, start: Search, base: nat, done: set<NodeId>)
      requires Visiting(v, gray, start, base, done)
      ensures Unvisited(g, indexOf) == Unvisited(g, start.num) || Unvisited(g, indexOf) < Unvisited(g, start.num)
    {
      VisitedShrinks(g, start.num, indexOf);
    }

    /** The links `done` have been followed, and the lowlinks of `kept` are as before. */
    ghost predicate Followed(v: NodeId, gray: set<NodeId>, start: Search, base: nat, done: set<NodeId>,
                             kept: map<NodeId, nat>, low: map<NodeId, nat>)
      reads this
    {
      Visiting(v, gray, start, base, done) && SameLow(kept, low, lowlink)
    }

    method FollowNext(v: NodeId, w: NodeId, ghost done: set<NodeId>, ghost gray: set<NodeId>, ghost start: Search, ghost base: nat,
                      ghost kept: map<NodeId, nat>, ghost low: map<NodeId, nat>)
      requires Links(g, v, w) && Followed(v, gray, start, base, done, kept, low)
      requires OpenedOn(g, v, gray, start, kept)
      modifies this
      ensures Followed(v, gray, start, base, done + {w}, kept, low)
      decreases Unvisited(g, indexOf), 4
    {
      ghost var num, was := indexOf, lowlink;
      Follow(v, w, gray, start, base, done);
      SameLowOnLess(kept, num, v, was, lowlink);
    }

    /** The targets of the links of `v`, in order. */
    method LinksOf(v: NodeId) returns (links: seq<NodeId>)
      requires Tracked() && v in g.nodes
      ensures forall b :: b in links <==> Links(g, v, b)
    {
      links := Sorted(out[v]);
    }
  }

  /** The first `i` of the list are in the set. */
  ghost predicate AllIn(s: seq<NodeId>, i: nat, done: set<NodeId>)
    requires i <= |s|
  {
    forall k :: 0 <= k < i ==> s[k] in done
  }

  lemma OneMoreIn(s: seq<NodeId>, i: nat, done: set<NodeId>)
    requires i < |s| && AllIn(s, i, done)
    ensures s[i] in s && AllIn(s, i + 1, done + {s[i]})
  {
  }

  /** The running visits lead to `v`, which was not among the nodes of before. */
  ghost predicate OpenedOn(g: Graph, v: NodeId, gray: set<NodeId>, start: Search, before: map<NodeId, nat>) {
    v !in before && (forall n :: n in before ==> n in start.num) && forall x :: x in gray ==> Reaches(g, x, v)
  }

  /** The lowlinks of `nodes` are the same in both. */
  ghost predicate SameLow(nodes: map<NodeId, nat>, before: map<NodeId, nat>, now: map<NodeId, nat>) {
    forall n :: n in nodes ==> n in now && n in before && now[n] == before[n]
  }

  lemma SameLowOnLess(nodes: map<NodeId, nat>, more: map<NodeId, nat>, v: NodeId, before: map<NodeId, nat>, now: map<NodeId, nat>)
    requires SameLow(more - {v}, before, now) && v !in nodes && forall n :: n in nodes ==> n in more
    ensures SameLow(nodes, before, now)
  {
  }

  ghost function Unvisited(g: Graph, num: map<NodeId, nat>): set<NodeId> {
    set n | n in g.nodes && n !in num
  }

  lemma VisitedShrinks(g: Graph, before: map<NodeId, nat>, now: map<NodeId, nat>)
    requires forall n :: n in before ==> n in now
    ensures Unvisited(g, now) <= Unvisited(g, before)
  {
  }

  lemma GrayReachesChild(g: Graph, gray: set<NodeId>, v: NodeId, w: NodeId)
    requires Links(g, v, w) && forall x :: x in gray ==> Reaches(g, x, v)
    ensures forall x :: x in gray + {v} ==> Reaches(g, x, w)
  {
    ReachesLink(g, v, w);
    forall x | x in gray ensures Reaches(g, x, w) {
      ReachesOn(g, x, v, w);
    }
  }

  lemma VisitEnds(g: Graph, before: Search, t: Search, v: NodeId, gray: set<NodeId>, base: nat)
    requires Shaped(g, before, gray) && base == |before.stack| && base <= |t.stack| && Grows(Pushed(before, v), t)
    ensures before.stack == t.stack[..base] && GrayUnder(t.stack, base, gray)
  {
    assert Pushed(before, v).stack[..base] == before.stack;
  }

  lemma VisitedEnds(g: Graph, before: Search, t: Search, u: Search, v: NodeId, gray: set<NodeId>, base: nat, low: nat)
    requires Shaped(g, before, gray) && v !in before.num && Shaped(g, t, gray + {v})
    requires base == |before.stack| && Exploring(g, Pushed(before, v), t, v, base, low, {})
    requires LowBounds(g, t, base, base, low)
    requires if low == t.num[v] then u == Popped(t, base) else u == t
    ensures Visited(g, before, u, v, low)
  {
    VisitEnds(g, before, t, v, gray, base);
    assert t.num[v] == before.index;
    assert v in t.stack;
    if low == t.num[v] {
      assert t.stack[base..][0] == v;
      assert v in u.comp;
      GrowsToPopped(before, v, t, base);
    } else {
      GrowsPast(before, v, t);
    }
  }

  lemma GrowsPast(before: Search, v: NodeId, t: Search)
    requires v !in before.num && Grows(Pushed(before, v), t)
    ensures Grows(before, t)
  {
    assert before.stack <= Pushed(before, v).stack;
  }

  lemma GrowsToPopped(before: Search, v: NodeId, t: Search, base: nat)
    requires v !in before.num && Grows(Pushed(before, v), t) && base == |before.stack| && before.stack == t.stack[..base]
    ensures Grows(before, Popped(t, base))
  {
    GrowsPast(before, v, t);
  }

  /** Components closed once everything from `n` up has been popped. */
  ghost function Closing(s: Search, n: nat): map<NodeId, nat>
    requires n <= |s.stack|
  {
    s.comp + (map x | x in Top(s.stack, n) :: s.next)
  }

  /** `t` is `s` with some of the top popped into the component being closed. */
  ghost predicate PoppedTo(s: Search, t: Search) {
    && |t.stack| <= |s.stack| && t.stack == s.stack[..|t.stack|]
    && t.index == s.index && t.num == s.num && t.next == s.next && t.comp == Closing(s, |t.stack|)
  }

  lemma PopOne(s: Search, n: nat)
    requires Ordered(s) && n < |s.stack|
    ensures forall x :: x in s.stack[..n] <==> x in s.stack[..n + 1] && x != s.stack[n]
    ensures s.stack[..n + 1][..n] == s.stack[..n] && s.stack[..n + 1][n] == s.stack[n]
    ensures Closing(s, n) == Closing(s, n + 1)[s.stack[n] := s.next]
  {
    assert s.stack[..n + 1] == s.stack[..n] + [s.stack[n]];
    forall j | 0 <= j < n ensures s.stack[j] != s.stack[n] {
      StackPosition(s, j, n);
    }
    ClosingOne(s, n);
  }

  lemma ClosingOne(s: Search, n: nat)
    requires n < |s.stack|
    ensures Closing(s, n) == Closing(s, n + 1)[s.stack[n] := s.next]
  {
    var a, b := Closing(s, n), Closing(s, n + 1)[s.stack[n] := s.next];
    TopOne(s.stack, n);
    assert a.Keys == b.Keys;
    assert forall x :: x in a ==> a[x] == b[x];
  }

  lemma TopOne(stack: seq<NodeId>, n: nat)
    requires n < |stack|
    ensures Top(stack, n) == Top(stack, n + 1) + {stack[n]}
  {
    assert stack[n..] == [stack[n]] + stack[n + 1..];
  }
}
