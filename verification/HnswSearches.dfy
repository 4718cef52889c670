// Best-first search on one layer.

module HnswSearches {
  import opened HnswNets

  type Filter = Id -> bool

  predicate Allows(net: Net, allow: Filter, n: nat) {
    n < |net.nodes| && allow(net.nodes[n].id)
  }

  ghost predicate FromAny(nodes: seq<Node>, l: nat, entries: seq<nat>, n: nat) {
    exists e :: e in entries && Reach(nodes, l, e, n)
  }

  /** At least `ef` are kept, and none of them is farther than `n`. */
  ghost predicate Beyond(net: Net, q: Vector, ef: nat, kept: set<nat>, n: nat) {
    kept != {} && |kept| >= ef && forall r :: r in kept ==> Distance(net, q, r) <= Distance(net, q, n)
  }

  /** There is room for an element, or something to compare it with. */
  predicate HasWorst(ef: nat, kept: set<nat>) {
    0 < ef || kept != {}
  }

  ghost predicate Expanded(net: Net, l: nat, visited: set<nat>, n: nat) {
    forall b :: b in NeighboursAt(net.nodes, n, l) ==> b in visited
  }

  /** What has been seen is reachable; what was allowed and not kept is beyond what was kept. */
  ghost predicate KeepsBest(net: Net, q: Vector, ef: nat, allow: Filter, visited: set<nat>, kept: set<nat>) {
    && kept <= visited
    && (forall r :: r in kept ==> Allows(net, allow, r))
    && (forall v :: v in visited && Allows(net, allow, v) ==> v in kept || Beyond(net, q, ef, kept, v))
  }

  /** What has been seen is open, expanded, or beyond what was kept. */
  ghost predicate Explored(net: Net, q: Vector, ef: nat, l: nat, visited: set<nat>, open: set<nat>, kept: set<nat>) {
    forall v :: v in visited ==> v in open || Expanded(net, l, visited, v) || Beyond(net, q, ef, kept, v)
  }

  ghost predicate Seen(net: Net, l: nat, entries: seq<nat>, visited: set<nat>) {
    forall v :: v in visited ==> LivesOn(net.nodes, v, l) && FromAny(net.nodes, l, entries, v)
  }

  // ----- One element considered

  /** Keeping `n` as well, and dropping the worst when that is one too many. */
  lemma KeepOneMore(net: Net, q: Vector, ef: nat, kept: set<nat>, n: nat, less: set<nat>)
    requires n !in kept && HasWorst(ef, kept)
    requires if |kept| + 1 <= ef then less == kept + {n}
             else exists w :: IsFirst((a: nat, b: nat) => Farther(net, q, a, b), kept + {n}, w) && less == kept + {n} - {w}
    requires |kept| < ef || exists r :: r in kept && Distance(net, q, n) < Distance(net, q, r)
    ensures forall v :: Beyond(net, q, ef, kept, v) ==> Beyond(net, q, ef, less, v)
    ensures forall v :: v in kept + {n} && v !in less ==> Beyond(net, q, ef, less, v)
  {
  }

  lemma FartherIsLinear(net: Net, q: Vector, s: set<nat>)
    ensures Linear((a: nat, b: nat) => Farther(net, q, a, b), s)
  {
  }

  lemma NearerIsLinear(net: Net, q: Vector, s: set<nat>)
    ensures Linear((a: nat, b: nat) => Nearer(net, q, a, b), s)
  {
  }

  /** Takes note of an element seen for the first time. */
  method Consider(net: Net, q: Vector, ef: nat, allow: Filter, n: nat, visited: set<nat>, open: set<nat>, kept0: set<nat>)
    returns (candidate: bool, kept: set<nat>)
    requires HasWorst(ef, kept0) && n < |net.nodes| && n !in visited && KeepsBest(net, q, ef, allow, visited, kept0)
    ensures HasWorst(ef, kept) && KeepsBest(net, q, ef, allow, visited + {n}, kept)
    ensures forall v :: Beyond(net, q, ef, kept0, v) ==> Beyond(net, q, ef, kept, v)
    ensures candidate || Beyond(net, q, ef, kept, n)
    ensures |kept| <= ef || |kept| <= |kept0|
  {
    kept := kept0;
    candidate := |kept| < ef;
    if !candidate {
      FartherIsLinear(net, q, kept);
      var worst := FirstOf(kept, (a: nat, b: nat) => Farther(net, q, a, b));
      candidate := Distance(net, q, n) < Distance(net, q, worst);
      WorstIsFarthest(net, q, kept, worst);
    }
    if candidate && allow(net.nodes[n].id) {
      kept := kept + {n};
      if |kept| > ef {
        FartherIsLinear(net, q, kept);
        var worst := FirstOf(kept, (a: nat, b: nat) => Farther(net, q, a, b));
        kept := kept - {worst};
      }
      KeepOneMore(net, q, ef, kept0, n, kept);
    }
  }

  lemma WorstIsFarthest(net: Net, q: Vector, kept: set<nat>, worst: nat)
    requires IsFirst((a: nat, b: nat) => Farther(net, q, a, b), kept, worst)
    ensures forall r :: r in kept ==> Distance(net, q, r) <= Distance(net, q, worst)
  {
  }

  // ----- The search

  /** The entries, and those of them that pass the filter. */
  ghost predicate Entered(net: Net, l: nat, allow: Filter, entries: seq<nat>, visited: set<nat>, kept: set<nat>) {
    && Seen(net, l, entries, visited) && |kept| <= |entries|
    && (forall v :: v in visited <==> v in entries) && (forall v :: v in kept <==> v in visited && Allows(net, allow, v))
  }

  method Enter(net: Net, entries: seq<nat>, l: nat, allow: Filter) returns (visited: set<nat>, kept: set<nat>)
    requires forall e :: e in entries ==> LivesOn(net.nodes, e, l)
    ensures Entered(net, l, allow, entries, visited, kept)
  {
    visited, kept := {}, {};
    var i := 0;
    while i < |entries|
      invariant 0 <= i <= |entries| && |kept| <= i
      invariant forall v :: v in visited <==> v in entries[..i]
      invariant forall v :: v in kept <==> v in visited && Allows(net, allow, v)
    {
      assert entries[..i + 1] == entries[..i] + [entries[i]];
      assert entries[i] in entries;
      visited := visited + {entries[i]};
      if allow(net.nodes[entries[i]].id) {
        kept := kept + {entries[i]};
      }
      i := i + 1;
    }
    assert entries[..i] == entries;
    forall v | v in visited ensures FromAny(net.nodes, l, entries, v) {
      assert Reach(net.nodes, l, v, v);
    }
  }

  /** What has been seen so far, with the elements still to be expanded. */
  ghost predicate Expanding(net: Net, q: Vector, ef: nat, l: nat, allow: Filter, entries: seq<nat>,
                            visited: set<nat>, open: set<nat>, kept: set<nat>) {
    && Seen(net, l, entries, visited) && KeepsBest(net, q, ef, allow, visited, kept)
    && Explored(net, q, ef, l, visited, open, kept)
  }

  /** More has been seen, new candidates among it, and no more is kept than the width allows. */
  ghost predicate Enlarged(ef: nat, visited0: set<nat>, candidates0: set<nat>, kept0: set<nat>,
                           visited: set<nat>, candidates: set<nat>, kept: set<nat>) {
    && visited0 <= visited && candidates <= visited && candidates - candidates0 <= visited - visited0
    && HasWorst(ef, kept) && (|kept| <= ef || |kept| <= |kept0|)
  }

  /** Looks at the neighbours of `c` not seen before. */
  method Expand(net: Net, q: Vector, ef: nat, l: nat, allow: Filter, c: nat, ghost m: nat, ghost entries: seq<nat>,
                visited0: set<nat>, candidates0: set<nat>, kept0: set<nat>)
    returns (visited: set<nat>, candidates: set<nat>, kept: set<nat>)
    requires HasWorst(ef, kept0) && Wired(net.nodes, m) && c in visited0 && candidates0 <= visited0
    requires Expanding(net, q, ef, l, allow, entries, visited0, candidates0 + {c}, kept0)
    ensures Expanding(net, q, ef, l, allow, entries, visited, candidates, kept)
    ensures Enlarged(ef, visited0, candidates0, kept0, visited, candidates, kept)
  {
    visited, candidates, kept := visited0, candidates0, kept0;
    var around := NeighboursAt(net.nodes, c, l);
    assert GoodList(net.nodes, c, l, around, m);
    var i := 0;
    while i < |around|
      invariant 0 <= i <= |around|
      invariant Halfway(net, q, ef, l, allow, c, entries, visited0, candidates0, kept0, i, visited, candidates, kept)
    {
      ghost var was, open, less := visited, candidates, kept;
      visited, candidates, kept := MeetOnce(net, q, ef, l, allow, c, around[i], entries, visited, candidates, kept);
      OneMoreMet(net, q, ef, l, allow, c, entries, visited0, candidates0, kept0, i, was, open, less, visited, candidates, kept);
      i := i + 1;
    }
    ExpandedIsDone(net, q, ef, l, allow, entries, visited, candidates, kept, c);
  }

  /** The first `i` neighbours of `c` have been looked at. */
  ghost predicate Halfway(net: Net, q: Vector, ef: nat, l: nat, allow: Filter, c: nat, entries: seq<nat>,
                          visited0: set<nat>, candidates0: set<nat>, kept0: set<nat>, i: nat,
                          visited: set<nat>, candidates: set<nat>, kept: set<nat>) {
    && Expanding(net, q, ef, l, allow, entries, visited, candidates + {c}, kept)
    && Enlarged(ef, visited0, candidates0, kept0, visited, candidates, kept)
    && i <= |NeighboursAt(net.nodes, c, l)| && forall k :: 0 <= k < i ==> NeighboursAt(net.nodes, c, l)[k] in visited
  }

  lemma OneMoreMet(net: Net, q: Vector, ef: nat, l: nat, allow: Filter, c: nat, entries: seq<nat>,
                   visited0: set<nat>, candidates0: set<nat>, kept0: set<nat>, i: nat, was: set<nat>, open: set<nat>, less: set<nat>,
                   visited: set<nat>, candidates: set<nat>, kept: set<nat>)
    requires Halfway(net, q, ef, l, allow, c, entries, visited0, candidates0, kept0, i, was, open, less)
    requires Expanding(net, q, ef, l, allow, entries, visited, candidates + {c}, kept)
    requires Enlarged(ef, was, open, less, visited, candidates, kept)
    requires i < |NeighboursAt(net.nodes, c, l)| && NeighboursAt(net.nodes, c, l)[i] in visited
    ensures Halfway(net, q, ef, l, allow, c, entries, visited0, candidates0, kept0, i + 1, visited, candidates, kept)
  {
    EnlargedMore(ef, visited0, candidates0, kept0, was, open, less, visited, candidates, kept);
  }

  lemma EnlargedMore(ef: nat, visited0: set<nat>, candidates0: set<nat>, kept0: set<nat>, was: set<nat>, open: set<nat>, less: set<nat>,
                     visited: set<nat>, candidates: set<nat>, kept: set<nat>)
    requires Enlarged(ef, visited0, candidates0, kept0, was, open, less) && Enlarged(ef, was, open, less, visited, candidates, kept)
    ensures Enlarged(ef, visited0, candidates0, kept0, visited, candidates, kept)
  {
  }

  /** With all its neighbours seen, `c` need not be open. */
  lemma ExpandedIsDone(net: Net, q: Vector, ef: nat, l: nat, allow: Filter, entries: seq<nat>,
                       visited: set<nat>, open: set<nat>, kept: set<nat>, c: nat)
    requires Expanding(net, q, ef, l, allow, entries, visited, open + {c}, kept)
    requires forall k :: 0 <= k < |NeighboursAt(net.nodes, c, l)| ==> NeighboursAt(net.nodes, c, l)[k] in visited
    ensures Expanding(net, q, ef, l, allow, entries, visited, open, kept)
  {
    assert Expanded(net, l, visited, c);
  }

  method MeetOnce(net: Net, q: Vector, ef: nat, l: nat, allow: Filter, ghost c: nat, n: nat, ghost entries: seq<nat>,
                  visited0: set<nat>, candidates0: set<nat>, kept0: set<nat>)
    returns (visited: set<nat>, candidates: set<nat>, kept: set<nat>)
    requires HasWorst(ef, kept0) && c in visited0 && candidates0 <= visited0
    requires n in NeighboursAt(net.nodes, c, l) && LivesOn(net.nodes, n, l)
    requires Expanding(net, q, ef, l, allow, entries, visited0, candidates0 + {c}, kept0)
    ensures Expanding(net, q, ef, l, allow, entries, visited, candidates + {c}, kept)
    ensures Enlarged(ef, visited0, candidates0, kept0, visited, candidates, kept) && n in visited
  {
    visited, candidates, kept := visited0, candidates0, kept0;
    if n !in visited {
      visited, candidates, kept := Meet(net, q, ef, l, allow, c, n, entries, visited0, candidates0, kept0);
    }
  }

  /** Sees neighbour `n` of `c`: a candidate unless it is beyond what is kept. */
  method Meet(net: Net, q: Vector, ef: nat, l: nat, allow: Filter, ghost c: nat, n: nat, ghost entries: seq<nat>,
              visited0: set<nat>, candidates0: set<nat>, kept0: set<nat>)
    returns (visited: set<nat>, candidates: set<nat>, kept: set<nat>)
    requires HasWorst(ef, kept0) && c in visited0 && n !in visited0 && n in NeighboursAt(net.nodes, c, l) && LivesOn(net.nodes, n, l)
    requires Expanding(net, q, ef, l, allow, entries, visited0, candidates0 + {c}, kept0)
    ensures Expanding(net, q, ef, l, allow, entries, visited, candidates + {c}, kept)
    ensures visited == visited0 + {n} && (candidates == candidates0 || candidates == candidates0 + {n})
    ensures HasWorst(ef, kept) && (|kept| <= ef || |kept| <= |kept0|)
  {
    var candidate, more := Consider(net, q, ef, allow, n, visited0, candidates0, kept0);
    SeeNeighbour(net, l, entries, visited0, c, n);
    ExploreOneMore(net, q, ef, l, visited0, candidates0 + {c}, kept0, n, candidate, more);
    visited, candidates, kept := visited0 + {n}, if candidate then candidates0 + {n} else candidates0, more;
    assert candidates + {c} == if candidate then candidates0 + {c} + {n} else candidates0 + {c};
  }

  lemma SeeNeighbour(net: Net, l: nat, entries: seq<nat>, visited: set<nat>, c: nat, n: nat)
    requires Seen(net, l, entries, visited) && c in visited && n in NeighboursAt(net.nodes, c, l) && LivesOn(net.nodes, n, l)
    ensures Seen(net, l, entries, visited + {n})
  {
  }

  lemma ExploreOneMore(net: Net, q: Vector, ef: nat, l: nat, visited: set<nat>, open: set<nat>, kept: set<nat>,
                       n: nat, candidate: bool, more: set<nat>)
    requires Explored(net, q, ef, l, visited, open, kept)
    requires forall v :: Beyond(net, q, ef, kept, v) ==> Beyond(net, q, ef, more, v)
    requires candidate || Beyond(net, q, ef, more, n)
    ensures Explored(net, q, ef, l, visited + {n}, if candidate then open + {n} else open, more)
  {
  }

  /** When the nearest open element is farther than everything kept, so is every open one. */
  lemma StopIsSound(net: Net, q: Vector, ef: nat, l: nat, visited: set<nat>, open: set<nat>, kept: set<nat>, c: nat)
    requires Explored(net, q, ef, l, visited, open, kept) && IsFirst((a: nat, b: nat) => Nearer(net, q, a, b), open, c)
    requires kept != {} && |kept| >= ef && forall r :: r in kept ==> Distance(net, q, r) <= Distance(net, q, c)
    ensures Explored(net, q, ef, l, visited, {}, kept)
  {
  }

  /** Everything the search kept, and everything it saw. */
  ghost predicate SearchResult(net: Net, q: Vector, ef: nat, l: nat, allow: Filter, entries: seq<nat>, visited: set<nat>, kept: set<nat>) {
    && Seen(net, l, entries, visited) && (forall e :: e in entries ==> e in visited)
    && KeepsBest(net, q, ef, allow, visited, kept) && Explored(net, q, ef, l, visited, {}, kept)
  }

  /** The search under way: every open element has been seen. */
  ghost predicate Searching(net: Net, q: Vector, ef: nat, l: nat, allow: Filter, entries: seq<nat>,
                            visited: set<nat>, open: set<nat>, kept: set<nat>) {
    && Expanding(net, q, ef, l, allow, entries, visited, open, kept)
    && open <= visited && forall e :: e in entries ==> e in visited
  }

  /** Takes the nearest open element, unless it is farther than everything kept. */
  method TakeNearest(net: Net, q: Vector, ef: nat, l: nat, allow: Filter, ghost entries: seq<nat>,
                     ghost visited: set<nat>, open: set<nat>, kept: set<nat>)
    returns (c: nat, stop: bool)
    requires HasWorst(ef, kept) && open != {} && Searching(net, q, ef, l, allow, entries, visited, open, kept)
    ensures c in open
    ensures stop ==> SearchResult(net, q, ef, l, allow, entries, visited, kept)
  {
    NearerIsLinear(net, q, open);
    c := FirstOf(open, (a: nat, b: nat) => Nearer(net, q, a, b));
    stop := false;
    if |kept| >= ef {
      FartherIsLinear(net, q, kept);
      var worst := FirstOf(kept, (a: nat, b: nat) => Farther(net, q, a, b));
      stop := Distance(net, q, c) > Distance(net, q, worst);
      if stop {
        WorstIsFarthest(net, q, kept, worst);
        StopIsSound(net, q, ef, l, visited, open, kept, c);
      }
    }
  }

  /** Fewer elements unseen, or as many and fewer open. */
  ghost predicate Shrinks(unseen: set<nat>, open: set<nat>, unseenLater: set<nat>, openLater: set<nat>) {
    unseenLater < unseen || (unseenLater == unseen && openLater < open)
  }

  /** Expands one open element. */
  method Advance(net: Net, q: Vector, ef: nat, l: nat, allow: Filter, ghost m: nat, ghost entries: seq<nat>, c: nat,
                 visited0: set<nat>, open0: set<nat>, kept0: set<nat>)
    returns (visited: set<nat>, open: set<nat>, kept: set<nat>)
    requires HasWorst(ef, kept0) && Wired(net.nodes, m) && c in open0 && Searching(net, q, ef, l, allow, entries, visited0, open0, kept0)
    ensures Searching(net, q, ef, l, allow, entries, visited, open, kept)
    ensures HasWorst(ef, kept) && (|kept| <= ef || |kept| <= |kept0|)
    ensures Shrinks(Upto(|net.nodes|) - visited0, open0, Upto(|net.nodes|) - visited, open)
  {
    var rest := open0 - {c};
    Without(open0, rest, c);
    visited, open, kept := Expand(net, q, ef, l, allow, c, m, entries, visited0, rest, kept0);
    StillSearching(net, q, ef, l, allow, entries, visited0, open0, kept0, c, rest, visited, open, kept);
  }

  lemma Without(open: set<nat>, rest: set<nat>, c: nat)
    requires c in open && rest == open - {c}
    ensures rest + {c} == open
  {
  }

  lemma StillSearching(net: Net, q: Vector, ef: nat, l: nat, allow: Filter, entries: seq<nat>, visited0: set<nat>, open0: set<nat>,
                       kept0: set<nat>, c: nat, rest: set<nat>, visited: set<nat>, open: set<nat>, kept: set<nat>)
    requires Searching(net, q, ef, l, allow, entries, visited0, open0, kept0) && c in open0 && rest == open0 - {c}
    requires Expanding(net, q, ef, l, allow, entries, visited, open, kept) && Enlarged(ef, visited0, rest, kept0, visited, open, kept)
    ensures Searching(net, q, ef, l, allow, entries, visited, open, kept)
    ensures Shrinks(Upto(|net.nodes|) - visited0, open0, Upto(|net.nodes|) - visited, open)
  {
    Progress(net, l, entries, visited0, visited, open0, open, c);
  }

  /** `out` ranks what some search from the entries kept: no more than `ef`, or than there were entries. */
  ghost predicate LayerFound(net: Net, q: Vector, ef: nat, l: nat, allow: Filter, entries: seq<nat>, out: seq<nat>) {
    && (|out| <= ef || |out| <= |entries|)
    && exists visited, kept :: SearchResult(net, q, ef, l, allow, entries, visited, kept) && Ranking(net, q, kept, out)
  }

  /** With no width, some entry must pass the filter, or there is nothing to compare with. */
  ghost predicate Comparable(net: Net, ef: nat, allow: Filter, entries: seq<nat>) {
    0 < ef || entries == [] || exists e :: e in entries && Allows(net, allow, e)
  }

  /** The elements found, nearest first. */
  method SearchLayer(net: Net, q: Vector, entries: seq<nat>, ef: nat, l: nat, allow: Filter, ghost m: nat)
    returns (out: seq<nat>)
    requires Wired(net.nodes, m) && UniqueIds(net.nodes)
    requires Comparable(net, ef, allow, entries)
    requires forall e :: e in entries ==> LivesOn(net.nodes, e, l)
    ensures LayerFound(net, q, ef, l, allow, entries, out)
  {
    var seen, results := Explore(net, q, entries, ef, l, allow, m);
    assert forall r :: r in results ==> Allows(net, allow, r);
    out := Ranked(net, q, results);
    RankingSize(net, q, results, out);
  }

  /** A search under way that can go on, with no more kept than there is room for. */
  ghost predicate Underway(net: Net, q: Vector, ef: nat, l: nat, allow: Filter, entries: seq<nat>,
                           visited: set<nat>, open: set<nat>, kept: set<nat>) {
    && Searching(net, q, ef, l, allow, entries, visited, open, kept)
    && (open == {} || HasWorst(ef, kept)) && (|kept| <= ef || |kept| <= |entries|)
  }

  method Explore(net: Net, q: Vector, entries: seq<nat>, ef: nat, l: nat, allow: Filter, ghost m: nat)
    returns (seen: set<nat>, results: set<nat>)
    requires Wired(net.nodes, m) && Comparable(net, ef, allow, entries)
    requires forall e :: e in entries ==> LivesOn(net.nodes, e, l)
    ensures SearchResult(net, q, ef, l, allow, entries, seen, results)
    ensures |results| <= ef || |results| <= |entries|
  {
    seen, results := Enter(net, entries, l, allow);
    var open := seen;
    StartsSearch(net, q, ef, l, allow, entries, seen, results);
    while open != {}
      invariant Underway(net, q, ef, l, allow, entries, seen, open, results)
      decreases Upto(|net.nodes|) - seen, open
    {
      var c, stop := TakeNearest(net, q, ef, l, allow, entries, seen, open, results);
      if stop {
        break;
      }
      seen, open, results := Advance(net, q, ef, l, allow, m, entries, c, seen, open, results);
    }
  }

  lemma StartsSearch(net: Net, q: Vector, ef: nat, l: nat, allow: Filter, entries: seq<nat>, visited: set<nat>, kept: set<nat>)
    requires Entered(net, l, allow, entries, visited, kept) && Comparable(net, ef, allow, entries)
    ensures Underway(net, q, ef, l, allow, entries, visited, visited, kept)
  {
  }

  lemma Progress(net: Net, l: nat, entries: seq<nat>, was: set<nat>, seen: set<nat>, open: set<nat>, candidates: set<nat>, c: nat)
    requires Seen(net, l, entries, seen) && was <= seen && c in open && candidates - (open - {c}) <= seen - was
    ensures Shrinks(Upto(|net.nodes|) - was, open, Upto(|net.nodes|) - seen, candidates)
  {
    if seen != was {
      var x :| x in seen && x !in was;
      assert x in Upto(|net.nodes|) - was;
    } else {
      forall x | x in candidates ensures x in open - {c} {
        assert x !in seen - was;
      }
    }
  }

  // ----- A width that covers the index

  lemma AllKept(net: Net, kept: set<nat>)
    requires (forall r :: r in kept ==> r < |net.nodes|) && |kept| >= |net.nodes|
    ensures kept == Upto(|net.nodes|)
  {
    UptoSize(|net.nodes|);
    SubsetOfSize(kept, Upto(|net.nodes|));
  }

  lemma {:induction false} UptoSize(n: nat)
    ensures |Upto(n)| == n
  {
    if n > 0 {
      UptoSize(n - 1);
    }
  }

  lemma SubsetOfSize(a: set<nat>, b: set<nat>)
    requires a <= b && |a| >= |b|
    ensures a == b
  {
    assert b == a + (b - a);
    assert |b| == |a| + |b - a|;
  }

  /** With fewer than `ef` kept, everything reachable has been seen. */
  lemma UnfilledSees(net: Net, q: Vector, ef: nat, l: nat, visited: set<nat>, kept: set<nat>, e: nat, n: nat)
    requires Explored(net, q, ef, l, visited, {}, kept) && |kept| < ef && e in visited && Reach(net.nodes, l, e, n)
    ensures n in visited
  {
    forall v | v in visited ensures Expanded(net, l, visited, v) {
    }
    assert ClosedOn(net.nodes, l, visited);
  }

  lemma KeptWasFound(net: Net, q: Vector, ef: nat, l: nat, allow: Filter, entries: seq<nat>, visited: set<nat>, kept: set<nat>, n: nat)
    requires SearchResult(net, q, ef, l, allow, entries, visited, kept) && n in kept
    ensures Allows(net, allow, n) && FromAny(net.nodes, l, entries, n)
  {
  }

  lemma SeenIsKept(net: Net, q: Vector, ef: nat, allow: Filter, visited: set<nat>, kept: set<nat>, n: nat)
    requires KeepsBest(net, q, ef, allow, visited, kept) && |kept| < ef && n in visited && Allows(net, allow, n)
    ensures n in kept
  {
  }

  lemma UnfilledKeeps(net: Net, q: Vector, ef: nat, l: nat, allow: Filter, entries: seq<nat>, visited: set<nat>, kept: set<nat>, n: nat)
    requires SearchResult(net, q, ef, l, allow, entries, visited, kept) && |kept| < ef
    requires Allows(net, allow, n) && FromAny(net.nodes, l, entries, n)
    ensures n in kept
  {
    var e :| e in entries && Reach(net.nodes, l, e, n);
    UnfilledSees(net, q, ef, l, visited, kept, e, n);
    SeenIsKept(net, q, ef, allow, visited, kept, n);
  }

  lemma AllAreKept(net: Net, q: Vector, ef: nat, allow: Filter, visited: set<nat>, kept: set<nat>, n: nat)
    requires KeepsBest(net, q, ef, allow, visited, kept) && |kept| >= |net.nodes| && Allows(net, allow, n)
    ensures n in kept
  {
    AllKept(net, kept);
  }

  /** A search that keeps fewer than `ef`, or could keep everything, keeps exactly the
      allowed elements that can be reached. */
  lemma UnfilledSearchIsExhaustive(net: Net, q: Vector, ef: nat, l: nat, allow: Filter, entries: seq<nat>, visited: set<nat>, kept: set<nat>)
    requires SearchResult(net, q, ef, l, allow, entries, visited, kept) && (|kept| < ef || |net.nodes| <= ef)
    ensures forall n: nat :: n in kept <==> Allows(net, allow, n) && FromAny(net.nodes, l, entries, n)
  {
    forall n: nat ensures n in kept <==> Allows(net, allow, n) && FromAny(net.nodes, l, entries, n) {
      if n in kept {
        KeptWasFound(net, q, ef, l, allow, entries, visited, kept, n);
      } else if Allows(net, allow, n) && FromAny(net.nodes, l, entries, n) {
        if |kept| < ef {
          UnfilledKeeps(net, q, ef, l, allow, entries, visited, kept, n);
        } else {
          AllAreKept(net, q, ef, allow, visited, kept, n);
        }
      }
    }
  }

  /** A search with an allowed entry finds something. */
  lemma SomethingIsKept(net: Net, q: Vector, ef: nat, l: nat, allow: Filter, entries: seq<nat>, visited: set<nat>, kept: set<nat>, e: nat)
    requires SearchResult(net, q, ef, l, allow, entries, visited, kept) && e in entries && Allows(net, allow, e)
    ensures kept != {}
  {
    assert e in visited;
  }

  // ----- What a search depends on

  /** The same elements with the same links on layer `l`. */
  ghost predicate SameLayer(a: Net, b: Net, l: nat) {
    a.sim == b.sim && SameTowers(a.nodes, b.nodes) && forall k :: NeighboursAt(a.nodes, k, l) == NeighboursAt(b.nodes, k, l)
  }

  lemma SameReach(a: Net, b: Net, l: nat, x: nat, y: nat)
    requires SameLayer(a, b, l) && Reach(a.nodes, l, x, y)
    ensures Reach(b.nodes, l, x, y)
  {
    forall s: set<nat> | x in s && ClosedOn(b.nodes, l, s) ensures y in s {
      assert ClosedOn(a.nodes, l, s);
    }
  }

  lemma SameDistances(a: Net, b: Net, q: Vector)
    requires a.sim == b.sim && SameTowers(a.nodes, b.nodes)
    ensures forall n :: Distance(a, q, n) == Distance(b, q, n)
    ensures forall m, n :: RanksBefore(a, q, m, n) <==> RanksBefore(b, q, m, n)
    ensures forall allow, n :: Allows(a, allow, n) <==> Allows(b, allow, n)
  {
  }

  lemma SameRanking(a: Net, b: Net, q: Vector, pool: set<nat>, s: seq<nat>)
    requires a.sim == b.sim && SameTowers(a.nodes, b.nodes) && Ranking(a, q, pool, s)
    ensures Ranking(b, q, pool, s)
  {
    SameDistances(a, b, q);
  }

  lemma SameSeen(a: Net, b: Net, l: nat, entries: seq<nat>, visited: set<nat>)
    requires SameLayer(a, b, l) && Seen(a, l, entries, visited)
    ensures Seen(b, l, entries, visited)
  {
    forall v | v in visited ensures LivesOn(b.nodes, v, l) && FromAny(b.nodes, l, entries, v) {
      var e :| e in entries && Reach(a.nodes, l, e, v);
      SameReach(a, b, l, e, v);
    }
  }

  lemma SameBeyond(a: Net, b: Net, q: Vector, ef: nat, kept: set<nat>)
    requires a.sim == b.sim && SameTowers(a.nodes, b.nodes)
    ensures forall v :: Beyond(a, q, ef, kept, v) <==> Beyond(b, q, ef, kept, v)
  {
    SameDistances(a, b, q);
  }

  lemma SameKeeps(a: Net, b: Net, q: Vector, ef: nat, allow: Filter, visited: set<nat>, kept: set<nat>)
    requires a.sim == b.sim && SameTowers(a.nodes, b.nodes) && KeepsBest(a, q, ef, allow, visited, kept)
    ensures KeepsBest(b, q, ef, allow, visited, kept)
  {
    SameDistances(a, b, q);
    SameBeyond(a, b, q, ef, kept);
  }

  lemma SameExplored(a: Net, b: Net, q: Vector, ef: nat, l: nat, visited: set<nat>, kept: set<nat>)
    requires SameLayer(a, b, l) && Explored(a, q, ef, l, visited, {}, kept)
    ensures Explored(b, q, ef, l, visited, {}, kept)
  {
    SameBeyond(a, b, q, ef, kept);
    assert forall v :: Expanded(a, l, visited, v) ==> Expanded(b, l, visited, v);
  }

  /** A search on a layer depends on that layer's links only. */
  lemma SameFound(a: Net, b: Net, q: Vector, ef: nat, l: nat, allow: Filter, entries: seq<nat>, out: seq<nat>)
    requires SameLayer(a, b, l) && LayerFound(a, q, ef, l, allow, entries, out)
    ensures LayerFound(b, q, ef, l, allow, entries, out)
  {
    var visited, kept :| SearchResult(a, q, ef, l, allow, entries, visited, kept) && Ranking(a, q, kept, out);
    SameSeen(a, b, l, entries, visited);
    SameKeeps(a, b, q, ef, allow, visited, kept);
    SameExplored(a, b, q, ef, l, visited, kept);
    SameRanking(a, b, q, kept, out);
    assert SearchResult(b, q, ef, l, allow, entries, visited, kept);
  }
}
