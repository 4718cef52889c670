// An index that loses a link, and with it an element.

module HnswLimits {
  // Six pages, all on the bottom layer: a hub, four pages that share one term with it
  // and nothing else with each other, and a sixth that shares a little with the hub.

  import opened Sequences
  import opened HnswNets
  import opened HnswSearches
  import opened HnswInserts
  import opened HnswIndexes

  /** The dot product, which for unit vectors is the cosine. */
  function Dot(a: Vector, b: Vector, n: nat): real
    requires n <= |a| && n <= |b|
  {
    if n == 0 then 0.0 else Dot(a, b, n - 1) + a[n - 1] * b[n - 1]
  }

  const COSINE: (Vector, Vector) -> real := (a: Vector, b: Vector) => if |a| == |b| then Dot(a, b, |a|) else 0.0

  const LAST: nat := 5

  /** Unit vectors: page `i` has a share of the hub's term and the rest in a term of its own. */
  function Page(i: nat): Vector {
    if i == 0 then [1.0, 0.0, 0.0, 0.0, 0.0, 0.0]
    else if i == 1 then [0.6, 0.8, 0.0, 0.0, 0.0, 0.0]
    else if i == 2 then [0.6, 0.0, 0.8, 0.0, 0.0, 0.0]
    else if i == 3 then [0.6, 0.0, 0.0, 0.8, 0.0, 0.0]
    else if i == 4 then [0.6, 0.0, 0.0, 0.0, 0.8, 0.0]
    else [0.28, 0.0, 0.0, 0.0, 0.0, 0.96]
  }

  function Share(i: nat): real {
    if i == 0 then 1.0 else if i < LAST then 0.6 else 0.28
  }

  lemma SixTerms(a: Vector, b: Vector)
    requires |a| == |b| == 6
    ensures COSINE(a, b) == a[0] * b[0] + a[1] * b[1] + a[2] * b[2] + a[3] * b[3] + a[4] * b[4] + a[5] * b[5]
  {
    assert Dot(a, b, 0) == 0.0;
    assert Dot(a, b, 1) == a[0] * b[0];
    assert Dot(a, b, 2) == a[0] * b[0] + a[1] * b[1];
    assert Dot(a, b, 3) == a[0] * b[0] + a[1] * b[1] + a[2] * b[2];
    assert Dot(a, b, 4) == a[0] * b[0] + a[1] * b[1] + a[2] * b[2] + a[3] * b[3];
    assert Dot(a, b, 5) == a[0] * b[0] + a[1] * b[1] + a[2] * b[2] + a[3] * b[3] + a[4] * b[4];
  }

  /** Different pages are as similar as their shares of the one common term. */
  lemma PagesCompare(i: nat, j: nat)
    requires i <= LAST && j <= LAST && i != j
    ensures COSINE(Page(i), Page(j)) == Share(i) * Share(j)
  {
    SixTerms(Page(i), Page(j));
  }

  lemma PagesAreUnit(i: nat)
    requires i <= LAST
    ensures COSINE(Page(i), Page(i)) == 1.0
  {
    SixTerms(Page(i), Page(i));
  }

  // ----- The hub and the pages around it

  /** The pages 1 to `i - 1`. */
  function Around(i: nat): seq<nat>
    requires 0 < i
  {
    seq(i - 1, k => k + 1)
  }

  function Star(i: nat): Net
    requires 0 < i
  {
    Net(seq(i, j requires 0 <= j < i => Node(j, Page(j), [if j == 0 then Around(i) else [0]])), COSINE)
  }

  /** The star with the page `i` added and not yet linked. */
  function Bare(i: nat): Net
    requires 0 < i
  {
    Widened(Star(i), i, Page(i), 0)
  }

  lemma BareIs(i: nat, j: nat)
    requires 0 < i <= LAST && j <= i
    ensures |Bare(i).nodes| == i + 1
    ensures Bare(i).nodes[j] == if j == i then Node(i, Page(i), [[]]) else Star(i).nodes[j]
  {
    var tower: seq<seq<nat>> := seq(1, l => []);
    assert tower == [[]];
  }

  lemma BareLinks(i: nat)
    requires 0 < i <= LAST
    ensures var net := Bare(i);
      && |net.nodes| == i + 1 && NeighboursAt(net.nodes, 0, 0) == Around(i) && NeighboursAt(net.nodes, i, 0) == []
      && (forall j :: 0 <= j <= i ==> net.nodes[j].id == j && net.nodes[j].vec == Page(j) && |net.nodes[j].neighbours| == 1)
      && (forall j :: 0 < j < i ==> NeighboursAt(net.nodes, j, 0) == [0])
  {
    BareIs(i, 0);
    BareIs(i, i);
    forall j | 0 <= j <= i
      ensures Bare(i).nodes[j].id == j && Bare(i).nodes[j].vec == Page(j) && |Bare(i).nodes[j].neighbours| == 1
      ensures 0 < j < i ==> NeighboursAt(Bare(i).nodes, j, 0) == [0]
    {
      BareIs(i, j);
    }
  }

  lemma BareIsClosed(i: nat)
    requires 0 < i <= LAST
    ensures ClosedOn(Bare(i).nodes, 0, Upto(i))
  {
    BareLinks(i);
    forall a, b | a in Upto(i) && b in NeighboursAt(Bare(i).nodes, a, 0) ensures b in Upto(i) {
      InUpto(a, i);
      InUpto(b, i);
      if a == 0 {
        var k :| 0 <= k < i - 1 && Around(i)[k] == b;
      }
    }
  }

  /** From page `i` the hub is nearer than every page around it. */
  lemma HubIsNearest(i: nat, j: nat)
    requires 0 < j < i <= LAST
    ensures Distance(Bare(i), Page(i), 0) < Distance(Bare(i), Page(i), j)
  {
    BareLinks(i);
    PagesCompare(i, 0);
    PagesCompare(i, j);
  }

  lemma KeptInPool(net: Net, l: nat, cur: nat, visited: set<nat>, pool: set<nat>)
    requires Seen(net, l, [cur], visited) && cur in pool && ClosedOn(net.nodes, l, pool)
    ensures visited <= pool
  {
    forall n | n in visited ensures n in pool {
      var e :| e in [cur] && Reach(net.nodes, l, e, n);
    }
  }

  /** A search of width 1 keeps its start when nothing it can see is as near. */
  lemma KeepsStart(net: Net, v: Vector, l: nat, cur: nat, pool: set<nat>, out: seq<nat>)
    requires LayerFound(net, v, 1, l, EVERYONE, [cur], out) && out != []
    requires cur < |net.nodes| && cur in pool && ClosedOn(net.nodes, l, pool)
    requires forall n :: n in pool && n != cur ==> Distance(net, v, cur) < Distance(net, v, n)
    ensures out == [cur]
  {
    var visited, kept :| SearchResult(net, v, 1, l, EVERYONE, [cur], visited, kept) && Ranking(net, v, kept, out);
    KeptInPool(net, l, cur, visited, pool);
    assert out[0] in kept && cur in [cur];
    RankingSize(net, v, kept, out);
    OneOf(kept, out[0]);
  }

  lemma OneOf(s: set<nat>, x: nat)
    requires x in s && |s| == 1
    ensures s == {x}
  {
    assert s == {x} + (s - {x});
    assert |s| == 1 + |s - {x}|;
  }

  /** A search of width 1 from the hub stops at the hub. */
  lemma FindsHub(i: nat, out: seq<nat>)
    requires 0 < i <= LAST && LayerFound(Bare(i), Page(i), 1, 0, EVERYONE, [0], out) && out != []
    ensures out == [0]
  {
    BareLinks(i);
    forall n | n in Upto(i) && n != 0 ensures Distance(Bare(i), Page(i), 0) < Distance(Bare(i), Page(i), n) {
      InUpto(n, i);
      HubIsNearest(i, n);
    }
    InUpto(0, i);
    BareIsClosed(i);
    KeepsStart(Bare(i), Page(i), 0, 0, Upto(i), out);
  }

  lemma {:induction false} InUpto(x: nat, n: nat)
    ensures x in Upto(n) <==> x < n
  {
    if n > 0 {
      InUpto(x, n - 1);
    }
  }

  lemma SelectsFirst(net: Net, q: Vector, candidates: seq<nat>, m: nat, out: seq<nat>, sorted: seq<nat>)
    requires Selected(net, q, candidates, m, out) && Ranking(net, q, Elems(candidates), sorted)
    ensures out == Filled(Spread(net, q, sorted, m), sorted, m)
  {
    var s :| Ranking(net, q, Elems(candidates), s) && out == Filled(Spread(net, q, s, m), s, m);
    RankingIsUnique(net, q, Elems(candidates), s, sorted);
  }

  lemma HubSelected(i: nat, selected: seq<nat>)
    requires 0 < i <= LAST && Selected(Bare(i), Page(i), [0], Cap(2, 0), selected)
    ensures selected == [0]
  {
    var net, v := Bare(i), Page(i);
    assert Elems([0]) == {0} && Ranking(net, v, {0}, [0]);
    SelectsFirst(net, v, [0], Cap(2, 0), selected, [0]);
    assert Spread(net, v, [0], Cap(2, 0)) == [] + [0];
  }

  lemma HubJoined(i: nat, after: seq<Node>, starts: seq<nat>)
    requires 0 < i <= LAST && Inserted(Star(i), 0, 0, 2, 1, i, Page(i), 0, after, starts)
    ensures SameTowers(Bare(i).nodes, after) && Connected(Bare(i), after, 2, i, 0, [0])
  {
    var candidates := JoinedLayer(Bare(i), after, 2, 1, Page(i), i, 0, starts, 0);
    FindsHub(i, candidates);
    HubSelected(i, NeighboursAt(after, i, 0));
  }

  lemma StarGrows(i: nat, after: seq<Node>, starts: seq<nat>)
    requires 0 < i < LAST && Inserted(Star(i), 0, 0, 2, 1, i, Page(i), 0, after, starts)
    ensures after == Star(i + 1).nodes
  {
    HubJoined(i, after, starts);
    BareLinks(i);
    assert 0 in [0];
    assert LinkedBack(Bare(i), 2, 0, i, 0, NeighboursAt(after, 0, 0));
    assert Around(i) + [i] == Around(i + 1);
    forall j | 0 <= j <= i ensures after[j] == Star(i + 1).nodes[j] {
      assert after[j].neighbours == [NeighboursAt(after, j, 0)];
    }
  }

  // ----- The sixth page

  lemma RanksChain(net: Net, q: Vector, s: seq<nat>, i: nat, j: nat)
    requires i < j < |s| && forall k :: 0 <= k < |s| - 1 ==> RanksBefore(net, q, s[k], s[k + 1])
    ensures RanksBefore(net, q, s[i], s[j])
    decreases j
  {
    if i + 1 < j {
      RanksChain(net, q, s, i, j - 1);
      assert RanksBefore(net, q, s[j - 1], s[j - 1 + 1]);
    } else {
      assert RanksBefore(net, q, s[i], s[i + 1]);
    }
  }

  lemma HubRanks(k: nat)
    requires 0 < k < LAST
    ensures RanksBefore(Bare(5), Page(0), k, k + 1)
  {
    BareLinks(5);
    PagesCompare(0, k);
    PagesCompare(0, k + 1);
  }

  /** From the hub the sixth page ranks last. */
  lemma SixthRanksLast()
    ensures Ranking(Bare(5), Page(0), {1, 2, 3, 4, 5}, [1, 2, 3, 4, 5])
  {
    var s := [1, 2, 3, 4, 5];
    forall k | 0 <= k < |s| - 1 ensures RanksBefore(Bare(5), Page(0), s[k], s[k + 1]) {
      HubRanks(k + 1);
    }
    forall i, j | 0 <= i < j < |s| ensures RanksBefore(Bare(5), Page(0), s[i], s[j]) {
      RanksChain(Bare(5), Page(0), s, i, j);
    }
  }

  /** The pages around the hub each go in a direction of their own. */
  lemma AroundIsDiverse(j: nat, chosen: seq<nat>)
    requires 0 < j < LAST && forall k :: 0 <= k < |chosen| ==> 0 < chosen[k] < j
    ensures InNewDirection(Bare(5), Page(0), chosen, j)
  {
    var net := Bare(5);
    BareLinks(5);
    PagesCompare(0, j);
    forall k | 0 <= k < |chosen| ensures Distance(net, net.nodes[j].vec, chosen[k]) >= Distance(net, Page(0), j) {
      PagesCompare(j, chosen[k]);
    }
  }

  lemma SpreadSnoc(net: Net, q: Vector, s: seq<nat>, n: nat, m: nat)
    ensures var chosen := Spread(net, q, s, m);
      Spread(net, q, s + [n], m) == if |chosen| < m && InNewDirection(net, q, chosen, n) then chosen + [n] else chosen
  {
    assert (s + [n])[..|s|] == s;
  }

  /** Elements that each go in a new direction are all chosen. */
  lemma {:induction false} AllSpread(net: Net, q: Vector, s: seq<nat>, m: nat)
    requires |s| <= m && forall i :: 0 <= i < |s| ==> InNewDirection(net, q, s[..i], s[i])
    ensures Spread(net, q, s, m) == s
  {
    if s != [] {
      var n := |s| - 1;
      forall i | 0 <= i < n ensures InNewDirection(net, q, s[..n][..i], s[..n][i]) {
        assert s[..n][..i] == s[..i];
      }
      AllSpread(net, q, s[..n], m);
    }
  }

  lemma SpreadIsAround(all: seq<nat>)
    requires all == [1, 2, 3, 4, 5]
    ensures Spread(Bare(5), Page(0), all, 4) == [1, 2, 3, 4]
  {
    var s := all[..4];
    forall i | 0 <= i < 4 ensures InNewDirection(Bare(5), Page(0), s[..i], s[i]) {
      AroundIsDiverse(i + 1, s[..i]);
    }
    AllSpread(Bare(5), Page(0), s, 4);
    SpreadSnoc(Bare(5), Page(0), s, 5, 4);
    assert all == s + [5];
  }

  lemma PrunedToFour(net: Net, q: Vector, list: seq<nat>)
    requires Selected(net, q, [1, 2, 3, 4, 5], 4, list) && Ranking(net, q, {1, 2, 3, 4, 5}, [1, 2, 3, 4, 5])
    requires Spread(net, q, [1, 2, 3, 4, 5], 4) == [1, 2, 3, 4]
    ensures list == [1, 2, 3, 4]
  {
    assert Elems([1, 2, 3, 4, 5]) == {1, 2, 3, 4, 5};
    SelectsFirst(net, q, [1, 2, 3, 4, 5], 4, list, [1, 2, 3, 4, 5]);
    FullStays([1, 2, 3, 4], [1, 2, 3, 4, 5], 4);
  }

  /** The hub's list is full, and its pruning drops the sixth page. */
  lemma HubDropsSixth(list: seq<nat>)
    requires LinkedBack(Bare(5), 2, 0, 5, 0, list)
    ensures list == [1, 2, 3, 4]
  {
    BareLinks(5);
    assert Around(5) + [5] == [1, 2, 3, 4, 5];
    SixthRanksLast();
    SpreadIsAround([1, 2, 3, 4, 5]);
    PrunedToFour(Bare(5), Page(0), list);
  }

  lemma {:induction false} FullStays(chosen: seq<nat>, s: seq<nat>, m: nat)
    requires |chosen| == m
    ensures Filled(chosen, s, m) == chosen
  {
    if s != [] {
      FullStays(chosen, s[..|s| - 1], m);
    }
  }

  /** The sixth page links to the hub, and no page links to it. */
  lemma SixthIsCutOff(after: seq<Node>, starts: seq<nat>)
    requires Inserted(Star(5), 0, 0, 2, 1, 5, Page(5), 0, after, starts)
    ensures |after| == 6 && NeighboursAt(after, 5, 0) == [0] && NeighboursAt(after, 0, 0) == [1, 2, 3, 4]
    ensures !Reach(after, 0, 0, 5) && forall n :: 0 <= n < 6 ==> after[n].id == n
  {
    HubJoined(5, after, starts);
    BareLinks(5);
    assert 0 in [0];
    HubDropsSixth(NeighboursAt(after, 0, 0));
    FiveAreClosed(after);
  }

  lemma FiveAreClosed(after: seq<Node>)
    requires |after| == 6 && NeighboursAt(after, 0, 0) == [1, 2, 3, 4]
    requires forall j :: 0 < j < 5 ==> NeighboursAt(after, j, 0) == [0]
    ensures ClosedOn(after, 0, Upto(5)) && !Reach(after, 0, 0, 5)
  {
    assert forall x: nat :: x in Upto(5) <==> x < 5;
    assert ClosedOn(after, 0, Upto(5));
  }

  // ----- The run

  /** Two neighbours a page, twice that on the bottom layer, construction of width 1. */
  ghost predicate Holds(index: Index, i: nat)
    requires 0 < i
    reads index
  {
    && index.Valid() && index.m == 2 && index.efConstruction == 1 && index.AsNet() == Star(i)
    && index.entry == 0 && index.maxLay == 0 && forall id :: id in index.byId <==> 0 <= id < i
  }

  lemma HubAlone()
    ensures Widened(Net([], COSINE), 0, Page(0), 0) == Star(1)
  {
    var none: seq<nat> := [];
    var tower: seq<seq<nat>> := seq(1, l => []);
    assert Around(1) == none && tower == [none];
  }

  method AddHub() returns (index: Index)
    ensures fresh(index) && Holds(index, 1)
  {
    index := new Index(2, 1, COSINE);
    ghost var starts := index.Add(0, Page(0), 0);
    HubAlone();
  }

  method AddAround(index: Index, i: nat)
    requires 0 < i < LAST && Holds(index, i)
    modifies index
    ensures Holds(index, i + 1)
  {
    ghost var starts := index.Add(i, Page(i), 0);
    StarGrows(i, index.nodes, starts);
  }

  /** After six insertions the sixth page links to the hub, the hub does not link back,
      and no search from the entry can reach the sixth page. */
  method WayBackDropped() returns (index: Index)
    ensures index.Valid() && |index.nodes| == 6 && index.entry == 0 && index.maxLay == 0
    ensures 0 in NeighboursAt(index.nodes, 5, 0) && 5 !in NeighboursAt(index.nodes, 0, 0)
    ensures !Reach(index.nodes, 0, 0, 5) && forall n :: 0 <= n < 6 ==> index.nodes[n].id == n
  {
    index := AddHub();
    var i: nat := 1;
    while i < LAST
      invariant 0 < i <= LAST && Holds(index, i) && fresh(index)
    {
      AddAround(index, i);
      i := i + 1;
    }
    ghost var starts := index.Add(5, Page(5), 0);
    SixthIsCutOff(index.nodes, starts);
  }

  lemma SixthIsNotCounted(net: Net, allow: Filter)
    requires |net.nodes| == 6 && !Reach(net.nodes, 0, 0, 5) && forall n :: 0 <= n < 6 ==> allow(net.nodes[n].id)
    ensures |AllowedSet(net, allow)| == 6 && |ReachedSet(net, allow, 0)| < 6
  {
    assert AllowedSet(net, allow) == Upto(6);
    UptoSize(6);
    UptoSize(5);
    forall n | n in ReachedSet(net, allow, 0) ensures n in Upto(5) {
      assert Upto(6) == Upto(5) + {5} && n in Upto(6);
    }
    SubsetSize(ReachedSet(net, allow, 0), Upto(5));
  }

  lemma FewerFound(net: Net, q: Vector, allow: Filter, out: seq<Result>)
    requires |net.nodes| == 6 && !Reach(net.nodes, 0, 0, 5) && forall n :: 0 <= n < 6 ==> allow(net.nodes[n].id)
    requires AnswersFrom(net, q, allow, 6, 6, 0, out)
    ensures |AllowedSet(net, allow)| == 6 && |out| < 6
  {
    SixthIsNotCounted(net, allow);
    FullAnswerExactly(net, q, allow, 6, 6, 0, out);
    AnswerIsCut(net, q, allow, 6, 6, 0, out);
  }

  lemma EntryIsStart(index: Index, q: Vector)
    requires index.Valid() && index.nodes != [] && index.entry == 0 && index.maxLay == 0
    ensures index.QueryStart(q) == 0
  {
  }

  /** Asked for six of six pages, the search returns fewer. */
  method FewerThanAsked() returns (index: Index, out: seq<Result>)
    ensures index.Valid() && |AllowedSet(index.AsNet(), Passing(6, EVERYONE))| == 6 && |out| < 6
  {
    index := WayBackDropped();
    var q := Page(5);
    EntryIsStart(index, q);
    out := index.Search(q, 6, 6, 6, EVERYONE);
    FewerFound(index.AsNet(), q, Passing(6, EVERYONE), out);
  }
}
