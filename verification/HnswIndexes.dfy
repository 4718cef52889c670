// Adding and answering.

module HnswIndexes {
  import opened Sequences
  import opened HnswNets
  import opened HnswSearches
  import opened HnswInserts

  datatype Result = Result(id: Id, similarity: real)

  ghost predicate RankedAs(net: Net, q: Vector, allow: Filter, found: seq<nat>) {
    && (forall n :: n in found ==> Allows(net, allow, n))
    && (forall i, j :: 0 <= i < j < |found| ==> RanksBefore(net, q, found[i], found[j]))
  }

  function ResultAt(net: Net, q: Vector, n: nat): Result {
    if n < |net.nodes| then Result(net.nodes[n].id, net.sim(q, net.nodes[n].vec)) else Result(0, 0.0)
  }

  function ResultsOf(net: Net, q: Vector, found: seq<nat>): (r: seq<Result>) {
    if found == [] then []
    else ResultsOf(net, q, found[..|found| - 1]) + [ResultAt(net, q, found[|found| - 1])]
  }

  function Cut(s: seq<nat>, k: nat): seq<nat> {
    if |s| > k then s[..k] else s
  }

  /** The first `k` results. */
  function Firsts(net: Net, q: Vector, found: seq<nat>, k: nat): seq<Result> {
    ResultsOf(net, q, Cut(found, k))
  }

  // ----- Answers, by what they hold

  /** More similar, or as similar with the smaller id. */
  predicate Better(a: Result, b: Result) {
    a.similarity > b.similarity || (a.similarity == b.similarity && a.id < b.id)
  }

  /** Element `n` is not the excluded one, and passes. */
  ghost predicate Wanted(net: Net, exclude: Id, allow: Filter, n: nat) {
    n < |net.nodes| && net.nodes[n].id != exclude && allow(net.nodes[n].id)
  }

  /** No more than `k` results, each of a wanted element with its similarity, the better ones first. */
  ghost predicate Answers(net: Net, q: Vector, k: nat, exclude: Id, allow: Filter, out: seq<Result>) {
    && |out| <= k
    && (forall r :: r in out ==> r.id != exclude && allow(r.id))
    && (forall r :: r in out ==> exists n: nat :: Wanted(net, exclude, allow, n) && r == Result(net.nodes[n].id, net.sim(q, net.nodes[n].vec)))
    && (forall i, j :: 0 <= i < j < |out| ==> Better(out[i], out[j]))
  }

  /** Every wanted element has its result, unless there are `k` better ones and more
      elements than that. */
  ghost predicate Complete(net: Net, q: Vector, k: nat, exclude: Id, allow: Filter, out: seq<Result>) {
    forall n: nat :: Wanted(net, exclude, allow, n) ==>
      var r := Result(net.nodes[n].id, net.sim(q, net.nodes[n].vec));
      r in out || (|out| == k < |net.nodes| && forall b :: b in out ==> Better(b, r))
  }

  lemma WantedIsAllowed(net: Net, exclude: Id, allow: Filter, n: nat)
    ensures Wanted(net, exclude, allow, n) <==> Allows(net, Passing(exclude, allow), n)
  {
  }

  lemma RankedAnswer(net: Net, q: Vector, k: nat, exclude: Id, allow: Filter, found: seq<nat>)
    requires RankedAs(net, q, Passing(exclude, allow), found)
    ensures Answers(net, q, k, exclude, allow, Firsts(net, q, found, k))
  {
    var s, out := Cut(found, k), Firsts(net, q, found, k);
    ResultsLength(net, q, s);
    forall r | r in out
      ensures r.id != exclude && allow(r.id)
      ensures exists n: nat :: Wanted(net, exclude, allow, n) && r == Result(net.nodes[n].id, net.sim(q, net.nodes[n].vec))
    {
      var i :| 0 <= i < |out| && out[i] == r;
      assert s[i] == found[i] && found[i] in found;
      WantedIsAllowed(net, exclude, allow, s[i]);
    }
    forall i, j | 0 <= i < j < |out| ensures Better(out[i], out[j]) {
      assert RanksBefore(net, q, found[i], found[j]) && found[i] in found && found[j] in found;
    }
  }

  lemma FoundFits(net: Net, q: Vector, allow: Filter, found: seq<nat>)
    requires RankedAs(net, q, allow, found)
    ensures |found| <= |net.nodes|
  {
    forall i, j | 0 <= i < j < |found| ensures found[i] != found[j] {
      assert RanksBefore(net, q, found[i], found[j]);
    }
    SizeOfElems(found);
    UptoSize(|net.nodes|);
    SubsetSize(Elems(found), Upto(|net.nodes|));
  }

  lemma AllRankedIsComplete(net: Net, q: Vector, k: nat, exclude: Id, allow: Filter, found: seq<nat>)
    requires RanksAll(net, q, Passing(exclude, allow), found)
    ensures Complete(net, q, k, exclude, allow, Firsts(net, q, found, k))
  {
    var s, out := Cut(found, k), Firsts(net, q, found, k);
    ResultsLength(net, q, s);
    FoundFits(net, q, Passing(exclude, allow), found);
    forall n: nat | Wanted(net, exclude, allow, n)
      ensures var r := Result(net.nodes[n].id, net.sim(q, net.nodes[n].vec));
        r in out || (|out| == k < |net.nodes| && forall b :: b in out ==> Better(b, r))
    {
      WantedIsAllowed(net, exclude, allow, n);
      var j :| 0 <= j < |found| && found[j] == n;
      if j < |s| {
        assert out[j] == ResultAt(net, q, n);
      } else {
        forall b | b in out ensures Better(b, ResultAt(net, q, n)) {
          var i :| 0 <= i < |out| && out[i] == b;
          assert s[i] == found[i] && RanksBefore(net, q, found[i], found[j]) && found[i] in found;
        }
      }
    }
  }

  class Index {
    const m: nat
    const efConstruction: nat
    const sim: (Vector, Vector) -> real
    var nodes: seq<Node>
    var byId: map<Id, nat>
    var entry: int
    var maxLay: nat

    function AsNet(): Net
      reads this
    {
      Net(nodes, sim)
    }

    /** Every id once. */
    ghost predicate Indexed()
      reads this
    {
      && (forall n: nat :: n < |nodes| ==> nodes[n].id in byId && byId[nodes[n].id] == n)
      && (forall id :: id in byId ==> byId[id] < |nodes| && nodes[byId[id]].id == id)
    }

    /** Links are sound on every layer, and the entry is an element of the top layer. */
    ghost predicate Valid()
      reads this
    {
      && Indexed() && Wired(nodes, m)
      && (forall n :: 0 <= n < |nodes| ==> 0 < |nodes[n].neighbours| <= maxLay + 1)
      && (if nodes == [] then entry == -1 else 0 <= entry < |nodes| && |nodes[entry].neighbours| == maxLay + 1)
    }

    lemma IdsAreUnique()
      requires Indexed()
      ensures UniqueIds(nodes)
    {
    }

    constructor (m: nat, efConstruction: nat, sim: (Vector, Vector) -> real)
      ensures Valid() && nodes == [] && byId == map[] && this.m == m && this.efConstruction == efConstruction && this.sim == sim
    {
      this.m, this.efConstruction, this.sim := m, efConstruction, sim;
      nodes, byId, entry, maxLay := [], map[], -1, 0;
    }

    /** Links `s` back to the new element, dropping neighbours over the cap. */
    method LinkBack(s: nat, idx: nat, l: nat)
      requires Wired(nodes, m) && UniqueIds(nodes) && LivesOn(nodes, s, l) && LivesOn(nodes, idx, l)
      requires s != idx && idx !in NeighboursAt(nodes, s, l)
      modifies this`nodes
      ensures Wired(nodes, m) && SameOff(old(nodes), nodes, l)
      ensures LinkedBack(old(AsNet()), m, s, idx, l, NeighboursAt(nodes, s, l))
      ensures forall k :: k != s ==> NeighboursAt(nodes, k, l) == NeighboursAt(old(nodes), k, l)
    {
      var list := NeighboursAt(nodes, s, l) + [idx];
      assert GoodList(nodes, s, l, NeighboursAt(nodes, s, l), m);
      if |list| > Cap(m, l) {
        var full := list;
        list := SelectNeighbours(AsNet(), nodes[s].vec, full, Cap(m, l));
        SelectedNeighbours(AsNet(), nodes[s].vec, full, Cap(m, l), list);
      }
      WithGoodList(nodes, s, l, list, m);
      WithListChanges(nodes, s, l, list);
      nodes := WithList(nodes, s, l, list);
    }

    /** Links the new element to the selected ones on a layer, both ways. */
    method Connect(idx: nat, l: nat, selected: seq<nat>)
      requires Joining(nodes, m, idx, l) && LivesOn(nodes, idx, l) && GoodList(nodes, idx, l, selected, m)
      modifies this`nodes
      ensures Joining(nodes, m, idx, l - 1) && SameOff(old(nodes), nodes, l)
      ensures Connected(old(AsNet()), nodes, m, idx, l, selected)
    {
      ghost var was := AsNet();
      WithGoodList(nodes, idx, l, selected, m);
      WithListChanges(nodes, idx, l, selected);
      nodes := WithList(nodes, idx, l, selected);
      assert Unlinked(was.nodes, idx, l);
      var i := 0;
      while i < |selected|
        invariant 0 <= i <= |selected| && Wired(nodes, m) && SameOff(was.nodes, nodes, l)
        invariant NeighboursAt(nodes, idx, l) == selected
        invariant forall k :: 0 <= k < i ==> LinkedBack(was, m, selected[k], idx, l, NeighboursAt(nodes, selected[k], l))
        invariant forall k :: k != idx && k !in selected[..i] ==> NeighboursAt(nodes, k, l) == NeighboursAt(was.nodes, k, l)
      {
        LinkOneBack(was, idx, l, selected, i);
        i := i + 1;
      }
      assert selected[..i] == selected;
      LowerLayersKept(was.nodes, nodes, m, idx, l);
    }

    method LinkOneBack(ghost was: Net, idx: nat, l: nat, selected: seq<nat>, i: nat)
      requires Wired(nodes, m) && UniqueIds(was.nodes) && was.sim == sim && SameOff(was.nodes, nodes, l)
      requires GoodList(nodes, idx, l, selected, m) && i < |selected| && LivesOn(nodes, idx, l)
      requires NeighboursAt(nodes, idx, l) == selected && Unlinked(was.nodes, idx, l)
      requires forall k :: 0 <= k < i ==> LinkedBack(was, m, selected[k], idx, l, NeighboursAt(nodes, selected[k], l))
      requires forall k :: k != idx && k !in selected[..i] ==> NeighboursAt(nodes, k, l) == NeighboursAt(was.nodes, k, l)
      modifies this`nodes
      ensures Wired(nodes, m) && SameOff(was.nodes, nodes, l)
      ensures NeighboursAt(nodes, idx, l) == selected
      ensures forall k :: 0 <= k <= i ==> LinkedBack(was, m, selected[k], idx, l, NeighboursAt(nodes, selected[k], l))
      ensures forall k :: k != idx && k !in selected[..i + 1] ==> NeighboursAt(nodes, k, l) == NeighboursAt(was.nodes, k, l)
    {
      var s := selected[i];
      ghost var now := AsNet();
      SameTowersKeep(was.nodes, nodes);
      assert s in selected;
      assert selected[..i + 1] == selected[..i] + [s];
      assert s !in selected[..i];
      LinkBack(s, idx, l);
      LinkedBackSame(now, was, m, s, idx, l, NeighboursAt(nodes, s, l));
    }

    /** Puts the new element on one layer; returns where to go on from one layer down. */
    method JoinLayer(v: Vector, cur: nat, idx: nat, l: nat) returns (next: nat)
      requires Joining(nodes, m, idx, l) && LivesOn(nodes, idx, l) && LivesOn(nodes, cur, l) && cur != idx
      modifies this`nodes
      ensures Joining(nodes, m, idx, l - 1) && SameOff(old(nodes), nodes, l)
      ensures Joined(old(AsNet()), nodes, m, efConstruction, v, idx, l, cur, next)
      ensures LivesOn(nodes, next, l) && next != idx
    {
      ghost var was := AsNet();
      var candidates, selected := Choose(v, cur, idx, l);
      next := cur;
      if |candidates| > 0 {
        next := candidates[0];
      }
      Connect(idx, l, selected);
      SameTowersKeep(was.nodes, nodes);
      assert JoinedBy(was, nodes, m, efConstruction, v, idx, l, cur, candidates, selected);
    }

    /** What a search of the layer finds, and which of that the new element links to. */
    method Choose(v: Vector, cur: nat, idx: nat, l: nat) returns (candidates: seq<nat>, selected: seq<nat>)
      requires Joining(nodes, m, idx, l) && LivesOn(nodes, cur, l) && cur != idx
      ensures LayerFound(AsNet(), v, efConstruction, l, EVERYONE, [cur], candidates) && candidates != []
      ensures Selected(AsNet(), v, candidates, Cap(m, l), selected) && GoodList(nodes, idx, l, selected, m)
      ensures LivesOn(nodes, candidates[0], l) && candidates[0] != idx
    {
      StartIsComparable(AsNet(), efConstruction, cur);
      candidates := SearchLayer(AsNet(), v, [cur], efConstruction, l, EVERYONE, m);
      assert Unlinked(nodes, idx, l);
      FoundElsewhere(AsNet(), v, efConstruction, l, EVERYONE, cur, idx, m, candidates);
      selected := SelectNeighbours(AsNet(), v, candidates, Cap(m, l));
      SelectedNeighbours(AsNet(), v, candidates, Cap(m, l), selected);
      assert candidates[0] in candidates;
    }

    /** From the top shared layer down, one layer at a time. */
    method JoinLayers(v: Vector, from: nat, idx: nat, top: nat) returns (ghost starts: seq<nat>)
      requires Joining(nodes, m, idx, top)
      requires LivesOn(nodes, idx, top) && LivesOn(nodes, from, top) && from != idx
      modifies this`nodes
      ensures Wired(nodes, m) && SameTowers(old(nodes), nodes)
      ensures JoinedDown(old(AsNet()), nodes, m, efConstruction, v, idx, top, -1, starts) && starts[0] == from
    {
      ghost var was := AsNet();
      var cur := from;
      starts := [from];
      var l: int := top;
      while l >= 0
        invariant -1 <= l <= top && Joining(nodes, m, idx, l) && SameTowers(was.nodes, nodes)
        invariant JoinedDown(was, nodes, m, efConstruction, v, idx, top, l, starts) && starts[0] == from && starts[top - l] == cur
        invariant l >= 0 ==> LivesOn(nodes, cur, l) && cur != idx
      {
        SameTowersKeep(was.nodes, nodes);
        ghost var before := nodes;
        cur := JoinLayer(v, cur, idx, l);
        JoinOneMore(was, before, nodes, m, efConstruction, v, idx, top, l, starts, cur);
        starts := starts + [cur];
        l := l - 1;
      }
    }

    /** Adds an element whose top layer is `level`; an id already there changes nothing. */
    method Add(id: Id, v: Vector, level: nat) returns (ghost starts: seq<nat>)
      requires Valid()
      modifies this
      ensures Valid() && NoneTooLong(nodes, m)
      ensures id !in old(byId) ==> OneMoreTower(old(nodes), nodes, id, v, level)
      ensures id in old(byId) ==> nodes == old(nodes) && entry == old(entry) && maxLay == old(maxLay)
      ensures id !in old(byId) ==>
        && byId == old(byId)[id := old(|nodes|)]
        && maxLay == (if old(nodes) == [] || level > old(maxLay) then level else old(maxLay))
        && entry == (if old(nodes) == [] || level > old(maxLay) then old(|nodes|) else old(entry))
        && (if old(nodes) == [] then nodes == old(Widened(AsNet(), id, v, level)).nodes
            else old(entry) >= 0 && Inserted(old(AsNet()), old(entry), old(maxLay), m, efConstruction, id, v, level, nodes, starts))
    {
      ghost var was, known := AsNet(), byId;
      starts := AddElement(id, v, level);
      WiredLists(nodes, m);
      if id !in known {
        OneTowerMore(was, nodes, id, v, level);
      }
    }

    method AddElement(id: Id, v: Vector, level: nat) returns (ghost starts: seq<nat>)
      requires Valid()
      modifies this
      ensures Valid()
      ensures id in old(byId) ==> nodes == old(nodes) && entry == old(entry) && maxLay == old(maxLay)
      ensures id !in old(byId) ==>
        && byId == old(byId)[id := old(|nodes|)]
        && maxLay == (if old(nodes) == [] || level > old(maxLay) then level else old(maxLay))
        && entry == (if old(nodes) == [] || level > old(maxLay) then old(|nodes|) else old(entry))
        && (if old(nodes) == [] then nodes == old(Widened(AsNet(), id, v, level)).nodes
            else old(entry) >= 0 && Inserted(old(AsNet()), old(entry), old(maxLay), m, efConstruction, id, v, level, nodes, starts))
    {
      starts := [];
      if id in byId {
        return;
      }
      var idx := |nodes|;
      Append(id, v, level);
      if entry == -1 {
        entry, maxLay := idx, level;
        return;
      }
      starts := Place(v, level, idx);
      if level > maxLay {
        maxLay, entry := level, idx;
      }
    }

    /** A new element on its layers, not linked yet. */
    method Append(id: Id, v: Vector, level: nat)
      requires Indexed() && Wired(nodes, m) && id !in byId
      modifies this`nodes, this`byId
      ensures nodes == old(Widened(AsNet(), id, v, level)).nodes && byId == old(byId)[id := old(|nodes|)]
      ensures Indexed() && UniqueIds(nodes) && Wired(nodes, m) && forall l: nat :: Unlinked(nodes, old(|nodes|), l)
    {
      var node := Node(id, v, seq(level + 1, l => []));
      WithNewNode(nodes, m, node);
      byId := byId[id := |nodes|];
      nodes := nodes + [node];
      IdsAreUnique();
    }

    /** Descends from the entry and joins the layers of a new element. */
    method Place(v: Vector, level: nat, idx: nat) returns (ghost starts: seq<nat>)
      requires Wired(nodes, m) && UniqueIds(nodes) && entry >= 0
      requires LivesOn(nodes, entry, maxLay) && LivesOn(nodes, idx, level) && entry != idx
      requires forall l: nat :: Unlinked(nodes, idx, l)
      modifies this`nodes
      ensures Wired(nodes, m) && SameTowers(old(nodes), nodes)
      ensures JoinedDown(old(AsNet()), nodes, m, efConstruction, v, idx, Lower(level, maxLay), -1, starts)
      ensures starts[0] == DescentEnd(old(AsNet()), v, entry, maxLay, level, m)
    {
      var cur := Descend(AsNet(), v, entry, maxLay, level, m);
      DescentLands(AsNet(), v, entry, maxLay, level, m);
      DescentAvoids(AsNet(), v, entry, maxLay, level, m, idx);
      starts := JoinLayers(v, cur, idx, Lower(level, maxLay));
    }

    /** Where a query's search of the bottom layer starts. */
    ghost function QueryStart(q: Vector): nat
      reads this
      requires Valid() && nodes != []
    {
      DescentEnd(AsNet(), q, entry, maxLay, 0, m)
    }

    /** The nearest allowed elements found from where the descent from the entry ends. */
    method Search(q: Vector, k: int, ef: nat, exclude: Id, allow: Filter) returns (out: seq<Result>)
      requires Valid()
      ensures nodes == [] || k <= 0 ==> out == []
      ensures nodes != [] && k > 0 ==>
        && AnswersFrom(AsNet(), q, Passing(exclude, allow), if ef < k then k else ef, k, QueryStart(q), out)
        && Answers(AsNet(), q, k, exclude, allow, out)
    {
      if entry == -1 || k <= 0 {
        return [];
      }
      var width := if ef < k then k else ef;
      IdsAreUnique();
      var cur := Descend(AsNet(), q, entry, maxLay, 0, m);
      DescentLands(AsNet(), q, entry, maxLay, 0, m);
      var found := SearchLayer(AsNet(), q, [cur], width, 0, Passing(exclude, allow), m);
      FoundFrom(AsNet(), q, width, Passing(exclude, allow), cur, found);
      RankedAnswer(AsNet(), q, k, exclude, allow, found);
      out := Results(q, found, k);
    }

    method Results(q: Vector, found: seq<nat>, k: nat) returns (out: seq<Result>)
      requires forall n :: n in found ==> n < |nodes|
      ensures out == Firsts(AsNet(), q, found, k)
    {
      var s := Cut(found, k);
      out := [];
      var i := 0;
      while i < |s|
        invariant 0 <= i <= |s| && out == ResultsOf(AsNet(), q, s[..i])
      {
        assert s[..i + 1][..i] == s[..i];
        assert s[i] == found[i] && found[i] in found;
        out := out + [Result(nodes[s[i]].id, sim(q, nodes[s[i]].vec))];
        i := i + 1;
      }
      assert s[..i] == s;
    }

    /** The nearest allowed elements of all. */
    method Exact(q: Vector, k: nat, exclude: Id, allow: Filter) returns (out: seq<Result>)
      requires Valid()
      ensures ExactAnswer(AsNet(), q, Passing(exclude, allow), k, out)
      ensures Answers(AsNet(), q, k, exclude, allow, out) && Complete(AsNet(), q, k, exclude, allow, out)
    {
      var pool: set<nat> := {};
      var i := 0;
      while i < |nodes|
        invariant 0 <= i <= |nodes|
        invariant forall n: nat :: n in pool <==> n < i && Allows(AsNet(), Passing(exclude, allow), n)
      {
        if Passing(exclude, allow)(nodes[i].id) {
          pool := pool + {i};
        }
        i := i + 1;
      }
      IdsAreUnique();
      var found := Ranked(AsNet(), q, pool);
      out := Results(q, found, k);
      assert RanksAll(AsNet(), q, Passing(exclude, allow), found);
      RankedAnswer(AsNet(), q, k, exclude, allow, found);
      AllRankedIsComplete(AsNet(), q, k, exclude, allow, found);
    }
  }

  /** Twice `m` neighbours on the bottom layer, `m` on every other. */
  ghost predicate NoneTooLong(nodes: seq<Node>, m: nat) {
    forall n, l :: 0 <= n < |nodes| && 0 <= l < |nodes[n].neighbours| ==> |nodes[n].neighbours[l]| <= if l == 0 then 2 * m else m
  }

  lemma WiredLists(nodes: seq<Node>, m: nat)
    requires Wired(nodes, m)
    ensures NoneTooLong(nodes, m)
  {
    forall n, l | 0 <= n < |nodes| && 0 <= l < |nodes[n].neighbours|
      ensures |nodes[n].neighbours[l]| <= if l == 0 then 2 * m else m
    {
      assert LivesOn(nodes, n, l);
    }
  }

  /** One more element, on the layers up to `level`; the others are on the layers they were on. */
  ghost predicate OneMoreTower(before: seq<Node>, after: seq<Node>, id: Id, v: Vector, level: nat) {
    && |after| == |before| + 1
    && after[|before|].id == id && after[|before|].vec == v && |after[|before|].neighbours| == level + 1
    && forall n :: 0 <= n < |before| ==>
      after[n].id == before[n].id && after[n].vec == before[n].vec && |after[n].neighbours| == |before[n].neighbours|
  }

  lemma OneTowerMore(before: Net, after: seq<Node>, id: Id, v: Vector, level: nat)
    requires SameTowers(Widened(before, id, v, level).nodes, after)
    ensures OneMoreTower(before.nodes, after, id, v, level)
  {
    var wide := Widened(before, id, v, level).nodes;
    assert forall n :: 0 <= n < |before.nodes| ==> wide[n] == before.nodes[n];
    assert wide[|before.nodes|].id == id;
  }

  /** Everything but the excluded id that the filter accepts. */
  function Passing(exclude: Id, allow: Filter): Filter {
    (id: Id) => id != exclude && allow(id)
  }

  lemma StartIsComparable(net: Net, ef: nat, cur: nat)
    requires cur < |net.nodes|
    ensures Comparable(net, ef, EVERYONE, [cur])
  {
    assert cur in [cur] && Allows(net, EVERYONE, cur);
  }

  /** A search from an element of the layer finds elements of the layer, not one nobody links to. */
  lemma FoundElsewhere(net: Net, q: Vector, ef: nat, l: nat, allow: Filter, cur: nat, idx: nat, m: nat, out: seq<nat>)
    requires Wired(net.nodes, m) && Unlinked(net.nodes, idx, l) && LivesOn(net.nodes, cur, l) && cur != idx
    requires LayerFound(net, q, ef, l, allow, [cur], out)
    requires Allows(net, allow, cur)
    ensures out != [] && forall n :: n in out ==> LivesOn(net.nodes, n, l) && n != idx
  {
    var visited, kept :| SearchResult(net, q, ef, l, allow, [cur], visited, kept) && Ranking(net, q, kept, out);
    SomethingIsKept(net, q, ef, l, allow, [cur], visited, kept, cur);
    forall n | n in out ensures LivesOn(net.nodes, n, l) && n != idx {
      KeptIsReached(net, q, ef, l, allow, cur, visited, kept, n);
      ReachStays(net.nodes, m, l, cur, n);
    }
  }

  lemma KeptIsReached(net: Net, q: Vector, ef: nat, l: nat, allow: Filter, cur: nat, visited: set<nat>, kept: set<nat>, n: nat)
    requires SearchResult(net, q, ef, l, allow, [cur], visited, kept) && n in kept
    ensures Allows(net, allow, n) && Reach(net.nodes, l, cur, n)
  {
    KeptWasFound(net, q, ef, l, allow, [cur], visited, kept, n);
    FromOne(net.nodes, l, cur, n);
  }

  lemma FromOne(nodes: seq<Node>, l: nat, cur: nat, n: nat)
    requires FromAny(nodes, l, [cur], n)
    ensures Reach(nodes, l, cur, n)
  {
  }

  /** Allowed elements in rank order, reached from `from`; all of them when fewer than the
      width were found, or the width covers the index. */
  ghost predicate FoundBy(net: Net, q: Vector, allow: Filter, ef: nat, from: nat, found: seq<nat>) {
    && RankedAs(net, q, allow, found) && (forall n :: n in found ==> Reach(net.nodes, 0, from, n))
    && (|found| < ef || |net.nodes| <= ef ==>
          forall n: nat :: Allows(net, allow, n) && Reach(net.nodes, 0, from, n) ==> n in found)
  }

  lemma FoundFrom(net: Net, q: Vector, ef: nat, allow: Filter, cur: nat, found: seq<nat>)
    requires LayerFound(net, q, ef, 0, allow, [cur], found)
    ensures FoundBy(net, q, allow, ef, cur, found)
  {
    var visited, kept :| SearchResult(net, q, ef, 0, allow, [cur], visited, kept) && Ranking(net, q, kept, found);
    forall n | n in found ensures Allows(net, allow, n) && Reach(net.nodes, 0, cur, n) {
      KeptIsReached(net, q, ef, 0, allow, cur, visited, kept, n);
    }
    RankingSize(net, q, kept, found);
    if |found| < ef || |net.nodes| <= ef {
      UnfilledSearchIsExhaustive(net, q, ef, 0, allow, [cur], visited, kept);
      forall n: nat | Allows(net, allow, n) && Reach(net.nodes, 0, cur, n) ensures n in found {
        assert cur in [cur] && FromAny(net.nodes, 0, [cur], n);
      }
    }
  }

  /** The first `k` of what a search of the bottom layer with this width finds from `from`. */
  ghost predicate AnswersFrom(net: Net, q: Vector, allow: Filter, ef: nat, k: nat, from: nat, out: seq<Result>) {
    exists found :: LayerFound(net, q, ef, 0, allow, [from], found) && out == Firsts(net, q, found, k)
  }

  /** The first `k` of the allowed elements that can be reached from `from`. */
  ghost predicate ReachableAnswer(net: Net, q: Vector, allow: Filter, k: nat, from: nat, out: seq<Result>) {
    exists found :: RanksReached(net, q, allow, from, found) && out == Firsts(net, q, found, k)
  }

  /** The first `k` of all allowed elements. */
  ghost predicate ExactAnswer(net: Net, q: Vector, allow: Filter, k: nat, out: seq<Result>) {
    exists found :: RanksAll(net, q, allow, found) && out == Firsts(net, q, found, k)
  }

  lemma {:induction false} ResultsLength(net: Net, q: Vector, found: seq<nat>)
    ensures |ResultsOf(net, q, found)| == |found|
    ensures forall i :: 0 <= i < |found| ==> ResultsOf(net, q, found)[i] == ResultAt(net, q, found[i])
  {
    if found != [] {
      ResultsLength(net, q, found[..|found| - 1]);
    }
  }

  /** A search that returns fewer than `k`, or whose width covers the index, answers with
      the first `k` of all the allowed elements its start reaches. */
  lemma SearchIsExhaustive(net: Net, q: Vector, allow: Filter, ef: nat, k: nat, from: nat, out: seq<Result>)
    requires AnswersFrom(net, q, allow, ef, k, from, out) && k <= ef && (|out| < k || |net.nodes| <= ef)
    ensures ReachableAnswer(net, q, allow, k, from, out)
  {
    var found :| LayerFound(net, q, ef, 0, allow, [from], found) && out == Firsts(net, q, found, k);
    FoundFrom(net, q, ef, allow, from, found);
    ResultsLength(net, q, Cut(found, k));
    assert RanksReached(net, q, allow, from, found);
  }

  // ----- How many are returned

  function Least(a: nat, b: nat): nat {
    if a < b then a else b
  }

  ghost function AllowedSet(net: Net, allow: Filter): set<nat> {
    set n | n in Upto(|net.nodes|) && Allows(net, allow, n)
  }

  /** The allowed elements that can be reached from `from`. */
  ghost function ReachedSet(net: Net, allow: Filter, from: nat): set<nat> {
    set n | n in AllowedSet(net, allow) && Reach(net.nodes, 0, from, n)
  }

  lemma FoundIsReached(net: Net, q: Vector, allow: Filter, ef: nat, from: nat, found: seq<nat>)
    requires FoundBy(net, q, allow, ef, from, found)
    ensures Elems(found) <= ReachedSet(net, allow, from) <= AllowedSet(net, allow)
    ensures |found| == |Elems(found)| <= |ReachedSet(net, allow, from)| <= |AllowedSet(net, allow)|
    ensures |found| < ef ==> |found| == |ReachedSet(net, allow, from)|
  {
    var reached := ReachedSet(net, allow, from);
    forall n | n in found ensures n in reached {
      assert n in Upto(|net.nodes|);
    }
    RankingSize(net, q, Elems(found), found);
    SubsetSize(Elems(found), reached);
    SubsetSize(reached, AllowedSet(net, allow));
    if |found| < ef {
      assert reached <= Elems(found);
      SubsetSize(reached, Elems(found));
    }
  }

  lemma AnswerIsCut(net: Net, q: Vector, allow: Filter, ef: nat, k: nat, from: nat, out: seq<Result>)
    requires AnswersFrom(net, q, allow, ef, k, from, out)
    ensures |out| <= k
  {
    var found :| LayerFound(net, q, ef, 0, allow, [from], found) && out == Firsts(net, q, found, k);
    ResultsLength(net, q, Cut(found, k));
  }

  /** A search returns `k` results, or one for every allowed element when there are fewer,
      exactly when its start reaches that many. */
  lemma FullAnswerExactly(net: Net, q: Vector, allow: Filter, ef: nat, k: nat, from: nat, out: seq<Result>)
    requires AnswersFrom(net, q, allow, ef, k, from, out) && 0 < k <= ef
    ensures var asked := Least(k, |AllowedSet(net, allow)|);
      |out| == asked <==> |ReachedSet(net, allow, from)| >= asked
  {
    var found :| LayerFound(net, q, ef, 0, allow, [from], found) && out == Firsts(net, q, found, k);
    FoundFrom(net, q, ef, allow, from, found);
    ResultsLength(net, q, Cut(found, k));
    FoundIsReached(net, q, allow, ef, from, found);
  }

  /** Lists ranked in the same order share the first `k` when the shorter holds those of the longer. */
  lemma {:induction false} SameFirsts(net: Net, q: Vector, allow: Filter, part: seq<nat>, all: seq<nat>, k: nat)
    requires RankedAs(net, q, allow, part) && RankedAs(net, q, allow, all)
    requires (forall n :: n in part ==> n in all) && k <= |all| && forall i :: 0 <= i < k ==> all[i] in part
    ensures k <= |part| && part[..k] == all[..k]
  {
    if k > 0 {
      SameFirsts(net, q, allow, part, all, k - 1);
      var n := all[k - 1];
      EarlierDiffer(net, q, allow, all, k - 1);
      EarlierDiffer(net, q, allow, part, k - 1);
      forall x | 0 <= x < k - 1 ensures part[x] == all[x] {
        assert part[..k - 1][x] == all[..k - 1][x];
      }
      var j: nat :| j < |part| && part[j] == n;
      assert part[k - 1] in part;
      var i: nat :| i < |all| && all[i] == part[k - 1];
      NeitherFirst(net, q, allow, part, all, k - 1, i, j);
      assert part[..k] == part[..k - 1] + [part[k - 1]] && all[..k] == all[..k - 1] + [n];
    }
  }

  lemma EarlierDiffer(net: Net, q: Vector, allow: Filter, s: seq<nat>, p: nat)
    requires RankedAs(net, q, allow, s)
    ensures forall i :: 0 <= i < p < |s| ==> s[i] != s[p]
  {
  }

  lemma NeitherFirst(net: Net, q: Vector, allow: Filter, part: seq<nat>, all: seq<nat>, p: nat, i: nat, j: nat)
    requires RankedAs(net, q, allow, part) && RankedAs(net, q, allow, all)
    requires p <= i < |all| && p <= j < |part| && all[i] == part[p] && part[j] == all[p]
    ensures part[p] == all[p]
  {
  }

  /** Every allowed element, ranked. */
  ghost predicate RanksAll(net: Net, q: Vector, allow: Filter, all: seq<nat>) {
    RankedAs(net, q, allow, all) && forall n: nat :: n in all <==> Allows(net, allow, n)
  }

  /** Every allowed element that can be reached from `from`, ranked. */
  ghost predicate RanksReached(net: Net, q: Vector, allow: Filter, from: nat, found: seq<nat>) {
    RankedAs(net, q, allow, found) && forall n: nat :: n in found <==> Allows(net, allow, n) && Reach(net.nodes, 0, from, n)
  }

  lemma SameAnswersReach(net: Net, q: Vector, allow: Filter, k: nat, from: nat, found: seq<nat>, all: seq<nat>, i: nat)
    requires UniqueIds(net.nodes) && RanksReached(net, q, allow, from, found) && RanksAll(net, q, allow, all)
    requires Firsts(net, q, found, k) == Firsts(net, q, all, k) && i < |all| && i < k
    ensures Reach(net.nodes, 0, from, all[i])
  {
    var a, b := Cut(found, k), Cut(all, k);
    ResultsLength(net, q, a);
    ResultsLength(net, q, b);
    assert ResultAt(net, q, a[i]) == ResultAt(net, q, b[i]);
    assert a[i] == found[i] && found[i] in found && b[i] == all[i] && all[i] in all;
    SameIdSameElement(net, a[i], b[i]);
  }

  lemma ReachedAnswersAgree(net: Net, q: Vector, allow: Filter, k: nat, from: nat, found: seq<nat>, all: seq<nat>)
    requires RanksReached(net, q, allow, from, found) && RanksAll(net, q, allow, all)
    requires forall i :: 0 <= i < |all| && i < k ==> Reach(net.nodes, 0, from, all[i])
    ensures Firsts(net, q, found, k) == Firsts(net, q, all, k)
  {
    var n := if |all| > k then k else |all|;
    forall i | 0 <= i < n ensures all[i] in found {
      assert all[i] in all;
    }
    SameFirsts(net, q, allow, found, all, n);
    FoundNotLonger(net, q, allow, found, all);
    SameCut(found, all, k, n);
  }

  lemma SameCut(found: seq<nat>, all: seq<nat>, k: nat, n: nat)
    requires n == (if |all| > k then k else |all|) && n <= |found| <= |all| && found[..n] == all[..n]
    ensures Cut(found, k) == Cut(all, k)
  {
  }

  /** The answer from what is reached is the exact one precisely when the start reaches
      each of the first `k` allowed elements. */
  lemma ExactWhenReached(net: Net, q: Vector, allow: Filter, k: nat, from: nat, out: seq<Result>, exact: seq<Result>, all: seq<nat>)
    requires UniqueIds(net.nodes) && ReachableAnswer(net, q, allow, k, from, out)
    requires RanksAll(net, q, allow, all) && exact == Firsts(net, q, all, k)
    ensures out == exact <==> forall i :: 0 <= i < |all| && i < k ==> Reach(net.nodes, 0, from, all[i])
  {
    var found :| RanksReached(net, q, allow, from, found) && out == Firsts(net, q, found, k);
    if out == exact {
      forall i | 0 <= i < |all| && i < k ensures Reach(net.nodes, 0, from, all[i]) {
        SameAnswersReach(net, q, allow, k, from, found, all, i);
      }
    } else if forall i :: 0 <= i < |all| && i < k ==> Reach(net.nodes, 0, from, all[i]) {
      ReachedAnswersAgree(net, q, allow, k, from, found, all);
    }
  }

  lemma SameIdSameElement(net: Net, a: nat, b: nat)
    requires UniqueIds(net.nodes) && a < |net.nodes| && b < |net.nodes| && net.nodes[a].id == net.nodes[b].id
    ensures a == b
  {
  }

  lemma FoundNotLonger(net: Net, q: Vector, allow: Filter, part: seq<nat>, all: seq<nat>)
    requires RankedAs(net, q, allow, part) && RankedAs(net, q, allow, all) && forall n :: n in part ==> n in all
    ensures |part| <= |all|
  {
    RankingSize(net, q, Elems(part), part);
    RankingSize(net, q, Elems(all), all);
    assert Elems(all) == Elems(part) + (Elems(all) - Elems(part));
  }
}
