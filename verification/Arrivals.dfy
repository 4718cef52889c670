// Late confirmations.

module Arrivals {
  // A confirmation whose turn it is not is dropped, not held; what still waits when
  // the clock stops is offered four more times.

  import opened Blocks
  import opened Sequences
  import opened Transforms
  import opened Simulations

  datatype Packet = Packet(op: Edit, arrives: nat)

  // ----- One client and what it is offered

  /** A client takes an op only when it is the next in the server's order. */
  function Offer(c: Client, op: Edit, transform: bool): Client {
    if c.seen == op.base then Confirm(c, op, transform) else c
  }

  function Take(c: Client, ops: seq<Edit>, transform: bool): Client {
    if ops == [] then c
    else Offer(Take(c, ops[..|ops| - 1], transform), ops[|ops| - 1], transform)
  }

  /** The ops of the packets that have arrived by `tick`. */
  function Due(queue: seq<Packet>, tick: nat): seq<Edit> {
    if queue == [] then []
    else
      var last := queue[|queue| - 1];
      Due(queue[..|queue| - 1], tick) + if last.arrives > tick then [] else [last.op]
  }

  /** The packets still on their way. */
  function Later(queue: seq<Packet>, tick: nat): seq<Packet> {
    if queue == [] then []
    else
      var last := queue[|queue| - 1];
      Later(queue[..|queue| - 1], tick) + if last.arrives > tick then [last] else []
  }

  function OpsOf(queue: seq<Packet>): seq<Edit> {
    if queue == [] then [] else OpsOf(queue[..|queue| - 1]) + [queue[|queue| - 1].op]
  }

  /** What waits after the ticks in which `sent` was broadcast. */
  function Waiting(sent: seq<seq<Packet>>): seq<Packet> {
    if sent == [] then []
    else
      var n := |sent| - 1;
      Later(Waiting(sent[..n]) + sent[n], n)
  }

  /** What has been offered during those ticks. */
  function Arrived(sent: seq<seq<Packet>>): seq<Edit> {
    if sent == [] then []
    else
      var n := |sent| - 1;
      Arrived(sent[..n]) + Due(Waiting(sent[..n]) + sent[n], n)
  }

  function Repeated(ops: seq<Edit>, times: nat): seq<Edit> {
    if times == 0 then [] else Repeated(ops, times - 1) + ops
  }

  const DRAINS: nat := 4

  /** All that a client is offered over a run. */
  function Offered(sent: seq<seq<Packet>>): seq<Edit> {
    Arrived(sent) + Repeated(OpsOf(Waiting(sent)), DRAINS)
  }

  lemma TakeSnoc(c: Client, ops: seq<Edit>, op: Edit, transform: bool)
    ensures Take(c, ops + [op], transform) == Offer(Take(c, ops, transform), op, transform)
  {
    assert (ops + [op])[..|ops|] == ops;
  }

  lemma {:induction false} TakeAppend(c: Client, a: seq<Edit>, b: seq<Edit>, transform: bool)
    ensures Take(c, a + b, transform) == Take(Take(c, a, transform), b, transform)
  {
    if b == [] {
      assert a + b == a;
    } else {
      var n := |b| - 1;
      assert a + b == (a + b[..n]) + [b[n]];
      TakeSnoc(c, a + b[..n], b[n], transform);
      TakeAppend(c, a, b[..n], transform);
    }
  }

  // ----- The loops

  method OfferTo(r: Replica, op: Edit, transform: bool)
    modifies r
    ensures r.View() == Offer(old(r.View()), op, transform)
  {
    if r.seen == op.base {
      r.ApplyConfirmed(op, transform);
    }
  }

  /** One tick: what has arrived is offered and forgotten, the rest goes on waiting. */
  method Tick(r: Replica, queue: seq<Packet>, tick: nat, transform: bool) returns (still: seq<Packet>)
    modifies r
    ensures still == Later(queue, tick) && r.View() == Take(old(r.View()), Due(queue, tick), transform)
  {
    still := [];
    ghost var c := r.View();
    for i := 0 to |queue|
      invariant still == Later(queue[..i], tick) && r.View() == Take(c, Due(queue[..i], tick), transform)
    {
      assert queue[..i + 1] == queue[..i] + [queue[i]];
      SplitSnoc(queue[..i], queue[i], tick);
      if queue[i].arrives > tick {
        still := still + [queue[i]];
        assert Due(queue[..i + 1], tick) == Due(queue[..i], tick);
      } else {
        TakeSnoc(c, Due(queue[..i], tick), queue[i].op, transform);
        OfferTo(r, queue[i].op, transform);
      }
    }
    assert queue[..|queue|] == queue;
  }

  method DrainOnce(r: Replica, queue: seq<Packet>, transform: bool)
    modifies r
    ensures r.View() == Take(old(r.View()), OpsOf(queue), transform)
  {
    ghost var c := r.View();
    for i := 0 to |queue|
      invariant r.View() == Take(c, OpsOf(queue[..i]), transform)
    {
      assert queue[..i + 1][..i] == queue[..i];
      TakeSnoc(c, OpsOf(queue[..i]), queue[i].op, transform);
      OfferTo(r, queue[i].op, transform);
    }
    assert queue[..|queue|] == queue;
  }

  method Drain(r: Replica, queue: seq<Packet>, transform: bool)
    modifies r
    ensures r.View() == Take(old(r.View()), Repeated(OpsOf(queue), DRAINS), transform)
  {
    ghost var c := r.View();
    for pass := 0 to DRAINS
      invariant r.View() == Take(c, Repeated(OpsOf(queue), pass), transform)
    {
      TakeAppend(c, Repeated(OpsOf(queue), pass), OpsOf(queue), transform);
      DrainOnce(r, queue, transform);
    }
  }

  lemma TickNext(sent: seq<seq<Packet>>, n: nat)
    requires n < |sent|
    ensures Waiting(sent[..n + 1]) == Later(Waiting(sent[..n]) + sent[n], n)
    ensures Arrived(sent[..n + 1]) == Arrived(sent[..n]) + Due(Waiting(sent[..n]) + sent[n], n)
  {
    assert sent[..n + 1][..n] == sent[..n];
  }

  /** The receiving side of a run: in the tick `n` the server broadcasts `sent[n]`. */
  method Receive(r: Replica, sent: seq<seq<Packet>>, transform: bool)
    modifies r
    ensures r.View() == Take(old(r.View()), Offered(sent), transform)
  {
    var queue: seq<Packet> := [];
    ghost var c := r.View();
    for tick := 0 to |sent|
      invariant queue == Waiting(sent[..tick]) && r.View() == Take(c, Arrived(sent[..tick]), transform)
    {
      TickNext(sent, tick);
      var toClients := queue + sent[tick];
      TakeAppend(c, Arrived(sent[..tick]), Due(toClients, tick), transform);
      queue := Tick(r, toClients, tick, transform);
    }
    assert sent[..|sent|] == sent;
    TakeAppend(c, Arrived(sent), Repeated(OpsOf(queue), DRAINS), transform);
    Drain(r, queue, transform);
  }

  // ----- What a client ends with

  /** Every op is the log's, and says where. */
  ghost predicate FromLog(ops: seq<Edit>, log: seq<Edit>) {
    forall k :: 0 <= k < |ops| ==> 0 <= ops[k].base < |log| && log[ops[k].base] == ops[k]
  }

  /** Offers `at[0]`, `at[1]`, ... are of the log's entries in order. */
  ghost predicate InOrder(ops: seq<Edit>, at: seq<nat>) {
    && (forall k :: 0 <= k < |at| ==> at[k] < |ops| && ops[at[k]].base == k)
    && (forall j, k :: 0 <= j < k < |at| ==> at[j] < at[k])
  }

  /** The first `n` log entries are offered in order, other offers between. */
  ghost predicate OffersInOrder(ops: seq<Edit>, n: nat) {
    exists at :: |at| == n && InOrder(ops, at)
  }

  lemma ConfirmSees(c: Client, op: Edit, transform: bool)
    ensures Confirm(c, op, transform).seen == c.seen + 1
  {
  }

  lemma InOrderSnoc(ops: seq<Edit>, op: Edit, n: nat)
    requires OffersInOrder(ops, n)
    ensures OffersInOrder(ops + [op], n)
    ensures op.base == n ==> OffersInOrder(ops + [op], n + 1)
  {
    var at: seq<nat> :| |at| == n && InOrder(ops, at);
    assert InOrder(ops + [op], at);
    if op.base == n {
      var more := at + [|ops|];
      assert |more| == n + 1 && InOrder(ops + [op], more);
    }
  }

  lemma InOrderShorter(ops: seq<Edit>, op: Edit, n: nat)
    requires OffersInOrder(ops + [op], n)
    ensures OffersInOrder(ops, n) || (n > 0 && op.base == n - 1 && OffersInOrder(ops, n - 1))
  {
    var at: seq<nat> :| |at| == n && InOrder(ops + [op], at);
    if n > 0 && at[n - 1] == |ops| {
      assert InOrder(ops, at[..n - 1]);
    } else {
      assert InOrder(ops, at);
    }
  }

  lemma NothingInOrder(n: nat)
    requires n > 0
    ensures !OffersInOrder([], n)
  {
    forall at: seq<nat> | |at| == n ensures !InOrder([], at) {
      assert at[0] >= 0;
    }
  }

  /** A new client has seen `n` entries or more exactly when the first `n` were offered in order. */
  lemma {:induction false} SeesExactly(c: Client, ops: seq<Edit>, n: nat, transform: bool)
    requires c.seen == 0
    ensures Take(c, ops, transform).seen >= n <==> OffersInOrder(ops, n)
    decreases |ops|
  {
    if ops == [] {
      var none: seq<nat> := [];
      assert InOrder(ops, none);
      assert OffersInOrder(ops, 0);
      if n > 0 {
        NothingInOrder(n);
      }
    } else {
      var last, rest := ops[|ops| - 1], ops[..|ops| - 1];
      var d := Take(c, rest, transform);
      assert ops == rest + [last];
      ConfirmSees(d, last, transform);
      SeesExactly(c, rest, n, transform);
      SeesExactly(c, rest, d.seen, transform);
      InOrderSnoc(rest, last, d.seen);
      if n > 0 {
        SeesExactly(c, rest, n - 1, transform);
      }
      if OffersInOrder(ops, n) {
        InOrderShorter(rest, last, n);
      }
      if OffersInOrder(rest, n) {
        InOrderSnoc(rest, last, n);
      }
    }
  }

  /** What a client takes are the first entries of the log, in the log's order. */
  lemma {:induction false} TakesLogPrefix(c: Client, log: seq<Edit>, ops: seq<Edit>, transform: bool)
    requires c.seen == 0 && FromLog(ops, log)
    ensures var d := Take(c, ops, transform);
      d.seen <= |log| && d == ConfirmAll(c, log[..d.seen], transform)
    decreases |ops|
  {
    if ops != [] {
      var last, rest := ops[|ops| - 1], ops[..|ops| - 1];
      TakesLogPrefix(c, log, rest, transform);
      var d := Take(c, rest, transform);
      assert last == ops[|ops| - 1];
      TakesOneMore(c, log, d, last, transform);
    }
  }

  lemma TakesOneMore(c: Client, log: seq<Edit>, d: Client, op: Edit, transform: bool)
    requires d.seen <= |log| && d == ConfirmAll(c, log[..d.seen], transform)
    requires 0 <= op.base < |log| && log[op.base] == op
    ensures var e := Offer(d, op, transform); e.seen <= |log| && e == ConfirmAll(c, log[..e.seen], transform)
  {
    ConfirmSees(d, op, transform);
    if d.seen == op.base {
      ConfirmAllOne(c, log, d.seen, Offer(d, op, transform).seen, transform);
    }
  }

  lemma ConfirmAllOne(c: Client, log: seq<Edit>, n: nat, next: nat, transform: bool)
    requires n < |log| && next == n + 1
    ensures ConfirmAll(c, log[..next], transform) == Confirm(ConfirmAll(c, log[..n], transform), log[n], transform)
  {
    assert log[..next] == log[..n] + [log[n]];
    ConfirmAllSnoc(c, log[..n], log[n], transform);
  }

  function ConfirmAll(c: Client, log: seq<Edit>, transform: bool): Client
    decreases |log|
  {
    if log == [] then c else ConfirmAll(Confirm(c, log[0], transform), log[1..], transform)
  }

  lemma {:induction false} ConfirmAllSnoc(c: Client, log: seq<Edit>, op: Edit, transform: bool)
    ensures ConfirmAll(c, log + [op], transform) == Confirm(ConfirmAll(c, log, transform), op, transform)
    decreases |log|
  {
    if log == [] {
      assert (log + [op])[1..] == [];
    } else {
      assert (log + [op])[1..] == log[1..] + [op];
      ConfirmAllSnoc(Confirm(c, log[0], transform), log[1..], op, transform);
    }
  }

  /** A client ends with the whole log confirmed exactly when the entries' numbers, in
      order, are a subsequence of the numbers it is offered. */
  lemma WholeLogExactly(c: Client, log: seq<Edit>, sent: seq<seq<Packet>>, transform: bool)
    requires c.seen == 0 && FromLog(Offered(sent), log)
    ensures var d := Take(c, Offered(sent), transform);
      && (d.seen == |log| <==> OffersInOrder(Offered(sent), |log|))
      && (d.seen == |log| ==> d == ConfirmAll(c, log, transform))
  {
    TakesLogPrefix(c, log, Offered(sent), transform);
    SeesExactly(c, Offered(sent), |log|, transform);
    assert log[..|log|] == log;
  }

  /** What a wire can carry: nothing is accepted in the first tick, and no packet arrives
      in the tick it was sent. */
  ghost predicate OnTheWire(sent: seq<seq<Packet>>) {
    && (sent != [] ==> sent[0] == [])
    && forall t, p :: 0 <= t < |sent| && p in sent[t] ==> p.arrives > t
  }

  /** Dropped for good: the second confirmation overtakes the first, both have
      arrived, and the client never sees the second. */
  lemma OvertakenIsDropped(x: Edit, y: Edit, c: Client, transform: bool)
    requires x.base == 0 && y.base == 1 && c.seen == 0
    ensures var sent := [[], [Packet(x, 4)], [Packet(y, 3)], [], []];
      && OnTheWire(sent) && FromLog(Offered(sent), [x, y]) && Waiting(sent) == []
      && Arrived(sent) == [y, x] && Take(c, Offered(sent), transform).seen == 1
  {
    OvertakenOnTheWire(Packet(x, 4), Packet(y, 3));
    AfterFive(Packet(x, 4), Packet(y, 3));
    NothingWaits([[], [Packet(x, 4)], [Packet(y, 3)], [], []]);
    OvertakenIsNotTaken(x, y, c, transform);
  }

  lemma OvertakenOnTheWire(p: Packet, q: Packet)
    requires p.arrives == 4 && q.arrives == 3
    ensures OnTheWire([[], [p], [q], [], []])
  {
  }

  lemma NothingWaits(sent: seq<seq<Packet>>)
    requires Waiting(sent) == []
    ensures Offered(sent) == Arrived(sent)
  {
    RepeatedNothing(DRAINS);
    assert OpsOf([]) == [];
  }

  /** One more tick: `late` goes on waiting and `due` is offered. */
  lemma OneMoreTick(sent: seq<seq<Packet>>, tick: seq<Packet>, longer: seq<seq<Packet>>, late: seq<Packet>, due: seq<Edit>)
    requires longer == sent + [tick]
    requires Later(Waiting(sent) + tick, |sent|) == late && Due(Waiting(sent) + tick, |sent|) == due
    ensures Waiting(longer) == late && Arrived(longer) == Arrived(sent) + due
  {
    assert longer[..|sent|] == sent;
  }

  lemma SplitOne(p: Packet, tick: nat)
    ensures Later([p], tick) == if p.arrives > tick then [p] else []
    ensures Due([p], tick) == if p.arrives > tick then [] else [p.op]
  {
    assert [p][..0] == [];
  }

  lemma SplitTwo(p: Packet, q: Packet, tick: nat)
    requires p.arrives > tick
    ensures Later([p, q], tick) == if q.arrives > tick then [p, q] else [p]
    ensures Due([p, q], tick) == if q.arrives > tick then [] else [q.op]
  {
    SplitOne(p, tick);
    assert [p, q][..1] == [p];
  }

  lemma AfterTwo(p: Packet, q: Packet)
    requires p.arrives == 4 && q.arrives == 3
    ensures Waiting([[], [p]]) == [p] && Arrived([[], [p]]) == []
  {
    var none: seq<Packet> := [];
    var start: seq<seq<Packet>> := [];
    assert none + none == none && none + [p] == [p];
    OneMoreTick(start, none, [none], none, []);
    SplitOne(p, 1);
    OneMoreTick([none], [p], [none, [p]], [p], []);
  }

  lemma AfterThree(p: Packet, q: Packet)
    requires p.arrives == 4 && q.arrives == 3
    ensures Waiting([[], [p], [q]]) == [p, q] && Arrived([[], [p], [q]]) == []
  {
    AfterTwo(p, q);
    SplitTwo(p, q, 2);
    assert [p] + [q] == [p, q];
    OneMoreTick([[], [p]], [q], [[], [p], [q]], [p, q], []);
  }

  lemma AfterFour(p: Packet, q: Packet)
    requires p.arrives == 4 && q.arrives == 3
    ensures Waiting([[], [p], [q], []]) == [p] && Arrived([[], [p], [q], []]) == [q.op]
  {
    AfterThree(p, q);
    SplitTwo(p, q, 3);
    assert [p, q] + [] == [p, q];
    OneMoreTick([[], [p], [q]], [], [[], [p], [q], []], [p], [q.op]);
  }

  lemma AfterFive(p: Packet, q: Packet)
    requires p.arrives == 4 && q.arrives == 3
    ensures Waiting([[], [p], [q], [], []]) == [] && Arrived([[], [p], [q], [], []]) == [q.op, p.op]
  {
    AfterFour(p, q);
    SplitOne(p, 4);
    assert [p] + [] == [p];
    OneMoreTick([[], [p], [q], []], [], [[], [p], [q], [], []], [], [p.op]);
  }

  lemma OvertakenIsNotTaken(x: Edit, y: Edit, c: Client, transform: bool)
    requires x.base == 0 && y.base == 1 && c.seen == 0
    ensures Take(c, [y, x], transform).seen == 1
  {
    var none: seq<Edit> := [];
    assert none + [y] == [y] && [y] + [x] == [y, x];
    TakeSnoc(c, none, y, transform);
    TakeSnoc(c, [y], x, transform);
    ConfirmSees(c, x, transform);
  }

  lemma SplitSnoc(queue: seq<Packet>, p: Packet, tick: nat)
    ensures Later(queue + [p], tick) == Later(queue, tick) + if p.arrives > tick then [p] else []
    ensures Due(queue + [p], tick) == Due(queue, tick) + if p.arrives > tick then [] else [p.op]
  {
    assert (queue + [p])[..|queue|] == queue;
  }

  lemma {:induction false} RepeatedNothing(times: nat)
    ensures Repeated([], times) == []
  {
    if times > 0 {
      RepeatedNothing(times - 1);
    }
  }
}
