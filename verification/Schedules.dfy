// When confirmations are offered.

module Schedules {
  // Packet by packet, from the tick it was sent and the tick it arrives, without the
  // queue it waits in.

  import opened Sequences
  import opened Transforms
  import opened Arrivals

  /** The tick in which a packet sent in tick `s` is offered. */
  function OfferedIn(p: Packet, s: nat): nat {
    if p.arrives < s then s else p.arrives
  }

  function From(n: nat): nat -> bool {
    d => d >= n
  }

  function At(n: nat): nat -> bool {
    d => d == n
  }

  /** Those of a tick's packets whose turn is wanted, in order. */
  function Pick(ps: seq<Packet>, s: nat, want: nat -> bool): seq<Packet> {
    if ps == [] then []
    else
      var last := ps[|ps| - 1];
      Pick(ps[..|ps| - 1], s, want) + if want(OfferedIn(last, s)) then [last] else []
  }

  /** Those of all packets sent in the first `n` ticks. */
  function PickAll(sent: seq<seq<Packet>>, n: nat, want: nat -> bool): seq<Packet>
    requires n <= |sent|
  {
    if n == 0 then [] else PickAll(sent, n - 1, want) + Pick(sent[n - 1], n - 1, want)
  }

  /** What is offered in the first `n` ticks: tick by tick the packets whose turn it is. */
  function ByTheClock(sent: seq<seq<Packet>>, n: nat): seq<Edit>
    requires n <= |sent|
  {
    if n == 0 then [] else ByTheClock(sent, n - 1) + OpsOf(PickAll(sent, n, At(n - 1)))
  }

  // ----- The queue agrees

  lemma LastOfBoth(a: seq<Packet>, b: seq<Packet>, n: nat)
    requires |b| == n + 1
    ensures a + b == a + b[..n] + [b[n]] && b == b[..n] + [b[n]]
  {
  }

  lemma OpsSnoc(queue: seq<Packet>, p: Packet)
    ensures OpsOf(queue + [p]) == OpsOf(queue) + [p.op]
  {
    assert (queue + [p])[..|queue|] == queue;
  }

  lemma {:induction false} QueueAppend(a: seq<Packet>, b: seq<Packet>, tick: nat)
    ensures Due(a + b, tick) == Due(a, tick) + Due(b, tick) && Later(a + b, tick) == Later(a, tick) + Later(b, tick)
    ensures OpsOf(a + b) == OpsOf(a) + OpsOf(b)
    decreases |b|
  {
    if b == [] {
      assert a + b == a;
    } else {
      var n := |b| - 1;
      QueueAppend(a, b[..n], tick);
      LastOfBoth(a, b, n);
      SplitSnoc(a + b[..n], b[n], tick);
      SplitSnoc(b[..n], b[n], tick);
      OpsSnoc(a + b[..n], b[n]);
      OpsSnoc(b[..n], b[n]);
    }
  }

  lemma NothingMore(ps: seq<Packet>, p: Packet, n: nat)
    ensures OpsOf([p]) == [p.op] && Due(ps, n) + [] == Due(ps, n) && Later(ps, n) + [] == Later(ps, n)
  {
    assert [p][..0] == [];
  }

  lemma PickStep(ps: seq<Packet>, s: nat, want: nat -> bool, before: seq<Packet>, last: Packet)
    requires ps != [] && before == ps[..|ps| - 1] && last == ps[|ps| - 1]
    ensures Pick(ps, s, want) == if want(OfferedIn(last, s)) then Pick(before, s, want) + [last] else Pick(before, s, want)
  {
  }

  /** Of packets whose turn is `n` or later, those due in `n` are offered and the others wait on. */
  lemma {:induction false} TurnComes(ps: seq<Packet>, s: nat, n: nat)
    requires s <= n
    ensures Due(Pick(ps, s, From(n)), n) == OpsOf(Pick(ps, s, At(n)))
    ensures Later(Pick(ps, s, From(n)), n) == Pick(ps, s, From(n + 1))
  {
    if ps != [] {
      var last, before := ps[|ps| - 1], ps[..|ps| - 1];
      TurnComes(before, s, n);
      PickStep(ps, s, From(n), before, last);
      PickStep(ps, s, At(n), before, last);
      PickStep(ps, s, From(n + 1), before, last);
      if OfferedIn(last, s) >= n {
        QueueAppend(Pick(before, s, From(n)), [last], n);
        QueueAppend(Pick(before, s, At(n)), [last], n);
        SplitOne(last, n);
        NothingMore(Pick(before, s, From(n)), last, n);
      }
    }
  }

  lemma {:induction false} AllTurnsCome(sent: seq<seq<Packet>>, k: nat, n: nat)
    requires k <= n + 1 && k <= |sent|
    ensures Due(PickAll(sent, k, From(n)), n) == OpsOf(PickAll(sent, k, At(n)))
    ensures Later(PickAll(sent, k, From(n)), n) == PickAll(sent, k, From(n + 1))
  {
    if k > 0 {
      AllTurnsCome(sent, k - 1, n);
      TurnComes(sent[k - 1], k - 1, n);
      QueueAppend(PickAll(sent, k - 1, From(n)), Pick(sent[k - 1], k - 1, From(n)), n);
      QueueAppend(PickAll(sent, k - 1, At(n)), Pick(sent[k - 1], k - 1, At(n)), n);
    }
  }

  lemma {:induction false} AllAreLater(ps: seq<Packet>, s: nat)
    ensures Pick(ps, s, From(s)) == ps
  {
    if ps != [] {
      AllAreLater(ps[..|ps| - 1], s);
      assert ps == ps[..|ps| - 1] + [ps[|ps| - 1]];
    }
  }

  /** After `n` ticks the packets whose turn is still to come wait, and the others have been
      offered in their turn. */
  lemma {:induction false} QueueKeepsTime(sent: seq<seq<Packet>>, n: nat)
    requires n <= |sent|
    ensures Waiting(sent[..n]) == PickAll(sent, n, From(n))
    ensures Arrived(sent[..n]) == ByTheClock(sent, n)
  {
    if n > 0 {
      var k := n - 1;
      QueueKeepsTime(sent, k);
      TickNext(sent, k);
      AllAreLater(sent[k], k);
      assert PickAll(sent, n, From(k)) == PickAll(sent, k, From(k)) + Pick(sent[k], k, From(k));
      AllTurnsCome(sent, n, k);
    }
  }

  /** A client is offered every packet in the tick in which it arrives, or is sent when that
      is later, and four times over what arrives only after the last. */
  lemma OfferedByTheClock(sent: seq<seq<Packet>>)
    ensures var late := OpsOf(PickAll(sent, |sent|, From(|sent|)));
      Offered(sent) == ByTheClock(sent, |sent|) + (late + late + late + late)
  {
    QueueKeepsTime(sent, |sent|);
    assert sent[..|sent|] == sent;
    FourTimes(OpsOf(Waiting(sent)));
  }

  lemma FourTimes(ops: seq<Edit>)
    ensures Repeated(ops, DRAINS) == ops + ops + ops + ops
  {
    assert Repeated(ops, 1) == [] + ops == ops;
    assert Repeated(ops, 2) == ops + ops && Repeated(ops, 3) == ops + ops + ops;
  }
}
