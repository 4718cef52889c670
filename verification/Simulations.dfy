// Prediction and rollback.

module Simulations {
  // One server, any number of clients, and a wire that delivers in any order:
  // replay against a confirmed log.

  import opened Blocks
  import opened Transforms
  import opened Deletes

  // ----- One client

  // `pending` is applied locally and not yet confirmed, oldest first.
  datatype Client = Client(text: Text, pending: seq<Edit>, seen: nat, predicted: nat, confirmed: nat, rolled: nat)

  /** Undo every pending op, newest first, each against the text it is undone in. */
  function UndoAll(text: Text, pending: seq<Edit>): Text
    decreases |pending|
  {
    if pending == [] then text
    else
      var n := |pending| - 1;
      UndoAll(Apply(Invert(pending[n], text), text), pending[..n])
  }

  function Moved(p: Edit, op: Edit, transform: bool): Edit {
    if transform then Transform(p, op) else p
  }

  function MovedAll(pending: seq<Edit>, op: Edit, transform: bool): seq<Edit> {
    seq(|pending|, i requires 0 <= i < |pending| => Moved(pending[i], op, transform))
  }

  /** A client's own op comes home: it is dropped from pending, and if the server
      moved it, undone and laid again with the rest on top. */
  function ConfirmOwnOp(c: Client, op: Edit, transform: bool): Client
    requires c.pending != []
  {
    var mine, rest := c.pending[0], c.pending[1..];
    if mine.pos == op.pos && Width(mine) == Width(op) then
      Client(c.text, rest, c.seen + 1, c.predicted, c.confirmed + 1, c.rolled)
    else
      var undone := UndoAll(c.text, rest);
      var moved := MovedAll(rest, op, transform);
      Client(ApplyAll(moved, Apply(op, Apply(Invert(mine, undone), undone))), moved,
             c.seen + 1, c.predicted, c.confirmed + 1, c.rolled + 1)
  }

  /** Somebody else's op goes under everything pending. */
  function ConfirmOtherOp(c: Client, op: Edit, transform: bool): Client {
    var moved := MovedAll(c.pending, op, transform);
    Client(ApplyAll(moved, Apply(op, UndoAll(c.text, c.pending))), moved,
           c.seen + 1, c.predicted, c.confirmed, if c.pending != [] then c.rolled + 1 else c.rolled)
  }

  /** What one confirmation does to a client. */
  function Confirm(c: Client, op: Edit, transform: bool): Client {
    if c.pending != [] && c.pending[0].id == op.id then ConfirmOwnOp(c, op, transform)
    else ConfirmOtherOp(c, op, transform)
  }

  lemma {:induction false} ApplyAllSnoc(log: seq<Edit>, op: Edit, s: Text)
    ensures ApplyAll(log + [op], s) == Apply(op, ApplyAll(log, s))
    decreases |log|
  {
    if log == [] {
      assert (log + [op])[1..] == [];
    } else {
      assert (log + [op])[1..] == log[1..] + [op];
      ApplyAllSnoc(log[1..], op, Apply(log[0], s));
    }
  }

  lemma OneMoreMoved(moved: seq<Edit>, before: seq<Edit>, i: nat)
    requires i < |moved| == |before|
    ensures (moved[..i] + before[i..])[i] == before[i]
    ensures (moved[..i] + before[i..])[i := moved[i]] == moved[..i + 1] + before[i + 1..]
    ensures moved[..i + 1] == moved[..i] + [moved[i]]
  {
  }

  lemma OtherConfirmed(c: Client, op: Edit, transform: bool, under: Text, moved: seq<Edit>, rolled: nat)
    requires under == Apply(op, UndoAll(c.text, c.pending)) && moved == MovedAll(c.pending, op, transform)
    requires rolled == if |c.pending| > 0 then c.rolled + 1 else c.rolled
    ensures ConfirmOtherOp(c, op, transform) == Client(ApplyAll(moved, under), moved, c.seen + 1, c.predicted, c.confirmed, rolled)
  {
  }

  /** `text` and `moved` are what undoing `rest` and then `mine`, applying the confirmed op
      and redoing the moved rest give. */
  ghost predicate Rebuilt(text0: Text, rest: seq<Edit>, mine: Edit, op: Edit, transform: bool, text: Text, moved: seq<Edit>) {
    var undone := UndoAll(text0, rest);
    && moved == MovedAll(rest, op, transform)
    && text == ApplyAll(moved, Apply(op, Apply(Invert(mine, undone), undone)))
  }

  lemma OwnConfirmed(c: Client, op: Edit, transform: bool, mine: Edit, rest: seq<Edit>, text: Text, moved: seq<Edit>, rolled: nat)
    requires c.pending != [] && mine == c.pending[0] && rest == c.pending[1..]
    requires if mine.pos == op.pos && Width(mine) == Width(op) then text == c.text && moved == rest && rolled == c.rolled
             else Rebuilt(c.text, rest, mine, op, transform, text, moved) && rolled == c.rolled + 1
    ensures ConfirmOwnOp(c, op, transform) == Client(text, moved, c.seen + 1, c.predicted, c.confirmed + 1, rolled)
  {
  }

  class Replica {
    var text: Text
    var pending: seq<Edit>
    var seen: nat
    var predicted: nat
    var confirmed: nat
    var rolled: nat

    ghost function View(): Client
      reads this
    {
      Client(text, pending, seen, predicted, confirmed, rolled)
    }

    constructor (initial: Text)
      ensures View() == Client(initial, [], 0, 0, 0, 0)
    {
      text, pending, seen, predicted, confirmed, rolled := initial, [], 0, 0, 0, 0;
    }

    method UndoPending()
      modifies this`text
      ensures text == UndoAll(old(text), pending)
    {
      var i := |pending|;
      assert pending[..i] == pending;
      while i > 0
        invariant 0 <= i <= |pending|
        invariant UndoAll(text, pending[..i]) == UndoAll(old(text), pending)
      {
        i := i - 1;
        assert pending[..i + 1][..i] == pending[..i];
        text := Apply(Invert(pending[i], text), text);
      }
    }

    /** Re-applies the pending ops, moved past `op` when transform is on. */
    method RedoPending(op: Edit, transform: bool)
      modifies this`text, this`pending
      ensures pending == MovedAll(old(pending), op, transform)
      ensures text == ApplyAll(pending, old(text))
    {
      var i := 0;
      ghost var before, start, moved := pending, text, MovedAll(pending, op, transform);
      while i < |pending|
        invariant 0 <= i <= |pending| == |moved| == |before|
        invariant pending == moved[..i] + before[i..]
        invariant text == ApplyAll(moved[..i], start)
      {
        OneMoreMoved(moved, before, i);
        if transform {
          pending := pending[i := Transform(pending[i], op)];
        }
        ApplyAllSnoc(moved[..i], moved[i], start);
        text := Apply(pending[i], text);
        i := i + 1;
      }
      assert moved[..i] == moved;
    }

    method Rebuild(mine: Edit, op: Edit, transform: bool)
      modifies this`text, this`pending
      ensures Rebuilt(old(text), old(pending), mine, op, transform, text, pending)
    {
      UndoPending();
      text := Apply(Invert(mine, text), text);
      text := Apply(op, text);
      RedoPending(op, transform);
    }

    /** Its own op coming home. */
    method ConfirmMine(op: Edit, transform: bool)
      requires pending != []
      modifies this
      ensures View() == ConfirmOwnOp(old(View()), op, transform)
    {
      ghost var c := View();
      var mine := pending[0];
      pending := pending[1..];
      ghost var rest := pending;
      seen := seen + 1;
      confirmed := confirmed + 1;
      if mine.pos != op.pos || Width(mine) != Width(op) {
        rolled := rolled + 1;
        Rebuild(mine, op, transform);
      }
      OwnConfirmed(c, op, transform, mine, rest, text, pending, rolled);
    }

    /** Somebody else's op. */
    method ConfirmTheirs(op: Edit, transform: bool)
      modifies this
      ensures View() == ConfirmOtherOp(old(View()), op, transform)
    {
      ghost var c := View();
      UndoPending();
      text := Apply(op, text);
      ghost var under := text;
      if |pending| > 0 {
        rolled := rolled + 1;
      }
      RedoPending(op, transform);
      seen := seen + 1;
      OtherConfirmed(c, op, transform, under, pending, rolled);
    }

    /** Rollback and replay, loop by loop, is `Confirm`. */
    method ApplyConfirmed(op: Edit, transform: bool)
      modifies this
      ensures View() == Confirm(old(View()), op, transform)
    {
      if |pending| > 0 && pending[0].id == op.id {
        ConfirmMine(op, transform);
      } else {
        ConfirmTheirs(op, transform);
      }
    }
  }

  // ----- The whole system

  // `inFlight` holds ops on their way to the server; `next` numbers typed ops.
  datatype World = World(transform: bool, initial: Text, log: seq<Edit>, serverText: Text,
                         inFlight: seq<Edit>, clients: map<Text, Client>, next: nat)

  // An author types, the server accepts any op in flight, a client takes its
  // next confirmation. Which happens when is the wire's choice.
  datatype Event = Type(actor: Text, kind: Kind, pos: int, text: Text, len: int) | Accept(i: nat) | Deliver(actor: Text)

  function Carried(o: Edit, log: seq<Edit>, transform: bool): Edit {
    if transform then TransformOver(o, log) else o
  }

  /** The op as the server logs it: carried over what its author had not seen. */
  function Logged(w: World, o: Edit): Edit
    requires o.base <= |w.log|
  {
    Carried(o, w.log[o.base..], w.transform).(base := |w.log|)
  }

  predicate Possible(w: World, e: Event) {
    match e
    case Type(actor, _, _, _, _) => actor in w.clients
    case Accept(i) => i < |w.inFlight| && w.inFlight[i].base <= |w.log|
    case Deliver(actor) => actor in w.clients && w.clients[actor].seen < |w.log|
  }

  function Happen(w: World, e: Event): World
    requires Possible(w, e)
  {
    match e
    case Type(actor, kind, pos, text, len) =>
      var c := w.clients[actor];
      var o := Edit(Typed(w.next), actor, kind, pos, text, len, c.seen);
      var d := c.(text := Apply(o, c.text), pending := c.pending + [o], predicted := c.predicted + 1);
      w.(clients := w.clients[actor := d], inFlight := w.inFlight + [o], next := w.next + 1)
    case Accept(i) =>
      var o := Logged(w, w.inFlight[i]);
      w.(serverText := Apply(o, w.serverText), log := w.log + [o],
         inFlight := w.inFlight[..i] + w.inFlight[i + 1..])
    case Deliver(actor) =>
      var c := w.clients[actor];
      w.(clients := w.clients[actor := Confirm(c, w.log[c.seen], w.transform)])
  }

  ghost predicate Plays(w: World, events: seq<Event>)
    decreases |events|
  {
    events != [] ==> Possible(w, events[0]) && Plays(Happen(w, events[0]), events[1..])
  }

  function RunAll(w: World, events: seq<Event>): World
    requires Plays(w, events)
    decreases |events|
  {
    if events == [] then w else RunAll(Happen(w, events[0]), events[1..])
  }

  /** The document after the first `k` log entries. */
  function Doc(w: World, k: nat): Text
    requires k <= |w.log|
  {
    ApplyAll(w.log[..k], w.initial)
  }

  // ----- What the authors and the wire do

  /** An author types in range of its text with fewer than `n` of its ops
      unconfirmed; without transform it only inserts. */
  predicate InTurn(w: World, e: Event, n: nat) {
    e.Type? && e.actor in w.clients ==>
      var c := w.clients[e.actor];
      && |c.pending| < n && (w.transform || e.kind == Insert)
      && InRange(Edit(Typed(w.next), e.actor, e.kind, e.pos, e.text, e.len, c.seen), |c.text|)
  }

  ghost predicate TakeTurns(w: World, events: seq<Event>, n: nat)
    requires Plays(w, events)
    decreases |events|
  {
    events != [] ==> InTurn(w, events[0], n) && TakeTurns(Happen(w, events[0]), events[1..], n)
  }

  /** Somebody else's op that reaches a client with a delete pending does not expose
      what undoing the delete got wrong. */
  predicate Harmless(w: World, e: Event) {
    match e
    case Deliver(actor) =>
      Possible(w, e) && w.clients[actor].pending != [] ==>
        var c := w.clients[actor];
        var p, op := c.pending[0], w.log[c.seen];
        p.kind == Delete && op.id != p.id ==>
          InRange(p, |Doc(w, c.seen)|) && InRange(op, |Doc(w, c.seen)|) && Survives(p, op, Doc(w, c.seen))
    case _ => true
  }

  ghost predicate AllHarmless(w: World, events: seq<Event>)
    requires Plays(w, events)
    decreases |events|
  {
    events != [] ==> Harmless(w, events[0]) && AllHarmless(Happen(w, events[0]), events[1..])
  }

  // ----- The counters

  /** Every typed op is still pending or was confirmed, and nothing is rolled back more often
      than something was received. */
  ghost predicate Balanced(c: Client) {
    |c.pending| + c.confirmed == c.predicted && c.confirmed <= c.seen && c.rolled <= c.seen
  }

  /** What one confirmation adds: always one seen, one confirmed where it is the client's own,
      and one rollback where something is pending and it is not its own unmoved. */
  lemma ConfirmCounts(c: Client, op: Edit, transform: bool)
    ensures var d := Confirm(c, op, transform);
      var own := c.pending != [] && c.pending[0].id == op.id;
      && d.seen == c.seen + 1 && d.predicted == c.predicted
      && d.confirmed == (if own then c.confirmed + 1 else c.confirmed)
      && |d.pending| == (if own then |c.pending| - 1 else |c.pending|)
      && (d.rolled == c.rolled + 1 || d.rolled == c.rolled)
      && (d.rolled == c.rolled <==> c.pending == [] || (own && c.pending[0].pos == op.pos && Width(c.pending[0]) == Width(op)))
  {
  }

  /** The counters balance through every run, in turn or not. */
  lemma {:induction false} CountersBalance(w: World, events: seq<Event>)
    requires Plays(w, events) && AllBalanced(w)
    ensures AllBalanced(RunAll(w, events))
    decreases |events|
  {
    if events != [] {
      EventBalances(w, events[0]);
      CountersBalance(Happen(w, events[0]), events[1..]);
    }
  }

  ghost predicate AllBalanced(w: World) {
    forall a :: a in w.clients ==> Balanced(w.clients[a])
  }

  lemma EventBalances(w: World, e: Event)
    requires Possible(w, e) && AllBalanced(w)
    ensures AllBalanced(Happen(w, e))
  {
    var v := Happen(w, e);
    if e.Deliver? {
      var c := w.clients[e.actor];
      ConfirmCounts(c, w.log[c.seen], w.transform);
    }
    forall a | a in v.clients ensures Balanced(v.clients[a]) {
      assert a in w.clients && Balanced(w.clients[a]);
    }
  }

  // ----- The invariant

  /** No log entry from `from` on is by `actor`. */
  ghost predicate NoneBy(w: World, actor: Text, from: nat) {
    forall k :: from <= k < |w.log| ==> w.log[k].actor != actor
  }

  /** The author of an op in flight holds it as its one pending op, carried over
      exactly the log entries it has seen since. */
  ghost predicate FlightOk(w: World, o: Edit) {
    && (w.transform || o.kind == Insert) && o.actor in w.clients
    && var c := w.clients[o.actor];
      && o.base <= c.seen <= |w.log| && InRange(o, |Doc(w, o.base)|)
      && c.pending == [Carried(o, w.log[o.base..c.seen], w.transform)]
      && NoneBy(w, o.actor, o.base)
  }

  /** `k` is the one unseen log entry by `actor`, and is what its pending op will have become by then. */
  ghost predicate ComesHomeAt(w: World, actor: Text, k: nat)
    requires actor in w.clients && |w.clients[actor].pending| == 1
  {
    var c := w.clients[actor];
    && c.seen <= k < |w.log|
    && w.log[k] == Carried(c.pending[0], w.log[c.seen..k], w.transform).(base := k)
    && (forall j :: c.seen <= j < |w.log| && j != k ==> w.log[j].actor != actor)
  }

  ghost predicate InFlightBy(w: World, actor: Text) {
    exists i :: 0 <= i < |w.inFlight| && w.inFlight[i].actor == actor
  }

  /** The client's text is its pending op, if any, applied to the document after
      the log entries it has seen. */
  ghost predicate PrefixConsistent(w: World, actor: Text)
    requires actor in w.clients
  {
    var c := w.clients[actor];
    c.seen <= |w.log| && c.text == ApplyAll(c.pending, Doc(w, c.seen))
  }

  /** Only `actor` has an op called `id`. */
  ghost predicate Owns(w: World, actor: Text, id: OpId) {
    forall o :: o in w.log || o in w.inFlight ==> o.id == id ==> o.actor == actor
  }

  /** The one op pending at `actor`, and how it will be confirmed. */
  ghost predicate PendingOk(w: World, actor: Text)
    requires actor in w.clients && |w.clients[actor].pending| == 1 && w.clients[actor].seen <= |w.log|
  {
    var c := w.clients[actor];
    var p := c.pending[0];
    && p.actor == actor && (w.transform || p.kind == Insert) && InRange(p, |Doc(w, c.seen)|)
    && p.id.Typed? && p.id.n < w.next && Owns(w, actor, p.id)
    && (InFlightBy(w, actor) || exists k :: ComesHomeAt(w, actor, k))
  }

  ghost predicate ClientOk(w: World, actor: Text)
    requires actor in w.clients
  {
    var c := w.clients[actor];
    && PrefixConsistent(w, actor) && |c.pending| <= 1
    && (c.pending == [] ==> !InFlightBy(w, actor) && NoneBy(w, actor, c.seen))
    && (c.pending != [] ==> PendingOk(w, actor))
  }

  ghost predicate LogOk(w: World) {
    && w.serverText == Doc(w, |w.log|)
    && (w.transform ==> LogInRange(w.log, w.initial))
    && (!w.transform ==> forall k :: 0 <= k < |w.log| ==> w.log[k].kind == Insert)
  }

  ghost predicate IdsOk(w: World) {
    forall o :: o in w.log || o in w.inFlight ==> o.id.Typed? && o.id.n < w.next
  }

  ghost predicate OneFlightEach(w: World) {
    forall i, j :: 0 <= i < j < |w.inFlight| ==> w.inFlight[i].actor != w.inFlight[j].actor
  }

  ghost predicate FlightsOk(w: World) {
    forall o :: o in w.inFlight ==> FlightOk(w, o)
  }

  ghost predicate ClientsOk(w: World) {
    forall actor :: actor in w.clients ==> ClientOk(w, actor)
  }

  ghost predicate Sound(w: World) {
    LogOk(w) && IdsOk(w) && OneFlightEach(w) && FlightsOk(w) && ClientsOk(w)
  }

  // ----- Carrying over longer logs

  lemma {:induction false} TransformOverAppend(o: Edit, a: seq<Edit>, b: seq<Edit>)
    ensures TransformOver(o, a + b) == TransformOver(TransformOver(o, a), b)
    decreases |a|
  {
    if a == [] {
      assert a + b == b;
    } else {
      assert (a + b)[1..] == a[1..] + b;
      TransformOverAppend(Transform(o, a[0]), a[1..], b);
    }
  }

  lemma {:induction false} ApplyAllAppend(a: seq<Edit>, b: seq<Edit>, s: Text)
    ensures ApplyAll(a + b, s) == ApplyAll(b, ApplyAll(a, s))
    ensures LogInRange(a + b, s) <==> LogInRange(a, s) && LogInRange(b, ApplyAll(a, s))
    decreases |a|
  {
    if a == [] {
      assert a + b == b;
    } else {
      assert (a + b)[1..] == a[1..] + b;
      ApplyAllAppend(a[1..], b, Apply(a[0], s));
    }
  }

  lemma {:induction false} TransformOverKeeps(o: Edit, log: seq<Edit>)
    ensures var t := TransformOver(o, log);
      t.actor == o.actor && t.id == o.id && t.kind == o.kind && t.base == o.base
    decreases |log|
  {
    if log != [] {
      TransformKeepsActor(o, log[0]);
      TransformOverKeeps(Transform(o, log[0]), log[1..]);
    }
  }

  lemma CarriedTwice(o: Edit, log: seq<Edit>, i: nat, j: nat, k: nat, transform: bool)
    requires i <= j <= k <= |log|
    ensures Carried(o, log[i..k], transform) == Carried(Carried(o, log[i..j], transform), log[j..k], transform)
    ensures var t := Carried(o, log[i..k], transform);
      t.actor == o.actor && t.id == o.id && t.kind == o.kind && t.base == o.base
  {
    assert log[i..k] == log[i..j] + log[j..k];
    TransformOverAppend(o, log[i..j], log[j..k]);
    TransformOverKeeps(o, log[i..k]);
  }

  lemma CarriedOne(p: Edit, log: seq<Edit>, j: nat, k: nat, transform: bool)
    requires j < k <= |log|
    ensures Carried(p, log[j..k], transform) == Carried(Moved(p, log[j], transform), log[j + 1..k], transform)
    ensures Carried(p, log[j..j + 1], transform) == Moved(p, log[j], transform)
    ensures Carried(p, log[j..j], transform) == p
  {
    assert log[j..k][0] == log[j] && log[j..k][1..] == log[j + 1..k];
    assert log[j..j + 1] == [log[j]] && [log[j]][1..] == [];
    assert TransformOver(p, [log[j]]) == TransformOver(Transform(p, log[j]), [log[j]][1..]);
  }

  lemma DocNext(w: World, k: nat)
    requires k < |w.log|
    ensures Doc(w, k + 1) == Apply(w.log[k], Doc(w, k))
  {
    assert w.log[..k + 1] == w.log[..k] + [w.log[k]];
    ApplyAllSnoc(w.log[..k], w.log[k], w.initial);
  }

  lemma RemoveOneActor(s: seq<Edit>, i: nat)
    requires i < |s| && forall j, k :: 0 <= j < k < |s| ==> s[j].actor != s[k].actor
    ensures var r := s[..i] + s[i + 1..];
      && (forall x :: x in r ==> x in s && x.actor != s[i].actor)
      && (forall x :: x in s && x.actor != s[i].actor ==> x in r)
  {
    var r := s[..i] + s[i + 1..];
    assert forall j :: 0 <= j < |r| ==> r[j] == s[if j < i then j else j + 1];
    forall x | x in s && x.actor != s[i].actor ensures x in r {
      var k :| 0 <= k < |s| && s[k] == x;
      assert x == r[if k < i then k else k - 1];
    }
  }

  // ----- What an event leaves alone

  /** Same log, same clients but perhaps one. */
  ghost predicate SameLog(w: World, v: World) {
    v.log == w.log && v.initial == w.initial && v.transform == w.transform && v.serverText == w.serverText
  }

  lemma FlightFrame(w: World, v: World, x: Edit)
    requires FlightOk(w, x) && SameLog(w, v) && x.actor in v.clients && v.clients[x.actor] == w.clients[x.actor]
    ensures FlightOk(v, x)
  {
    var c := w.clients[x.actor];
    assert Doc(v, x.base) == Doc(w, x.base);
  }

  lemma PendingFrame(w: World, v: World, b: Text)
    requires b in w.clients && b in v.clients && v.clients[b] == w.clients[b] && SameLog(w, v)
    requires |w.clients[b].pending| == 1 && w.clients[b].seen <= |w.log| && PendingOk(w, b)
    requires (InFlightBy(w, b) ==> InFlightBy(v, b)) && w.next <= v.next
    requires Owns(v, b, w.clients[b].pending[0].id)
    ensures PendingOk(v, b)
  {
    assert Doc(v, w.clients[b].seen) == Doc(w, w.clients[b].seen);
    if !InFlightBy(w, b) {
      var k: nat :| ComesHomeAt(w, b, k);
      assert ComesHomeAt(v, b, k);
    }
  }

  lemma ClientFrame(w: World, v: World, b: Text)
    requires b in w.clients && b in v.clients && v.clients[b] == w.clients[b] && SameLog(w, v)
    requires ClientOk(w, b) && (InFlightBy(w, b) <==> InFlightBy(v, b)) && w.next <= v.next
    requires w.clients[b].pending != [] ==> Owns(v, b, w.clients[b].pending[0].id)
    ensures ClientOk(v, b)
  {
    assert Doc(v, w.clients[b].seen) == Doc(w, w.clients[b].seen);
    if w.clients[b].pending == [] {
      assert NoneBy(w, b, w.clients[b].seen);
    } else {
      PendingFrame(w, v, b);
    }
  }

  // ----- Typing

  lemma InitialIsSound(w: World)
    requires w.log == [] && w.inFlight == [] && w.serverText == w.initial
    requires forall actor :: actor in w.clients ==> w.clients[actor] == Client(w.initial, [], 0, 0, 0, 0)
    ensures Sound(w)
  {
  }

  function NewOp(w: World, e: Event): Edit
    requires e.Type? && e.actor in w.clients
  {
    Edit(Typed(w.next), e.actor, e.kind, e.pos, e.text, e.len, w.clients[e.actor].seen)
  }

  lemma TypedIsInFlight(w: World, e: Event)
    requires Sound(w) && e.Type? && Possible(w, e) && InTurn(w, e, 1)
    ensures FlightOk(Happen(w, e), NewOp(w, e)) && InFlightBy(Happen(w, e), e.actor)
    ensures Happen(w, e).inFlight == w.inFlight + [NewOp(w, e)] && SameLog(w, Happen(w, e))
    ensures w.clients[e.actor].pending == [] && !InFlightBy(w, e.actor)
  {
    var v, o, c := Happen(w, e), NewOp(w, e), w.clients[e.actor];
    assert ClientOk(w, e.actor);
    assert w.log[c.seen..c.seen] == [];
    assert Doc(v, c.seen) == Doc(w, c.seen) == c.text;
    assert v.clients[e.actor].pending == [o] == [Carried(o, v.log[c.seen..c.seen], v.transform)];
    assert v.inFlight[|w.inFlight|] == o;
  }

  lemma TypeKeepsFlights(w: World, e: Event)
    requires Sound(w) && e.Type? && Possible(w, e) && InTurn(w, e, 1)
    ensures FlightsOk(Happen(w, e))
  {
    TypedIsInFlight(w, e);
    InFlightMeans(w, e.actor);
    var v := Happen(w, e);
    assert forall b :: b in w.clients && b != e.actor ==> b in v.clients && v.clients[b] == w.clients[b];
    OneFlightMore(w, v, NewOp(w, e));
  }

  lemma OneFlightMore(w: World, v: World, o: Edit)
    requires FlightsOk(w) && SameLog(w, v) && FlightOk(v, o) && v.inFlight == w.inFlight + [o]
    requires forall x :: x in w.inFlight ==> x.actor != o.actor
    requires forall b :: b in w.clients && b != o.actor ==> b in v.clients && v.clients[b] == w.clients[b]
    ensures FlightsOk(v)
  {
    forall x | x in v.inFlight ensures FlightOk(v, x) {
      if x != o {
        assert x in w.inFlight && FlightOk(w, x);
        FlightFrame(w, v, x);
      }
    }
  }

  lemma TypeKeepsOneEach(w: World, v: World, o: Edit)
    requires OneFlightEach(w) && IdsOk(w) && SameLog(w, v) && v.inFlight == w.inFlight + [o]
    requires !InFlightBy(w, o.actor) && o.id == Typed(w.next) && v.next == w.next + 1
    ensures OneFlightEach(v) && IdsOk(v)
  {
    forall i, j | 0 <= i < j < |v.inFlight| ensures v.inFlight[i].actor != v.inFlight[j].actor {
      assert w.inFlight[i].actor != o.actor;
    }
  }

  lemma TypeKeepsAuthor(w: World, e: Event)
    requires Sound(w) && e.Type? && Possible(w, e) && InTurn(w, e, 1)
    ensures ClientOk(Happen(w, e), e.actor)
  {
    TypedIsInFlight(w, e);
    var v, o, c := Happen(w, e), NewOp(w, e), w.clients[e.actor];
    assert ClientOk(w, e.actor);
    ApplyOne(o, o.base, c.text);
    assert Doc(v, c.seen) == Doc(w, c.seen) == c.text;
    assert v.clients[e.actor].pending == [o];
    assert Owns(v, e.actor, o.id);
  }

  lemma TypeKeepsOther(w: World, v: World, o: Edit, b: Text)
    requires b in w.clients && b in v.clients && v.clients[b] == w.clients[b] && ClientOk(w, b) && SameLog(w, v)
    requires v.inFlight == w.inFlight + [o] && o.actor != b && o.id == Typed(w.next) && w.next <= v.next
    ensures ClientOk(v, b)
  {
    if InFlightBy(w, b) {
      var i :| 0 <= i < |w.inFlight| && w.inFlight[i].actor == b;
      assert v.inFlight[i].actor == b;
    }
    ClientFrame(w, v, b);
  }

  lemma TypeKeepsClients(w: World, e: Event)
    requires Sound(w) && e.Type? && Possible(w, e) && InTurn(w, e, 1)
    ensures ClientsOk(Happen(w, e))
  {
    TypedIsInFlight(w, e);
    var v := Happen(w, e);
    forall b | b in v.clients ensures ClientOk(v, b) {
      if b == e.actor {
        TypeKeepsAuthor(w, e);
      } else {
        assert ClientOk(w, b);
        TypeKeepsOther(w, v, NewOp(w, e), b);
      }
    }
  }

  lemma LogFrame(w: World, v: World)
    requires LogOk(w) && SameLog(w, v)
    ensures LogOk(v)
  {
    assert Doc(v, |v.log|) == Doc(w, |w.log|);
  }

  lemma TypeKeepsSound(w: World, e: Event)
    requires Sound(w) && e.Type? && Possible(w, e) && InTurn(w, e, 1)
    ensures Sound(Happen(w, e))
  {
    TypedIsInFlight(w, e);
    LogFrame(w, Happen(w, e));
    TypeKeepsOneEach(w, Happen(w, e), NewOp(w, e));
    TypeKeepsFlights(w, e);
    TypeKeepsClients(w, e);
  }

  // ----- Accepting

  lemma CarriedMeets(o: Edit, log: seq<Edit>, b: nat, s: Text)
    requires b <= |log| && LogInRange(log, s) && InRange(o, |ApplyAll(log[..b], s)|)
    requires forall k :: b <= k < |log| ==> log[k].actor != o.actor
    ensures InRange(TransformOver(o, log[b..]), |ApplyAll(log, s)|)
    ensures Apply(TransformOver(o, log[b..]), ApplyAll(log, s))
         == ApplyAll(TransformEach(log[b..], o), Apply(o, ApplyAll(log[..b], s)))
  {
    assert log == log[..b] + log[b..];
    ApplyAllAppend(log[..b], log[b..], s);
    OrdersMeetOverLog(o, log[b..], ApplyAll(log[..b], s));
  }

  /** The accepted op is in range of the server text, and its effect there is its
      author's own text with the unseen log carried over the op. */
  lemma AcceptedMeetsAuthor(w: World, o: Edit)
    requires Sound(w) && o in w.inFlight && w.transform
    ensures o.base <= |w.log| && InRange(Logged(w, o), |w.serverText|)
    ensures Apply(Logged(w, o), w.serverText)
         == ApplyAll(TransformEach(w.log[o.base..], o), Apply(o, Doc(w, o.base)))
  {
    assert FlightOk(w, o);
    assert w.log[..|w.log|] == w.log;
    CarriedMeets(o, w.log, o.base, w.initial);
    BaseIsNoMatter(TransformOver(o, w.log[o.base..]), |w.log|, w.serverText);
  }

  lemma BaseIsNoMatter(o: Edit, base: nat, s: Text)
    ensures Apply(o.(base := base), s) == Apply(o, s)
    ensures InRange(o.(base := base), |s|) <==> InRange(o, |s|)
  {
  }

  /** The author's pending op becomes the new log entry. */
  lemma AcceptBringsHome(w: World, i: nat)
    requires Sound(w) && i < |w.inFlight| && Possible(w, Accept(i))
    ensures var o, v := w.inFlight[i], Happen(w, Accept(i));
      && o.actor in v.clients && |v.clients[o.actor].pending| == 1 && ComesHomeAt(v, o.actor, |w.log|)
      && v.log[|w.log|].actor == o.actor && v.log[|w.log|].id == o.id && v.log[|w.log|].kind == o.kind
  {
    assert FlightOk(w, w.inFlight[i]);
    LoggedComesHome(w, Happen(w, Accept(i)), w.inFlight[i]);
  }

  lemma LoggedComesHome(w: World, v: World, o: Edit)
    requires FlightOk(w, o) && o.base <= |w.log| && v.log == w.log + [Logged(w, o)]
    requires v.clients == w.clients && v.transform == w.transform
    ensures ComesHomeAt(v, o.actor, |w.log|)
    ensures Logged(w, o).actor == o.actor && Logged(w, o).id == o.id && Logged(w, o).kind == o.kind
  {
    var c := w.clients[o.actor];
    CarriedTwice(o, w.log, o.base, c.seen, |w.log|, w.transform);
    assert w.log[o.base..|w.log|] == w.log[o.base..];
    assert v.log[c.seen..|w.log|] == w.log[c.seen..|w.log|];
  }

  /** The server has taken `o`, the one op its author had in flight. */
  ghost predicate Took(w: World, v: World, o: Edit) {
    && v.clients == w.clients && v.initial == w.initial && v.transform == w.transform && v.next == w.next
    && |v.log| == |w.log| + 1 && v.log == w.log + [v.log[|w.log|]]
    && v.log[|w.log|].actor == o.actor && v.log[|w.log|].id == o.id && v.log[|w.log|].kind == o.kind
    && (forall x :: x in v.inFlight ==> x in w.inFlight && x.actor != o.actor)
    && (forall x :: x in w.inFlight && x.actor != o.actor ==> x in v.inFlight)
  }

  lemma AcceptTakes(w: World, i: nat)
    requires Sound(w) && i < |w.inFlight| && Possible(w, Accept(i))
    ensures Took(w, Happen(w, Accept(i)), w.inFlight[i])
  {
    var v := Happen(w, Accept(i));
    AcceptBringsHome(w, i);
    RemoveOneActor(w.inFlight, i);
    assert v.log == w.log + [v.log[|w.log|]];
  }

  lemma InFlightMeans(w: World, b: Text)
    ensures InFlightBy(w, b) <==> exists x :: x in w.inFlight && x.actor == b
  {
    if x :| x in w.inFlight && x.actor == b {
      var i :| 0 <= i < |w.inFlight| && w.inFlight[i] == x;
      assert w.inFlight[i].actor == b;
    }
  }

  lemma DocOfPrefix(w: World, v: World, k: nat)
    requires k <= |w.log| <= |v.log| && w.log <= v.log && v.initial == w.initial
    ensures Doc(v, k) == Doc(w, k) && v.log[..k] == w.log[..k]
  {
    assert v.log[..k] == w.log[..k];
  }

  lemma AcceptKeepsHome(w: World, v: World, b: Text, k: nat)
    requires b in w.clients && v.clients == w.clients && v.transform == w.transform && |w.clients[b].pending| == 1
    requires |v.log| == |w.log| + 1 && v.log == w.log + [v.log[|w.log|]] && v.log[|w.log|].actor != b
    requires ComesHomeAt(w, b, k)
    ensures ComesHomeAt(v, b, k)
  {
    assert v.log[w.clients[b].seen..k] == w.log[w.clients[b].seen..k];
    assert forall j :: 0 <= j < |w.log| ==> v.log[j] == w.log[j];
  }

  lemma TookKeepsOwner(w: World, v: World, o: Edit, b: Text, id: OpId)
    requires Took(w, v, o) && Owns(w, b, id) && (o.id == id ==> o.actor == b)
    ensures Owns(v, b, id)
  {
    forall x | x in v.log || x in v.inFlight ensures x.id == id ==> x.actor == b {
      assert x in w.log || x in w.inFlight || x == v.log[|w.log|];
    }
  }

  lemma AcceptKeepsOther(w: World, v: World, o: Edit, b: Text)
    requires Took(w, v, o) && b in w.clients && b != o.actor && ClientOk(w, b) && o in w.inFlight
    ensures ClientOk(v, b)
  {
    var c := w.clients[b];
    InFlightMeans(w, b);
    InFlightMeans(v, b);
    DocOfPrefix(w, v, c.seen);
    if c.pending == [] {
      assert NoneBy(v, b, c.seen);
    } else {
      TookKeepsOwner(w, v, o, b, c.pending[0].id);
      if !InFlightBy(w, b) {
        var k: nat :| ComesHomeAt(w, b, k);
        AcceptKeepsHome(w, v, b, k);
      }
      assert PendingOk(v, b);
    }
  }

  lemma AcceptKeepsAuthor(w: World, i: nat)
    requires Sound(w) && i < |w.inFlight| && Possible(w, Accept(i))
    ensures w.inFlight[i].actor in w.clients && ClientOk(Happen(w, Accept(i)), w.inFlight[i].actor)
  {
    var o, v := w.inFlight[i], Happen(w, Accept(i));
    var b := o.actor;
    AcceptBringsHome(w, i);
    AcceptTakes(w, i);
    assert FlightOk(w, o) && ClientOk(w, b);
    var c := w.clients[b];
    DocOfPrefix(w, v, c.seen);
    TookKeepsOwner(w, v, o, b, c.pending[0].id);
    assert PendingOk(v, b);
  }

  lemma AcceptKeepsFlight(w: World, v: World, o: Edit, x: Edit)
    requires Took(w, v, o) && FlightOk(w, x) && x.actor != o.actor
    ensures FlightOk(v, x)
  {
    var c := w.clients[x.actor];
    DocOfPrefix(w, v, x.base);
    assert v.log[x.base..c.seen] == w.log[x.base..c.seen];
    assert NoneBy(v, x.actor, x.base);
  }

  lemma AcceptKeepsRange(w: World, o: Edit)
    requires Sound(w) && o in w.inFlight && w.transform
    ensures o.base <= |w.log| && LogInRange(w.log + [Logged(w, o)], w.initial)
  {
    AcceptedMeetsAuthor(w, o);
    assert w.log[..|w.log|] == w.log;
    ApplyAllAppend(w.log, [Logged(w, o)], w.initial);
    assert [Logged(w, o)][1..] == [];
  }

  lemma AcceptKeepsText(w: World, i: nat)
    requires LogOk(w) && Possible(w, Accept(i))
    ensures var v := Happen(w, Accept(i)); v.serverText == Doc(v, |v.log|)
  {
    var v := Happen(w, Accept(i));
    assert v.log[|w.log|] == Logged(w, w.inFlight[i]);
    DocOfPrefix(w, v, |w.log|);
    DocNext(v, |w.log|);
  }

  /** The server text stays its log's, and every entry stays in range. */
  lemma AcceptKeepsLog(w: World, i: nat)
    requires Sound(w) && Possible(w, Accept(i))
    ensures LogOk(Happen(w, Accept(i)))
  {
    var o := w.inFlight[i];
    AcceptKeepsText(w, i);
    if w.transform {
      AcceptKeepsRange(w, o);
    } else {
      AcceptBringsHome(w, i);
      assert FlightOk(w, o);
    }
  }

  lemma AcceptKeepsFlights(w: World, i: nat)
    requires Sound(w) && Possible(w, Accept(i))
    ensures FlightsOk(Happen(w, Accept(i)))
  {
    var o, v := w.inFlight[i], Happen(w, Accept(i));
    AcceptTakes(w, i);
    forall x | x in v.inFlight ensures FlightOk(v, x) {
      assert FlightOk(w, x);
      AcceptKeepsFlight(w, v, o, x);
    }
  }

  lemma TookKeepsIds(w: World, v: World, o: Edit)
    requires Took(w, v, o) && IdsOk(w) && o in w.inFlight
    ensures IdsOk(v)
  {
    forall x | x in v.log || x in v.inFlight ensures x.id.Typed? && x.id.n < v.next {
      assert x in w.log || x in w.inFlight || x == v.log[|w.log|];
    }
  }

  lemma OneFlightLess(s: seq<Edit>, i: nat)
    requires i < |s| && forall j, k :: 0 <= j < k < |s| ==> s[j].actor != s[k].actor
    ensures var r := s[..i] + s[i + 1..]; forall j, k :: 0 <= j < k < |r| ==> r[j].actor != r[k].actor
  {
    var r := s[..i] + s[i + 1..];
    forall j, k | 0 <= j < k < |r| ensures r[j].actor != r[k].actor {
      assert r[j] == s[if j < i then j else j + 1] && r[k] == s[if k < i then k else k + 1];
    }
  }

  lemma AcceptKeepsClients(w: World, i: nat)
    requires Sound(w) && Possible(w, Accept(i))
    ensures ClientsOk(Happen(w, Accept(i)))
  {
    var o, v := w.inFlight[i], Happen(w, Accept(i));
    AcceptTakes(w, i);
    AcceptKeepsAuthor(w, i);
    forall b | b in v.clients ensures ClientOk(v, b) {
      if b != o.actor {
        assert ClientOk(w, b);
        AcceptKeepsOther(w, v, o, b);
      }
    }
  }

  lemma AcceptKeepsIds(w: World, i: nat)
    requires Sound(w) && Possible(w, Accept(i))
    ensures IdsOk(Happen(w, Accept(i)))
  {
    AcceptTakes(w, i);
    TookKeepsIds(w, Happen(w, Accept(i)), w.inFlight[i]);
  }

  lemma AcceptKeepsOneEach(w: World, i: nat)
    requires Sound(w) && Possible(w, Accept(i))
    ensures OneFlightEach(Happen(w, Accept(i)))
  {
    OneFlightLess(w.inFlight, i);
    assert Happen(w, Accept(i)).inFlight == w.inFlight[..i] + w.inFlight[i + 1..];
  }

  lemma AcceptKeepsSound(w: World, i: nat)
    requires Sound(w) && Possible(w, Accept(i))
    ensures Sound(Happen(w, Accept(i)))
  {
    AcceptKeepsLog(w, i);
    AcceptKeepsIds(w, i);
    AcceptKeepsOneEach(w, i);
    AcceptKeepsFlights(w, i);
    AcceptKeepsClients(w, i);
    SoundOfParts(Happen(w, Accept(i)));
  }

  lemma SoundOfParts(v: World)
    requires LogOk(v) && IdsOk(v) && OneFlightEach(v) && FlightsOk(v) && ClientsOk(v)
    ensures Sound(v)
  {
  }

  // ----- Delivering

  lemma InFlightIsUnlogged(w: World, b: Text)
    requires Sound(w) && b in w.clients && InFlightBy(w, b)
    ensures NoneBy(w, b, w.clients[b].seen)
  {
    var i :| 0 <= i < |w.inFlight| && w.inFlight[i].actor == b;
    assert FlightOk(w, w.inFlight[i]);
  }

  /** The entry a client receives next is its own exactly when it is its pending
      op come home, and then it equals the pending copy. */
  lemma OwnOpComesHome(w: World, b: Text)
    requires Sound(w) && Possible(w, Deliver(b))
    ensures var c, op := w.clients[b], w.log[w.clients[b].seen];
      && (c.pending == [] ==> op.actor != b)
      && (c.pending != [] ==> (op.id == c.pending[0].id <==> op.actor == b))
      && (c.pending != [] && op.actor == b ==>
            op == c.pending[0].(base := c.seen) && !InFlightBy(w, b) && NoneBy(w, b, c.seen + 1))
  {
    assert ClientOk(w, b);
    var c, op := w.clients[b], w.log[w.clients[b].seen];
    if c.pending != [] && op.actor == b {
      if InFlightBy(w, b) {
        InFlightIsUnlogged(w, b);
      }
      var k: nat :| ComesHomeAt(w, b, k);
      assert w.log[c.seen..c.seen] == [];
    }
  }

  lemma ApplyOne(p: Edit, base: nat, doc: Text)
    ensures ApplyAll([p], doc) == Apply(p, doc) == Apply(p.(base := base), doc)
  {
    assert [p][1..] == [];
  }

  lemma ConfirmIdle(c: Client, op: Edit, transform: bool)
    requires c.pending == []
    ensures var d := Confirm(c, op, transform);
      d.pending == [] && d.seen == c.seen + 1 && d.text == Apply(op, c.text)
  {
  }

  lemma ConfirmOwn(c: Client, p: Edit, op: Edit, transform: bool)
    requires c.pending == [p] && op == p.(base := op.base)
    ensures var d := Confirm(c, op, transform);
      d.pending == [] && d.seen == c.seen + 1 && d.text == c.text && d.rolled == c.rolled
  {
  }

  /** Somebody else's op under one pending op. */
  lemma ConfirmForeign(c: Client, p: Edit, op: Edit, doc: Text, transform: bool)
    requires c.pending == [p] && op.id != p.id && c.text == ApplyAll([p], doc)
    ensures var d := Confirm(c, op, transform);
      && d.pending == [Moved(p, op, transform)] && d.seen == c.seen + 1
      && d.text == Apply(Moved(p, op, transform), Apply(op, Undone(p, doc)))
  {
    var m := Moved(p, op, transform);
    ApplyOne(p, p.base, doc);
    assert [p][..0] == [];
    assert UndoAll(c.text, [p]) == UndoAll(Undone(p, doc), []) == Undone(p, doc);
    assert MovedAll([p], op, transform) == [m];
    ApplyOne(m, m.base, Apply(op, Undone(p, doc)));
  }

  lemma InsertUndone(p: Edit, doc: Text)
    requires p.kind == Insert && InRange(p, |doc|)
    ensures Undone(p, doc) == doc
  {
    RollbackExactness(p, doc);
  }

  /** A foreign op leaves the client on the next document with its own op moved past
      it: always over an insert, and over a delete exactly when the op survives. */
  lemma ConfirmForeignExactly(c: Client, p: Edit, op: Edit, doc: Text, transform: bool)
    requires c.pending == [p] && op.id != p.id && c.text == ApplyAll([p], doc) && InRange(p, |doc|)
    requires transform ==> InRange(op, |doc|)
    requires transform || p.kind == Insert
    ensures var d := Confirm(c, op, transform);
      d.text == ApplyAll(d.pending, Apply(op, doc)) <==> (p.kind == Delete ==> Survives(p, op, doc))
  {
    ConfirmForeign(c, p, op, doc, transform);
    ApplyOne(Moved(p, op, transform), p.base, Apply(op, doc));
    if p.kind == Insert {
      InsertUndone(p, doc);
    } else {
      RedoneExactly(p, op, doc);
    }
  }

  lemma MovedInRange(p: Edit, op: Edit, doc: Text, transform: bool)
    requires InRange(p, |doc|) && (if transform then InRange(op, |doc|) else p.kind == Insert && op.kind == Insert)
    ensures var t := Moved(p, op, transform);
      InRange(t, |Apply(op, doc)|) && t.kind == p.kind && t.actor == p.actor && t.id == p.id
  {
    if transform {
      TransformInRange(p, op, doc);
      TransformKeepsActor(p, op);
    }
  }

  lemma EntryInRange(w: World, k: nat)
    requires LogOk(w) && k < |w.log|
    ensures w.transform ==> InRange(w.log[k], |Doc(w, k)|)
  {
    assert w.log == w.log[..k] + w.log[k..];
    ApplyAllAppend(w.log[..k], w.log[k..], w.initial);
  }

  /** What a delivery does to the client's pending op. */
  lemma DeliveredPending(w: World, b: Text)
    requires Sound(w) && Possible(w, Deliver(b))
    ensures var c, op := w.clients[b], w.log[w.clients[b].seen];
            var d := Confirm(c, op, w.transform);
      && d.seen == c.seen + 1
      && d.pending == (if c.pending == [] || op.actor == b then [] else [Moved(c.pending[0], op, w.transform)])
  {
    assert ClientOk(w, b);
    OwnOpComesHome(w, b);
    var c, op := w.clients[b], w.log[w.clients[b].seen];
    if c.pending != [] {
      var p := c.pending[0];
      assert c.pending == [p];
      if op.actor == b {
        ConfirmOwn(c, p, op, w.transform);
      } else {
        ConfirmForeign(c, p, op, Doc(w, c.seen), w.transform);
      }
    }
  }

  /** The client stands on the next document, exactly when the delivery is harmless. */
  lemma DeliveredExactly(w: World, b: Text)
    requires Sound(w) && Possible(w, Deliver(b))
    ensures var c, op := w.clients[b], w.log[w.clients[b].seen];
            var d := Confirm(c, op, w.transform);
      d.text == ApplyAll(d.pending, Apply(op, Doc(w, c.seen))) <==> Harmless(w, Deliver(b))
  {
    assert ClientOk(w, b);
    OwnOpComesHome(w, b);
    var c, op := w.clients[b], w.log[w.clients[b].seen];
    EntryInRange(w, c.seen);
    if c.pending == [] {
      ConfirmIdle(c, op, w.transform);
    } else {
      var p := c.pending[0];
      assert c.pending == [p];
      if op.actor == b {
        ConfirmOwn(c, p, op, w.transform);
        ApplyOne(p, c.seen, Doc(w, c.seen));
      } else {
        ConfirmForeignExactly(c, p, op, Doc(w, c.seen), w.transform);
      }
    }
  }

  /** A delivery keeps its client prefix-consistent exactly when it is harmless. */
  lemma DeliverKeepsPrefixExactly(w: World, b: Text)
    requires Sound(w) && Possible(w, Deliver(b))
    ensures PrefixConsistent(Happen(w, Deliver(b)), b) <==> Harmless(w, Deliver(b))
  {
    var c, v := w.clients[b], Happen(w, Deliver(b));
    DeliveredPending(w, b);
    DeliveredExactly(w, b);
    DocNext(w, c.seen);
    assert Doc(v, c.seen + 1) == Doc(w, c.seen + 1);
  }

  lemma DeliverKeepsPending(w: World, b: Text)
    requires Sound(w) && Possible(w, Deliver(b))
    requires w.clients[b].pending != [] && w.log[w.clients[b].seen].actor != b
    ensures var v := Happen(w, Deliver(b));
      b in v.clients && |v.clients[b].pending| == 1 && v.clients[b].seen <= |v.log| && PendingOk(v, b)
  {
    var c, v := w.clients[b], Happen(w, Deliver(b));
    assert ClientOk(w, b);
    DeliveredPending(w, b);
    DocNext(w, c.seen);
    assert Doc(v, c.seen + 1) == Doc(w, c.seen + 1);
    EntryInRange(w, c.seen);
    MovedInRange(c.pending[0], w.log[c.seen], Doc(w, c.seen), w.transform);
    assert Owns(w, b, c.pending[0].id);
    assert Owns(v, b, c.pending[0].id);
    if InFlightBy(w, b) {
      assert InFlightBy(v, b);
    } else {
      StillComesHome(w, b);
    }
  }

  lemma DeliverKeepsClient(w: World, b: Text)
    requires Sound(w) && Possible(w, Deliver(b)) && Harmless(w, Deliver(b))
    ensures ClientOk(Happen(w, Deliver(b)), b)
  {
    var c, v := w.clients[b], Happen(w, Deliver(b));
    assert ClientOk(w, b);
    OwnOpComesHome(w, b);
    DeliveredPending(w, b);
    DeliverKeepsPrefixExactly(w, b);
    assert InFlightBy(v, b) <==> InFlightBy(w, b);
    if c.pending != [] && w.log[c.seen].actor != b {
      DeliverKeepsPending(w, b);
    } else {
      assert NoneBy(w, b, c.seen + 1);
      assert NoneBy(v, b, c.seen + 1);
    }
  }

  lemma StillComesHome(w: World, b: Text)
    requires Sound(w) && Possible(w, Deliver(b)) && |w.clients[b].pending| == 1 && !InFlightBy(w, b)
    requires w.log[w.clients[b].seen].actor != b
    ensures var v := Happen(w, Deliver(b));
      b in v.clients && |v.clients[b].pending| == 1 && exists k :: ComesHomeAt(v, b, k)
  {
    assert ClientOk(w, b);
    DeliveredPending(w, b);
    var k: nat :| ComesHomeAt(w, b, k);
    HomeStays(w, Happen(w, Deliver(b)), b, k);
  }

  /** With one more entry seen, the pending op still comes home where it did. */
  lemma HomeStays(w: World, v: World, b: Text, k: nat)
    requires b in w.clients && b in v.clients && SameLog(w, v) && |w.clients[b].pending| == 1 && ComesHomeAt(w, b, k)
    requires w.clients[b].pending[0].actor == b && w.log[w.clients[b].seen].actor != b
    requires v.clients[b].seen == w.clients[b].seen + 1
    requires v.clients[b].pending == [Moved(w.clients[b].pending[0], w.log[w.clients[b].seen], w.transform)]
    ensures ComesHomeAt(v, b, k)
  {
    HomeMoves(w.clients[b].pending[0], w.log, w.clients[b].seen, k, w.transform);
  }

  lemma HomeMoves(p: Edit, log: seq<Edit>, seen: nat, k: nat, transform: bool)
    requires seen <= k < |log| && log[k] == Carried(p, log[seen..k], transform).(base := k)
    ensures log[k].actor == p.actor
    ensures k > seen ==> log[k] == Carried(Moved(p, log[seen], transform), log[seen + 1..k], transform).(base := k)
  {
    TransformOverKeeps(p, log[seen..k]);
    if k > seen {
      CarriedOne(p, log, seen, k, transform);
    }
  }

  lemma DeliverKeepsOther(w: World, b: Text, a: Text)
    requires Sound(w) && Possible(w, Deliver(b)) && a in w.clients && a != b
    ensures ClientOk(Happen(w, Deliver(b)), a)
  {
    var v := Happen(w, Deliver(b));
    assert ClientOk(w, a);
    assert InFlightBy(v, a) <==> InFlightBy(w, a);
    if w.clients[a].pending != [] {
      assert Owns(w, a, w.clients[a].pending[0].id);
      assert Owns(v, a, w.clients[a].pending[0].id);
    }
    ClientFrame(w, v, a);
  }

  lemma CarriedOnward(o: Edit, log: seq<Edit>, base: nat, seen: nat, p: Edit, transform: bool)
    requires base <= seen < |log| && p == Carried(o, log[base..seen], transform)
    ensures Moved(p, log[seen], transform) == Carried(o, log[base..seen + 1], transform)
  {
    CarriedTwice(o, log, base, seen, seen + 1, transform);
    CarriedOne(p, log, seen, seen + 1, transform);
  }

  lemma OwnFlightMoves(w: World, v: World, x: Edit)
    requires FlightOk(w, x) && SameLog(w, v) && x.actor in v.clients && w.clients[x.actor].seen < |w.log|
    requires var c, d := w.clients[x.actor], v.clients[x.actor];
      d.seen == c.seen + 1 && d.pending == [Moved(c.pending[0], w.log[c.seen], w.transform)]
    ensures FlightOk(v, x)
  {
    var c := w.clients[x.actor];
    CarriedOnward(x, w.log, x.base, c.seen, c.pending[0], w.transform);
    assert Doc(v, x.base) == Doc(w, x.base);
    assert NoneBy(v, x.actor, x.base);
  }

  lemma DeliverKeepsFlight(w: World, b: Text, x: Edit)
    requires Sound(w) && Possible(w, Deliver(b)) && x in w.inFlight
    ensures FlightOk(Happen(w, Deliver(b)), x)
  {
    var v := Happen(w, Deliver(b));
    assert FlightOk(w, x);
    if x.actor == b {
      assert w.log[w.clients[b].seen].actor != b;
      DeliveredPending(w, b);
      OwnFlightMoves(w, v, x);
    } else {
      FlightFrame(w, v, x);
    }
  }

  lemma DeliverKeepsClients(w: World, b: Text)
    requires Sound(w) && Possible(w, Deliver(b)) && Harmless(w, Deliver(b))
    ensures ClientsOk(Happen(w, Deliver(b)))
  {
    var v := Happen(w, Deliver(b));
    forall a | a in v.clients ensures ClientOk(v, a) {
      if a == b {
        DeliverKeepsClient(w, b);
      } else {
        DeliverKeepsOther(w, b, a);
      }
    }
  }

  lemma DeliverKeepsSound(w: World, b: Text)
    requires Sound(w) && Possible(w, Deliver(b)) && Harmless(w, Deliver(b))
    ensures Sound(Happen(w, Deliver(b)))
  {
    var v := Happen(w, Deliver(b));
    LogFrame(w, v);
    assert OneFlightEach(w) && IdsOk(w);
    assert OneFlightEach(v) && IdsOk(v);
    forall x | x in v.inFlight ensures FlightOk(v, x) {
      DeliverKeepsFlight(w, b, x);
    }
    DeliverKeepsClients(w, b);
  }

  // ----- Whole runs

  lemma EventKeepsSound(w: World, e: Event)
    requires Sound(w) && Possible(w, e) && InTurn(w, e, 1) && Harmless(w, e)
    ensures Sound(Happen(w, e))
  {
    match e {
      case Type(_, _, _, _, _) => TypeKeepsSound(w, e);
      case Accept(i) => AcceptKeepsSound(w, i);
      case Deliver(actor) => DeliverKeepsSound(w, actor);
    }
  }

  /** In every run, with transform on or off and whatever order the wire delivers
      in, every client stays prefix-consistent and the server text is its log's. */
  lemma {:induction false} RunsStaySound(w: World, events: seq<Event>)
    requires Sound(w) && Plays(w, events) && TakeTurns(w, events, 1) && AllHarmless(w, events)
    ensures Sound(RunAll(w, events))
    decreases |events|
  {
    if events != [] {
      EventKeepsSound(w, events[0]);
      RunsStaySound(Happen(w, events[0]), events[1..]);
    }
  }

  /** Every client is prefix-consistent now and after each event. */
  ghost predicate AlwaysConsistent(w: World, events: seq<Event>)
    requires Plays(w, events)
    decreases |events|
  {
    && (forall actor :: actor in w.clients ==> PrefixConsistent(w, actor))
    && (events != [] ==> AlwaysConsistent(Happen(w, events[0]), events[1..]))
  }

  /** With one op at a time, a run keeps every client prefix-consistent throughout
      exactly when none of its deliveries does harm. */
  lemma {:induction false} ConsistentExactly(w: World, events: seq<Event>)
    requires Sound(w) && Plays(w, events) && TakeTurns(w, events, 1)
    ensures AlwaysConsistent(w, events) <==> AllHarmless(w, events)
    decreases |events|
  {
    forall actor | actor in w.clients ensures PrefixConsistent(w, actor) {
      assert ClientOk(w, actor);
    }
    if events != [] {
      var v := Happen(w, events[0]);
      if Harmless(w, events[0]) {
        EventKeepsSound(w, events[0]);
        ConsistentExactly(v, events[1..]);
      } else {
        DeliverKeepsPrefixExactly(w, events[0].actor);
        assert events[0].actor in v.clients;
      }
    }
  }

  /** A client with nothing pending that has seen the whole log shows the server's text. */
  lemma SettledClientsAgree(w: World, actor: Text)
    requires Sound(w) && actor in w.clients && w.clients[actor].pending == [] && w.clients[actor].seen == |w.log|
    ensures w.clients[actor].text == w.serverText
  {
    assert ClientOk(w, actor);
  }

  ghost predicate Starts(w: World) {
    && w.log == [] && w.inFlight == [] && w.serverText == w.initial
    && forall a :: a in w.clients ==> w.clients[a] == Client(w.initial, [], 0, 0, 0, 0)
  }

  /** Every run from the start: prefix consistency, and agreement once settled. */
  lemma EveryRunConverges(w: World, events: seq<Event>, actor: Text)
    requires Starts(w) && Plays(w, events) && TakeTurns(w, events, 1) && AllHarmless(w, events)
    requires actor in RunAll(w, events).clients
    ensures var v := RunAll(w, events);
      && PrefixConsistent(v, actor)
      && v.serverText == Doc(v, |v.log|)
      && (v.clients[actor].pending == [] && v.clients[actor].seen == |v.log| ==> v.clients[actor].text == v.serverText)
  {
    InitialIsSound(w);
    RunsStaySound(w, events);
    var v := RunAll(w, events);
    assert ClientOk(v, actor);
    if v.clients[actor].pending == [] && v.clients[actor].seen == |v.log| {
      SettledClientsAgree(v, actor);
    }
  }

  // ----- Runs without deletes

  ghost predicate OnlyInserts(events: seq<Event>) {
    forall e :: e in events && e.Type? ==> e.kind == Insert
  }

  ghost predicate PendingInserts(w: World) {
    forall actor :: actor in w.clients ==> forall p :: p in w.clients[actor].pending ==> p.kind == Insert
  }

  lemma MovedKeepsInserts(pending: seq<Edit>, op: Edit, transform: bool)
    requires forall p :: p in pending ==> p.kind == Insert
    ensures forall p :: p in MovedAll(pending, op, transform) ==> p.kind == Insert
  {
    forall p | p in MovedAll(pending, op, transform) ensures p.kind == Insert {
      var i :| 0 <= i < |pending| && p == Moved(pending[i], op, transform);
      TransformKeepsActor(pending[i], op);
    }
  }

  lemma ConfirmKeepsInserts(c: Client, op: Edit, transform: bool)
    requires forall p :: p in c.pending ==> p.kind == Insert
    ensures forall p :: p in Confirm(c, op, transform).pending ==> p.kind == Insert
  {
    MovedKeepsInserts(c.pending, op, transform);
    if c.pending != [] {
      MovedKeepsInserts(c.pending[1..], op, transform);
    }
  }

  lemma EventKeepsInserts(w: World, e: Event)
    requires PendingInserts(w) && Possible(w, e) && (e.Type? ==> e.kind == Insert)
    ensures PendingInserts(Happen(w, e))
  {
    if e.Deliver? {
      var c := w.clients[e.actor];
      ConfirmKeepsInserts(c, w.log[c.seen], w.transform);
    }
  }

  /** Where nobody deletes, no delivery does harm, so every run of inserts converges. */
  lemma {:induction false} InsertsAreHarmless(w: World, events: seq<Event>)
    requires PendingInserts(w) && Plays(w, events) && OnlyInserts(events)
    ensures AllHarmless(w, events)
    decreases |events|
  {
    if events != [] {
      assert events[0] in events;
      if events[0].Deliver? && w.clients[events[0].actor].pending != [] {
        assert w.clients[events[0].actor].pending[0].kind == Insert;
      }
      EventKeepsInserts(w, events[0]);
      InsertsAreHarmless(Happen(w, events[0]), events[1..]);
    }
  }
}
