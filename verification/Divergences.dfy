// Runs in which a client ends with another text than the server.

module Divergences {
  // Two authors, transform on: the bound of one outstanding op and the condition on
  // deletes are both needed.

  import opened Blocks
  import opened Transforms
  import opened Deletes
  import opened Simulations

  const ANN: Text := [97]
  const BOB: Text := [98]

  function Between(initial: Text, log: seq<Edit>, server: Text, inFlight: seq<Edit>, ann: Client, bob: Client, next: nat): World {
    World(true, initial, log, server, inFlight, map[ANN := ann, BOB := bob], next)
  }

  function Fresh(initial: Text): Client {
    Client(initial, [], 0, 0, 0, 0)
  }

  ghost predicate Settled(w: World, actor: Text)
    requires actor in w.clients
  {
    w.inFlight == [] && w.clients[actor].pending == [] && w.clients[actor].seen == |w.log|
  }

  // ----- What one event does

  function Typing(initial: Text, log: seq<Edit>, server: Text, inFlight: seq<Edit>, ann: Client, bob: Client, next: nat, o: Edit): World {
    var c := if o.actor == ANN then ann else bob;
    var d := c.(text := Apply(o, c.text), pending := c.pending + [o], predicted := c.predicted + 1);
    Between(initial, log, server, inFlight + [o], if o.actor == ANN then d else ann, if o.actor == ANN then bob else d, next + 1)
  }

  lemma Types(initial: Text, log: seq<Edit>, server: Text, inFlight: seq<Edit>, ann: Client, bob: Client, next: nat, o: Edit)
    requires (o.actor == ANN && o.base == ann.seen) || (o.actor == BOB && o.base == bob.seen)
    requires o.id == Typed(next)
    ensures var w, e := Between(initial, log, server, inFlight, ann, bob, next), Type(o.actor, o.kind, o.pos, o.text, o.len);
      Possible(w, e) && Happen(w, e) == Typing(initial, log, server, inFlight, ann, bob, next, o)
  {
    var m := map[ANN := ann, BOB := bob];
    var c := m[o.actor];
    var d := c.(text := Apply(o, c.text), pending := c.pending + [o], predicted := c.predicted + 1);
    assert m[o.actor := d] == map[ANN := if o.actor == ANN then d else ann, BOB := if o.actor == ANN then bob else d];
  }

  lemma AnnTakes(initial: Text, log: seq<Edit>, server: Text, inFlight: seq<Edit>, ann: Client, bob: Client, next: nat)
    requires ann.seen < |log|
    ensures var w := Between(initial, log, server, inFlight, ann, bob, next);
      && Possible(w, Deliver(ANN))
      && Happen(w, Deliver(ANN)) == Between(initial, log, server, inFlight, Confirm(ann, log[ann.seen], true), bob, next)
  {
    var d := Confirm(ann, log[ann.seen], true);
    assert map[ANN := ann, BOB := bob][ANN := d] == map[ANN := d, BOB := bob];
  }

  lemma Accepts(initial: Text, log: seq<Edit>, server: Text, o: Edit, rest: seq<Edit>, ann: Client, bob: Client, next: nat, x: Edit)
    requires o.base <= |log| && x == TransformOver(o, log[o.base..]).(base := |log|)
    ensures var w := Between(initial, log, server, [o] + rest, ann, bob, next);
      && Possible(w, Accept(0))
      && Happen(w, Accept(0)) == Between(initial, log + [x], Apply(x, server), rest, ann, bob, next)
  {
    var flight, w := [o] + rest, Between(initial, log, server, [o] + rest, ann, bob, next);
    assert flight[..0] + flight[1..] == rest && w.inFlight[0] == o;
    assert Logged(w, o) == x;
  }

  lemma TransformOverOne(o: Edit, a: Edit)
    ensures TransformOver(o, [a]) == Transform(o, a)
  {
    assert [a][1..] == [];
  }

  lemma TransformOverTwo(o: Edit, a: Edit, b: Edit)
    ensures TransformOver(o, [a, b]) == Transform(Transform(o, a), b)
  {
    assert [a, b][1..] == [b];
    TransformOverOne(Transform(o, a), b);
  }

  // ----- Two ops outstanding

  function Key(n: nat, actor: Text, pos: int, letter: Byte, base: nat): Edit {
    Edit(Typed(n), actor, Insert, pos, [letter], 0, base)
  }

  const A0 := Key(0, ANN, 0, 97, 0)
  const B0 := Key(1, ANN, 0, 98, 0)
  const B1 := Key(1, ANN, 1, 98, 1)
  const C0 := Key(2, BOB, 0, 99, 0)
  const C2 := Key(2, BOB, 2, 99, 2)
  const D2 := Key(3, ANN, 2, 100, 1)
  const D3 := Key(3, ANN, 3, 100, 1)
  const D4 := Key(3, ANN, 4, 100, 1)
  const LOGGED := Key(3, ANN, 4, 100, 3)

  /** Ann has typed two keys and Bob one. */
  function Typed3(): World {
    Between([], [], [], [A0, B0, C0], Client([98, 97], [A0, B0], 0, 2, 0, 0), Client([99], [C0], 0, 1, 0, 0), 3)
  }

  /** The server has taken all three. */
  function Accepted3(): World {
    Between([], [A0, B1, C2], [97, 98, 99], [], Client([98, 97], [A0, B0], 0, 2, 0, 0), Client([99], [C0], 0, 1, 0, 0), 3)
  }

  /** Ann has seen her first key, typed another, and the server has taken it. */
  function Accepted4(): World {
    Between([], [A0, B1, C2, LOGGED], [97, 98, 99, 100], [],
            Client([98, 97, 100], [B0, D2], 1, 3, 1, 0), Client([99], [C0], 0, 1, 0, 0), 4)
  }

  function Delivered4(): World {
    Between([], [A0, B1, C2, LOGGED], [97, 98, 99, 100], [],
            Client([97, 98, 99, 100, 100], [], 4, 3, 3, 2), Client([99], [C0], 0, 1, 0, 0), 4)
  }

  ghost predicate Leads(w: World, events: seq<Event>, v: World, n: nat) {
    Plays(w, events) && TakeTurns(w, events, n) && RunAll(w, events) == v
  }

  lemma {:induction false} LeadsOn(w: World, a: seq<Event>, v: World, b: seq<Event>, x: World, n: nat)
    requires Leads(w, a, v, n) && Leads(v, b, x, n)
    ensures Leads(w, a + b, x, n)
    decreases |a|
  {
    if a == [] {
      assert a + b == b;
    } else {
      assert (a + b)[1..] == a[1..] + b && (a + b)[0] == a[0];
      LeadsOn(Happen(w, a[0]), a[1..], v, b, x, n);
    }
  }

  lemma Step(w: World, e: Event, v: World, n: nat)
    requires Possible(w, e) && Happen(w, e) == v && InTurn(w, e, n)
    ensures Leads(w, [e], v, n)
  {
    assert [e][1..] == [];
  }

  lemma InsertsJoin(a: seq<Event>, b: seq<Event>)
    requires OnlyInserts(a) && OnlyInserts(b)
    ensures OnlyInserts(a + b)
  {
  }

  lemma NamesDiffer()
    ensures ANN != BOB && Less(ANN, BOB) && !Less(BOB, ANN) && !Less(ANN, ANN)
  {
  }

  lemma LeadsThree(w: World, e1: Event, w1: World, e2: Event, w2: World, e3: Event, w3: World, n: nat)
    requires Leads(w, [e1], w1, n) && Leads(w1, [e2], w2, n) && Leads(w2, [e3], w3, n)
    ensures Leads(w, [e1] + [e2] + [e3], w3, n)
  {
    LeadsOn(w, [e1], w1, [e2], w2, n);
    LeadsOn(w, [e1] + [e2], w2, [e3], w3, n);
  }

  const NONE: seq<Edit> := []

  function Start(): World {
    Between([], [], [], [], Fresh([]), Fresh([]), 0)
  }

  function Typed1(): World {
    Between([], [], [], [A0], Client([97], [A0], 0, 1, 0, 0), Fresh([]), 1)
  }

  function Typed2(): World {
    Between([], [], [], [A0, B0], Client([98, 97], [A0, B0], 0, 2, 0, 0), Fresh([]), 2)
  }

  lemma FirstTyped()
    ensures Leads(Start(), [Type(ANN, Insert, 0, [97], 0)], Typed1(), 2)
  {
    assert Apply(A0, []) == [97] && NONE + [A0] == [A0];
    Types([], [], [], [], Fresh([]), Fresh([]), 0, A0);
    Step(Start(), Type(ANN, Insert, 0, [97], 0), Typed1(), 2);
  }

  lemma SecondTyped()
    ensures Leads(Typed1(), [Type(ANN, Insert, 0, [98], 0)], Typed2(), 2)
  {
    assert Apply(B0, [97]) == [98, 97] && [A0] + [B0] == [A0, B0];
    Types([], [], [], [A0], Client([97], [A0], 0, 1, 0, 0), Fresh([]), 1, B0);
    Step(Typed1(), Type(ANN, Insert, 0, [98], 0), Typed2(), 2);
  }

  lemma ThirdTyped()
    ensures Leads(Typed2(), [Type(BOB, Insert, 0, [99], 0)], Typed3(), 2)
  {
    NamesDiffer();
    assert Apply(C0, []) == [99] && [A0, B0] + [C0] == [A0, B0, C0] && NONE + [C0] == [C0];
    Types([], [], [], [A0, B0], Client([98, 97], [A0, B0], 0, 2, 0, 0), Fresh([]), 2, C0);
    Step(Typed2(), Type(BOB, Insert, 0, [99], 0), Typed3(), 2);
  }

  lemma ThreeTyped()
    ensures Leads(Start(), [Type(ANN, Insert, 0, [97], 0)] + [Type(ANN, Insert, 0, [98], 0)] + [Type(BOB, Insert, 0, [99], 0)], Typed3(), 2)
  {
    FirstTyped();
    SecondTyped();
    ThirdTyped();
    LeadsThree(Start(), Type(ANN, Insert, 0, [97], 0), Typed1(), Type(ANN, Insert, 0, [98], 0), Typed2(),
               Type(BOB, Insert, 0, [99], 0), Typed3(), 2);
  }

  const ANN2 := Client([98, 97], [A0, B0], 0, 2, 0, 0)
  const BOB1 := Client([99], [C0], 0, 1, 0, 0)

  function Accepted1(): World {
    Between([], [A0], [97], [B0, C0], ANN2, BOB1, 3)
  }

  function Accepted2(): World {
    Between([], [A0, B1], [97, 98], [C0], ANN2, BOB1, 3)
  }

  lemma FirstAccepted()
    ensures Leads(Typed3(), [Accept(0)], Accepted1(), 2)
  {
    assert Apply(A0, []) == [97] && [A0, B0, C0] == [A0] + [B0, C0] && NONE + [A0] == [A0] && NONE[0..] == NONE;
    Accepts([], [], [], A0, [B0, C0], ANN2, BOB1, 3, A0);
    Step(Typed3(), Accept(0), Accepted1(), 2);
  }

  lemma SecondAccepted()
    ensures Leads(Accepted1(), [Accept(0)], Accepted2(), 2)
  {
    NamesDiffer();
    assert Apply(B1, [97]) == [97, 98] && [B0, C0] == [B0] + [C0] && [A0] + [B1] == [A0, B1] && [A0][0..] == [A0];
    TransformOverOne(B0, A0);
    Accepts([], [A0], [97], B0, [C0], ANN2, BOB1, 3, B1);
    Step(Accepted1(), Accept(0), Accepted2(), 2);
  }

  lemma ThirdAccepted()
    ensures Leads(Accepted2(), [Accept(0)], Accepted3(), 2)
  {
    NamesDiffer();
    assert Apply(C2, [97, 98]) == [97, 98, 99] && [C0] == [C0] + NONE && [A0, B1] + [C2] == [A0, B1, C2];
    assert [A0, B1][0..] == [A0, B1];
    TransformOverTwo(C0, A0, B1);
    Accepts([], [A0, B1], [97, 98], C0, NONE, ANN2, BOB1, 3, C2);
    Step(Accepted2(), Accept(0), Accepted3(), 2);
  }

  lemma ThreeAccepted()
    ensures Leads(Typed3(), [Accept(0)] + [Accept(0)] + [Accept(0)], Accepted3(), 2)
  {
    FirstAccepted();
    SecondAccepted();
    ThirdAccepted();
    LeadsThree(Typed3(), Accept(0), Accepted1(), Accept(0), Accepted2(), Accept(0), Accepted3(), 2);
  }

  function Taken1(): World {
    Between([], [A0, B1, C2], [97, 98, 99], [], Client([98, 97], [B0], 1, 2, 1, 0), BOB1, 3)
  }

  function Typed4(): World {
    Between([], [A0, B1, C2], [97, 98, 99], [D2], Client([98, 97, 100], [B0, D2], 1, 3, 1, 0), BOB1, 4)
  }

  lemma FirstTaken()
    ensures Leads(Accepted3(), [Deliver(ANN)], Taken1(), 2)
  {
    assert [A0, B0][1..] == [B0];
    AnnTakes([], [A0, B1, C2], [97, 98, 99], [], ANN2, BOB1, 3);
    Step(Accepted3(), Deliver(ANN), Taken1(), 2);
  }

  lemma FourthTyped()
    ensures Leads(Taken1(), [Type(ANN, Insert, 2, [100], 0)], Typed4(), 2)
  {
    assert Apply(D2, [98, 97]) == [98, 97, 100];
    assert NONE + [D2] == [D2] && [B0] + [D2] == [B0, D2];
    Types([], [A0, B1, C2], [97, 98, 99], [], Client([98, 97], [B0], 1, 2, 1, 0), BOB1, 3, D2);
    Step(Taken1(), Type(ANN, Insert, 2, [100], 0), Typed4(), 2);
  }

  lemma FourthLogged()
    ensures Leads(Typed4(), [Accept(0)], Accepted4(), 2)
  {
    NamesDiffer();
    var log, server := [A0, B1, C2], [97, 98, 99];
    assert log[1..] == [B1, C2] && [D2] == [D2] + NONE && log + [LOGGED] == [A0, B1, C2, LOGGED];
    TransformOverTwo(D2, B1, C2);
    assert Apply(LOGGED, server) == [97, 98, 99, 100];
    Accepts([], log, server, D2, NONE, Client([98, 97, 100], [B0, D2], 1, 3, 1, 0), BOB1, 4, LOGGED);
    Step(Typed4(), Accept(0), Accepted4(), 2);
  }

  lemma FourthAccepted()
    ensures Leads(Accepted3(), [Deliver(ANN)] + [Type(ANN, Insert, 2, [100], 0)] + [Accept(0)], Accepted4(), 2)
  {
    FirstTaken();
    FourthTyped();
    FourthLogged();
    LeadsThree(Accepted3(), Deliver(ANN), Taken1(), Type(ANN, Insert, 2, [100], 0), Typed4(), Accept(0), Accepted4(), 2);
  }

  /** Her second key comes home moved: her third is taken off and laid again. */
  lemma SecondConfirmed()
    ensures Confirm(Client([98, 97, 100], [B0, D2], 1, 3, 1, 0), B1, true) == Client([97, 98, 100], [D3], 2, 3, 2, 1)
  {
    NamesDiffer();
    assert [B0, D2][1..] == [D2] && [D2][..0] == [] && [D3][1..] == [];
    assert MovedAll([D2], B1, true) == [D3];
    assert Apply(Invert(D2, [98, 97, 100]), [98, 97, 100]) == [98, 97];
    assert UndoAll([98, 97, 100], [D2]) == UndoAll([98, 97], []) == [98, 97];
    assert Apply(Invert(B0, [98, 97]), [98, 97]) == [97];
    assert Apply(B1, [97]) == [97, 98] && Apply(D3, [97, 98]) == [97, 98, 100];
    assert ApplyAll([D3], [97, 98]) == ApplyAll([], [97, 98, 100]) == [97, 98, 100];
  }

  /** Her third key has drifted past the end, so undoing it deletes nothing. */
  lemma ForeignConfirmed()
    ensures Confirm(Client([97, 98, 100], [D3], 2, 3, 2, 1), C2, true) == Client([97, 98, 99, 100, 100], [D4], 3, 3, 2, 2)
  {
    NamesDiffer();
    assert [D3][..0] == [] && [D4][1..] == [];
    assert MovedAll([D3], C2, true) == [D4];
    assert Apply(Invert(D3, [97, 98, 100]), [97, 98, 100]) == [97, 98, 100];
    assert UndoAll([97, 98, 100], [D3]) == UndoAll([97, 98, 100], []) == [97, 98, 100];
    assert Apply(C2, [97, 98, 100]) == [97, 98, 99, 100] && Apply(D4, [97, 98, 99, 100]) == [97, 98, 99, 100, 100];
    assert ApplyAll([D4], [97, 98, 99, 100]) == ApplyAll([], [97, 98, 99, 100, 100]) == [97, 98, 99, 100, 100];
  }

  lemma AllDelivered()
    ensures Leads(Accepted4(), [Deliver(ANN)] + [Deliver(ANN)] + [Deliver(ANN)], Delivered4(), 2)
  {
    var log, server, bob := [A0, B1, C2, LOGGED], [97, 98, 99, 100], Client([99], [C0], 0, 1, 0, 0);
    var ann10, ann11 := Client([97, 98, 100], [D3], 2, 3, 2, 1), Client([97, 98, 99, 100, 100], [D4], 3, 3, 2, 2);
    var w10, w11 := Between([], log, server, [], ann10, bob, 4), Between([], log, server, [], ann11, bob, 4);
    SecondConfirmed();
    AnnTakes([], log, server, [], Client([98, 97, 100], [B0, D2], 1, 3, 1, 0), bob, 4);
    Step(Accepted4(), Deliver(ANN), w10, 2);
    ForeignConfirmed();
    AnnTakes([], log, server, [], ann10, bob, 4);
    Step(w10, Deliver(ANN), w11, 2);
    assert [D4][1..] == [];
    AnnTakes([], log, server, [], ann11, bob, 4);
    Step(w11, Deliver(ANN), Delivered4(), 2);
    LeadsOn(Accepted4(), [Deliver(ANN)], w10, [Deliver(ANN)], w11, 2);
    LeadsOn(Accepted4(), [Deliver(ANN)] + [Deliver(ANN)], w11, [Deliver(ANN)], Delivered4(), 2);
  }

  /** With two ops outstanding a run of inserts, transform on, can end with its author
      settled on another text than the server's. */
  lemma TwoOutstandingDiverge() returns (w: World, events: seq<Event>)
    ensures Starts(w) && w.transform && Plays(w, events) && TakeTurns(w, events, 2) && OnlyInserts(events)
    ensures var v := RunAll(w, events);
      && ANN in v.clients && Settled(v, ANN)
      && v.clients[ANN].text == [97, 98, 99, 100, 100] && v.serverText == [97, 98, 99, 100]
  {
    w := Start();
    var typing := [Type(ANN, Insert, 0, [97], 0)] + [Type(ANN, Insert, 0, [98], 0)] + [Type(BOB, Insert, 0, [99], 0)];
    var accepts := [Accept(0)] + [Accept(0)] + [Accept(0)];
    var fourth := [Deliver(ANN)] + [Type(ANN, Insert, 2, [100], 0)] + [Accept(0)];
    var delivers := [Deliver(ANN)] + [Deliver(ANN)] + [Deliver(ANN)];
    ThreeTyped();
    ThreeAccepted();
    FourthAccepted();
    AllDelivered();
    LeadsOn(w, typing, Typed3(), accepts, Accepted3(), 2);
    LeadsOn(w, typing + accepts, Accepted3(), fourth, Accepted4(), 2);
    LeadsOn(w, typing + accepts + fourth, Accepted4(), delivers, Delivered4(), 2);
    InsertsJoin(typing, accepts);
    InsertsJoin(typing + accepts, fourth);
    InsertsJoin(typing + accepts + fourth, delivers);
    events := typing + accepts + fourth + delivers;
  }

  // ----- One delete outstanding

  const TEXT: Text := [120, 121]
  const TAIL := Edit(Typed(0), BOB, Insert, 2, [122], 0, 0)
  const CUT := Edit(Typed(1), ANN, Delete, 1, [], 1, 0)
  const CUT_LOGGED := Edit(Typed(1), ANN, Delete, 1, [], 1, 1)

  /** Bob has typed behind the text and Ann deleted its last byte. */
  function OneOfEach(): World {
    Between(TEXT, [], TEXT, [TAIL, CUT], Client([120], [CUT], 0, 1, 0, 0), Client([120, 121, 122], [TAIL], 0, 1, 0, 0), 2)
  }

  function TailAccepted(): World {
    Between(TEXT, [TAIL], [120, 121, 122], [CUT],
            Client([120], [CUT], 0, 1, 0, 0), Client([120, 121, 122], [TAIL], 0, 1, 0, 0), 2)
  }

  function TailTaken(): World {
    Between(TEXT, [TAIL], [120, 121, 122], [CUT],
            Client([120], [CUT], 1, 1, 0, 1), Client([120, 121, 122], [TAIL], 0, 1, 0, 0), 2)
  }

  function CutTaken(): World {
    Between(TEXT, [TAIL, CUT_LOGGED], [120, 122], [],
            Client([120], [], 2, 1, 1, 1), Client([120, 121, 122], [TAIL], 0, 1, 0, 0), 2)
  }

  lemma BothTyped()
    ensures Leads(Between(TEXT, [], TEXT, [], Fresh(TEXT), Fresh(TEXT), 0),
                  [Type(BOB, Insert, 2, [122], 0)] + [Type(ANN, Delete, 1, [], 1)], OneOfEach(), 1)
  {
    NamesDiffer();
    var w0 := Between(TEXT, [], TEXT, [], Fresh(TEXT), Fresh(TEXT), 0);
    var bob1 := Client([120, 121, 122], [TAIL], 0, 1, 0, 0);
    var w1 := Between(TEXT, [], TEXT, [TAIL], Fresh(TEXT), bob1, 1);
    var none: seq<Edit> := [];
    assert Apply(CUT, TEXT) == [120] && Apply(TAIL, TEXT) == [120, 121, 122];
    assert none + [TAIL] == [TAIL] && none + [CUT] == [CUT] && [TAIL] + [CUT] == [TAIL, CUT];
    Types(TEXT, [], TEXT, [], Fresh(TEXT), Fresh(TEXT), 0, TAIL);
    Step(w0, Type(BOB, Insert, 2, [122], 0), w1, 1);
    Types(TEXT, [], TEXT, [TAIL], Fresh(TEXT), bob1, 1, CUT);
    Step(w1, Type(ANN, Delete, 1, [], 1), OneOfEach(), 1);
    LeadsOn(w0, [Type(BOB, Insert, 2, [122], 0)], w1, [Type(ANN, Delete, 1, [], 1)], OneOfEach(), 1);
  }

  lemma TailGoesFirst()
    ensures Leads(OneOfEach(), [Accept(0)], TailAccepted(), 1)
  {
    var none: seq<Edit> := [];
    assert [TAIL, CUT] == [TAIL] + [CUT] && none[0..] == none && none + [TAIL] == [TAIL];
    assert Apply(TAIL, TEXT) == [120, 121, 122];
    Accepts(TEXT, [], TEXT, TAIL, [CUT], Client([120], [CUT], 0, 1, 0, 0), Client([120, 121, 122], [TAIL], 0, 1, 0, 0), 2, TAIL);
    Step(OneOfEach(), Accept(0), TailAccepted(), 1);
  }

  /** Undone against the text after it, the delete puts nothing back: Bob's byte
      lands where the deleted one was and is deleted again. */
  lemma TailSwallowed()
    ensures Confirm(Client([120], [CUT], 0, 1, 0, 0), TAIL, true) == Client([120], [CUT], 1, 1, 0, 1)
  {
    assert [CUT][..0] == [] && [CUT][1..] == [];
    assert MovedAll([CUT], TAIL, true) == [CUT];
    assert Apply(Invert(CUT, [120]), [120]) == [120];
    assert UndoAll([120], [CUT]) == UndoAll([120], []) == [120];
    assert Apply(TAIL, [120]) == [120, 122] && Apply(CUT, [120, 122]) == [120];
    assert ApplyAll([CUT], [120, 122]) == ApplyAll([], [120]) == [120];
  }

  lemma CutGoesSecond()
    ensures Leads(TailAccepted(), [Deliver(ANN)] + [Accept(0)] + [Deliver(ANN)], CutTaken(), 1)
  {
    NamesDiffer();
    var bob := Client([120, 121, 122], [TAIL], 0, 1, 0, 0);
    var none: seq<Edit> := [];
    var w5 := Between(TEXT, [TAIL, CUT_LOGGED], [120, 122], [], Client([120], [CUT], 1, 1, 0, 1), bob, 2);
    TailSwallowed();
    AnnTakes(TEXT, [TAIL], [120, 121, 122], [CUT], Client([120], [CUT], 0, 1, 0, 0), bob, 2);
    Step(TailAccepted(), Deliver(ANN), TailTaken(), 1);
    assert [CUT] == [CUT] + none && [TAIL][0..] == [TAIL] && [TAIL] + [CUT_LOGGED] == [TAIL, CUT_LOGGED];
    TransformOverOne(CUT, TAIL);
    assert Apply(CUT_LOGGED, [120, 121, 122]) == [120, 122];
    Accepts(TEXT, [TAIL], [120, 121, 122], CUT, none, Client([120], [CUT], 1, 1, 0, 1), bob, 2, CUT_LOGGED);
    Step(TailTaken(), Accept(0), w5, 1);
    assert [CUT][1..] == none;
    AnnTakes(TEXT, [TAIL, CUT_LOGGED], [120, 122], none, Client([120], [CUT], 1, 1, 0, 1), bob, 2);
    Step(w5, Deliver(ANN), CutTaken(), 1);
    LeadsOn(TailAccepted(), [Deliver(ANN)], TailTaken(), [Accept(0)], w5, 1);
    LeadsOn(TailAccepted(), [Deliver(ANN)] + [Accept(0)], w5, [Deliver(ANN)], CutTaken(), 1);
  }

  /** With one op outstanding a delivery that does harm can leave a delete's author
      settled on another text than the server's. */
  lemma OneDeleteDiverges() returns (w: World, events: seq<Event>)
    ensures Starts(w) && w.transform && Plays(w, events) && TakeTurns(w, events, 1) && !AllHarmless(w, events)
    ensures var v := RunAll(w, events);
      ANN in v.clients && Settled(v, ANN) && v.clients[ANN].text == [120] && v.serverText == [120, 122]
  {
    w := Between(TEXT, [], TEXT, [], Fresh(TEXT), Fresh(TEXT), 0);
    var typing := [Type(BOB, Insert, 2, [122], 0)] + [Type(ANN, Delete, 1, [], 1)];
    var rest := [Deliver(ANN)] + [Accept(0)] + [Deliver(ANN)];
    BothTyped();
    TailGoesFirst();
    CutGoesSecond();
    LeadsOn(w, typing, OneOfEach(), [Accept(0)], TailAccepted(), 1);
    LeadsOn(w, typing + [Accept(0)], TailAccepted(), rest, CutTaken(), 1);
    events := typing + [Accept(0)] + rest;
    if AllHarmless(w, events) {
      EveryRunConverges(w, events, ANN);
    }
  }
}
