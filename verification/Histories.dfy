// Undo and redo over page ops.

module Histories {
  import opened Options
  import opened Blocks
  import opened Forests
  import opened Operations
  import opened Pages

  // A page together with the stacks of the actor editing it.
  datatype Session = Session(state: State, undo: seq<Op>, redo: seq<Op>, maxDepth: int)

  // ----- One step of a session

  /** The undo stack after recording `op`: the oldest entry falls off a full stack. */
  function Recorded(undo: seq<Op>, op: Op, maxDepth: int): seq<Op> {
    var all := undo + [op];
    if maxDepth <= 0 then undo
    else if |all| > maxDepth then (all[1..] + [all[|all| - 1]])[..maxDepth]
    else all
  }

  datatype Action = Do(op: Op) | Undo | Redo

  /** An accepted op is applied and recorded; undo and redo apply an inverse and
      move it across. A refused op changes nothing here. */
  function Act(s: Session, a: Action): Session {
    match a
    case Do(op) =>
      (match Step(s.state, op)
       case Err(_) => s
       case Ok(t) => Session(t, Recorded(s.undo, op, s.maxDepth), if s.maxDepth <= 0 then s.redo else [], s.maxDepth))
    case Undo =>
      if s.undo == [] then s else
      var inverse := s.undo[|s.undo| - 1].Invert();
      (match Step(s.state, inverse)
       case Err(_) => s
       case Ok(t) => Session(t, s.undo[..|s.undo| - 1], s.redo + [inverse], s.maxDepth))
    case Redo =>
      if s.redo == [] then s else
      var again := s.redo[|s.redo| - 1].Invert();
      (match Step(s.state, again)
       case Err(_) => s
       case Ok(t) => Session(t, s.undo + [again], s.redo[..|s.redo| - 1], s.maxDepth))
  }

  function Run(s: Session, actions: seq<Action>): Session
    decreases |actions|
  {
    if actions == [] then s else Run(Act(s, actions[0]), actions[1..])
  }

  // ----- The recorded path

  /** An op whose inverse is exact on this page. */
  ghost predicate Undoable(s: State, op: Op) {
    Step(s, op).Ok? && KindFitsParent(s.forest, op) && TombstoneExact(s.forest, op)
  }

  /** The redo stack read as the ops it would apply, next one first. */
  function Ahead(redo: seq<Op>): seq<Op> {
    if redo == [] then [] else [redo[|redo| - 1].Invert()] + Ahead(redo[..|redo| - 1])
  }

  /** Every page of `path` leads to the next by the matching op. */
  ghost predicate Follows(path: seq<State>, ops: seq<Op>) {
    && |path| == |ops| + 1
    && (forall k :: 0 <= k < |path| ==> WellFormed(path[k].forest))
    && (forall k :: 0 <= k < |ops| ==> Undoable(path[k], ops[k]) && Step(path[k], ops[k]) == Ok(path[k + 1]))
  }

  /** The session stands on `path`: the undo stack is the way it came, the redo
      stack the way ahead. */
  ghost predicate OnPath(s: Session, path: seq<State>) {
    && Follows(path, s.undo + Ahead(s.redo))
    && |s.undo| < |path|
    && s.state == path[|s.undo|]
    && |s.undo| + |s.redo| <= (if s.maxDepth <= 0 then 0 else s.maxDepth)
  }

  lemma {:induction false} AheadLength(redo: seq<Op>)
    ensures |Ahead(redo)| == |redo|
  {
    if redo != [] {
      AheadLength(redo[..|redo| - 1]);
    }
  }

  /** Undo is accepted and moves exactly one page back along the path. */
  lemma UndoMovesBack(s: Session, path: seq<State>)
    requires OnPath(s, path) && s.undo != []
    ensures var t := Act(s, Undo);
      && OnPath(t, path) && t.state == path[|s.undo| - 1]
      && |t.undo| == |s.undo| - 1 && |t.redo| == |s.redo| + 1 && t.maxDepth == s.maxDepth
      && Act(t, Redo) == s
  {
    var n := |s.undo| - 1;
    var op := s.undo[n];
    assert (s.undo + Ahead(s.redo))[n] == op;
    InverseLaw(path[n], op);
    InvertTwice(op);
    var t := Act(s, Undo);
    assert t.redo[..|t.redo| - 1] == s.redo;
    assert Ahead(t.redo) == [op] + Ahead(s.redo);
    assert t.undo + Ahead(t.redo) == s.undo + Ahead(s.redo);
    assert s.undo[..n] + [op] == s.undo;
  }

  /** Redo is accepted and moves exactly one page forward along the path. */
  lemma RedoMovesForward(s: Session, path: seq<State>)
    requires OnPath(s, path) && s.redo != []
    ensures var t := Act(s, Redo);
      && OnPath(t, path) && |path| > |s.undo| + 1 && t.state == path[|s.undo| + 1]
      && |t.undo| == |s.undo| + 1 && |t.redo| == |s.redo| - 1 && t.maxDepth == s.maxDepth
      && Act(t, Undo) == s
  {
    var n, m := |s.undo|, |s.redo| - 1;
    var op := s.redo[m].Invert();
    AheadLength(s.redo);
    assert (s.undo + Ahead(s.redo))[n] == op;
    InverseLaw(path[n], op);
    InvertTwice(s.redo[m]);
    var t := Act(s, Redo);
    assert t.undo + Ahead(t.redo) == s.undo + Ahead(s.redo);
    assert t.undo[..n] == s.undo;
    assert s.redo[..m] + [s.redo[m]] == s.redo;
  }

  /** The path after recording `op` at the session's place. */
  ghost function Extended(s: Session, path: seq<State>, op: Op): seq<State>
    requires Step(s.state, op).Ok? && |s.undo| < |path|
  {
    var next := Step(s.state, op).value;
    if s.maxDepth <= 0 then [next]
    else if |s.undo| == s.maxDepth then path[1..|s.undo| + 1] + [next]
    else path[..|s.undo| + 1] + [next]
  }

  lemma FollowsOn(path: seq<State>, ops: seq<Op>, n: nat, op: Op)
    requires Follows(path, ops) && n <= |ops| && Undoable(path[n], op)
    ensures Follows(path[..n + 1] + [Step(path[n], op).value], ops[..n] + [op])
  {
    StepKeepsWellFormed(path[n], op);
    var longer, all := path[..n + 1] + [Step(path[n], op).value], ops[..n] + [op];
    forall k | 0 <= k < |all| ensures Undoable(longer[k], all[k]) && Step(longer[k], all[k]) == Ok(longer[k + 1]) {
      assert all[k] == if k < n then ops[k] else op;
    }
  }

  lemma FollowsLater(path: seq<State>, ops: seq<Op>)
    requires Follows(path, ops) && ops != []
    ensures Follows(path[1..], ops[1..])
  {
  }

  /** Recording an op cuts off the way ahead and extends the way behind; a full
      stack forgets its oldest page. */
  lemma DoExtendsPath(s: Session, path: seq<State>, op: Op)
    requires OnPath(s, path) && Undoable(s.state, op)
    ensures OnPath(Act(s, Do(op)), Extended(s, path, op))
  {
    StepKeepsWellFormed(s.state, op);
    var n, ops, all := |s.undo|, s.undo + Ahead(s.redo), s.undo + [op];
    var longer := path[..n + 1] + [Step(s.state, op).value];
    assert ops[..n] == s.undo && Ahead([]) == [];
    FollowsOn(path, ops, n, op);
    if s.maxDepth <= 0 {
      assert s.undo == [] && s.redo == [];
    } else if n == s.maxDepth {
      FollowsLater(longer, all);
      assert longer[1..] == Extended(s, path, op);
    }
    assert Act(s, Do(op)).undo + [] == Act(s, Do(op)).undo;
  }

  // ----- Whole runs

  /** Every recorded op in the run is undoable when it is done. */
  ghost predicate Legal(s: Session, actions: seq<Action>)
    decreases |actions|
  {
    actions != [] ==>
      && (actions[0].Do? ==> Undoable(s.state, actions[0].op))
      && Legal(Act(s, actions[0]), actions[1..])
  }

  /** However ops, undos and redos interleave, the session stays on a recorded
      path, so no undo or redo is ever refused, and the stacks together never
      exceed the depth limit. */
  lemma {:induction false} RunStaysOnPath(s: Session, path: seq<State>, actions: seq<Action>) returns (end: seq<State>)
    requires OnPath(s, path) && Legal(s, actions)
    ensures OnPath(Run(s, actions), end)
    ensures Run(s, actions).maxDepth == s.maxDepth
    ensures |Run(s, actions).undo| + |Run(s, actions).redo| <= (if s.maxDepth <= 0 then 0 else s.maxDepth)
    decreases |actions|
  {
    if actions == [] {
      return path;
    }
    var next := path;
    match actions[0] {
      case Do(op) =>
        DoExtendsPath(s, path, op);
        next := Extended(s, path, op);
      case Undo =>
        if s.undo != [] { UndoMovesBack(s, path); }
      case Redo =>
        if s.redo != [] { RedoMovesForward(s, path); }
    }
    end := RunStaysOnPath(Act(s, actions[0]), next, actions[1..]);
  }

  /** A fresh session on a new page is on the one-page path. */
  lemma FreshOnPath(page: PageId, title: string, maxDepth: int)
    ensures OnPath(Session(State(page, title, Nil), [], [], maxDepth), [State(page, title, Nil)])
  {
  }

  function Repeat(a: Action, n: nat): seq<Action> {
    if n == 0 then [] else [a] + Repeat(a, n - 1)
  }

  lemma {:induction false} RunSnoc(s: Session, actions: seq<Action>, last: Action)
    ensures Run(s, actions + [last]) == Act(Run(s, actions), last)
    decreases |actions|
  {
    if actions == [] {
      assert (actions + [last])[1..] == [];
    } else {
      assert (actions + [last])[1..] == actions[1..] + [last];
      RunSnoc(Act(s, actions[0]), actions[1..], last);
    }
  }

  lemma {:induction false} RepeatSnoc(a: Action, n: nat)
    ensures Repeat(a, n + 1) == Repeat(a, n) + [a]
  {
    if n > 0 {
      RepeatSnoc(a, n - 1);
    }
  }

  /** When one undo and one redo cancel, and so do `n` from there, so do `m`, one more. */
  lemma OneMoreBack(s: Session, t: Session, n: nat, m: nat)
    requires m == n + 1 && Act(s, Undo) == t && Act(t, Redo) == s
    requires Run(Run(t, Repeat(Undo, n)), Repeat(Redo, n)) == t
    ensures Run(s, Repeat(Undo, m)) == Run(t, Repeat(Undo, n))
    ensures Run(Run(s, Repeat(Undo, m)), Repeat(Redo, m)) == s
  {
    assert Repeat(Undo, m) == [Undo] + Repeat(Undo, n) && ([Undo] + Repeat(Undo, n))[1..] == Repeat(Undo, n);
    RepeatSnoc(Redo, n);
    RunSnoc(Run(t, Repeat(Undo, n)), Repeat(Redo, n), Redo);
  }

  lemma {:induction false} UndosGoBack(s: Session, path: seq<State>, n: nat, at: nat)
    requires OnPath(s, path) && at + n == |s.undo|
    ensures var t := Run(s, Repeat(Undo, n)); OnPath(t, path) && |t.undo| == at && Run(t, Repeat(Redo, n)) == s
    decreases n
  {
    if n > 0 {
      var t, m := Act(s, Undo), n - 1;
      UndoMovesBack(s, path);
      UndosGoBack(t, path, m, at);
      OneMoreBack(s, t, m, n);
    }
  }

  /** n undos reach the page n back, and n redos then restore the page and both stacks. */
  lemma UndosThenRedos(s: Session, path: seq<State>, n: nat)
    requires OnPath(s, path) && n <= |s.undo|
    ensures var t := Run(s, Repeat(Undo, n));
      && OnPath(t, path) && t.state == path[|s.undo| - n]
      && Run(t, Repeat(Redo, n)) == s
  {
    UndosGoBack(s, path, n, |s.undo| - n);
  }

  /** At the end of every legal run from a new page, the next undo and the next
      redo are accepted and each takes back the other. */
  lemma EveryRunCanUndoAndRedo(page: PageId, title: string, maxDepth: int, actions: seq<Action>)
    requires Legal(Session(State(page, title, Nil), [], [], maxDepth), actions)
    ensures var s := Run(Session(State(page, title, Nil), [], [], maxDepth), actions);
      && WellFormed(s.state.forest)
      && (s.undo != [] ==> Step(s.state, s.undo[|s.undo| - 1].Invert()).Ok? && Act(Act(s, Undo), Redo) == s)
      && (s.redo != [] ==> Step(s.state, s.redo[|s.redo| - 1].Invert()).Ok? && Act(Act(s, Redo), Undo) == s)
      && |s.undo| + |s.redo| <= (if maxDepth <= 0 then 0 else maxDepth)
  {
    var start := Session(State(page, title, Nil), [], [], maxDepth);
    FreshOnPath(page, title, maxDepth);
    var path := RunStaysOnPath(start, [start.state], actions);
    var s := Run(start, actions);
    if s.undo != [] {
      UndoMovesBack(s, path);
    }
    if s.redo != [] {
      RedoMovesForward(s, path);
    }
  }

  // ----- The stacks in the code

  class History {
    var undo: seq<Op>
    var redo: seq<Op>
    const maxDepth: int

    ghost function On(page: Page): Session
      reads this, page
    {
      Session(page.Abstract(), undo, redo, maxDepth)
    }

    constructor (maxDepth: int)
      ensures undo == [] && redo == [] && this.maxDepth == maxDepth
    {
      this.maxDepth := maxDepth;
      undo, redo := [], [];
    }

    /** Recording after an accepted Apply is the session's Do step. */
    method Record(op: Op)
      modifies this
      ensures undo == Recorded(old(undo), op, maxDepth)
      ensures redo == if maxDepth <= 0 then old(redo) else []
    {
      if maxDepth <= 0 {
        return;
      }
      undo := undo + [op];
      redo := [];
      if |undo| > maxDepth {
        undo := undo[1..] + [undo[|undo| - 1]];
        undo := undo[..maxDepth];
      }
    }

    /** Undo is the session's Undo step, or reports the error, keeps both stacks and leaves
        the page as a rejected op does. */
    method UndoLast(page: Page) returns (err: Option<Error>)
      requires page.Valid()
      modifies this, page
      ensures err == None ==> page.Valid() && On(page) == old(Act(On(page), Undo))
      ensures err.Some? ==>
        && undo == old(undo) && redo == old(redo) && undo != []
        && Step(old(page.Abstract()), undo[|undo| - 1].Invert()) == Err(err.value)
        && page.title == old(page.title) && page.forest == old(page.forest)
        && LeftByRejected(page.forest, undo[|undo| - 1].Invert(), old(page.blocks), page.blocks)
    {
      if |undo| == 0 {
        return None;
      }
      var last := |undo| - 1;
      var redoOp := undo[last].Invert();
      err := page.Apply(redoOp);
      if err.Some? {
        return;
      }
      undo := undo[..last];
      redo := redo + [redoOp];
    }

    /** Redo is the session's Redo step, or reports the error, keeps both stacks and leaves
        the page as a rejected op does. */
    method RedoLast(page: Page) returns (err: Option<Error>)
      requires page.Valid()
      modifies this, page
      ensures err == None ==> page.Valid() && On(page) == old(Act(On(page), Redo))
      ensures err.Some? ==>
        && undo == old(undo) && redo == old(redo) && redo != []
        && Step(old(page.Abstract()), redo[|redo| - 1].Invert()) == Err(err.value)
        && page.title == old(page.title) && page.forest == old(page.forest)
        && LeftByRejected(page.forest, redo[|redo| - 1].Invert(), old(page.blocks), page.blocks)
    {
      if |redo| == 0 {
        return None;
      }
      var last := |redo| - 1;
      var undoOp := redo[last].Invert();
      err := page.Apply(undoOp);
      if err.Some? {
        return;
      }
      redo := redo[..last];
      undo := undo + [undoOp];
    }
  }
}
