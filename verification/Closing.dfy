/** What becomes of the bytes still pending when Close wins the flag. */
module Closing {
  import opened Wrappers
  import opened Sums
  import opened Accounting
  import opened Tracking
  import opened Conservation
  import opened Reporting
  import opened Runs

  /** A flush of connection i that has passed the closed flag and not yet swapped out this direction. */
  predicate PastFlag(at: Loop, i: nat, d: Direction) {
    match at
    case Loaded(j, _) => j == i
    case HasUp(j, _, _, _) => j == i && d == Down
    case _ => false
  }

  /** A closed connection whose flag every sweep has yet to meet. */
  ghost predicate Stranded(s: State, i: nat, d: Direction) {
    && i < |s.conns| && s.conns[i].closed
    && forall l | 0 <= l < |s.loops| :: !PastFlag(s.loops[l], i, d)
  }

  lemma ReportStepFrame(s: State, node: Node, x: ReportAction)
    requires ReportEnabled(s, node, x)
    ensures ReportStep(s, node, x).conns == s.conns && ReportStep(s, node, x).loops == s.loops
  {
    match x
    case Snap => case Deliver => case Ack => case Fail => case Commit =>
  }

  lemma ConnStepStranded(s: State, j: nat, x: ConnAction, i: nat, d: Direction)
    requires Stranded(s, i, d) && ConnEnabled(s, j, x)
    ensures Stranded(ConnStep(s, j, x), i, d) && s.conns[i].pending.In(d) <= ConnStep(s, j, x).conns[i].pending.In(d)
  {
    var t := ConnStep(s, j, x);
    ConnStepConns(s, j, x);
    ConnStepFrame(s, j, x);
    assert forall l | 0 <= l < |s.loops| :: t.loops[l] == s.loops[l];
  }

  lemma LoopStepStranded(s: State, l: nat, x: LoopAction, i: nat, d: Direction)
    requires Stranded(s, i, d) && LoopEnabled(s, l, x)
    ensures Stranded(LoopStep(s, l, x), i, d) && LoopStep(s, l, x).conns[i].pending.In(d) == s.conns[i].pending.In(d)
  {
    assert !PastFlag(s.loops[l], i, d);
  }

  lemma StepKeepsStranded(s: State, a: Action, i: nat, d: Direction)
    requires Stranded(s, i, d) && Enabled(s, a)
    ensures Stranded(Step(s, a), i, d) && s.conns[i].pending.In(d) <= Step(s, a).conns[i].pending.In(d)
  {
    match a
    case OnConn(j, x) => ConnStepStranded(s, j, x, i, d);
    case OnLoop(l, x) => LoopStepStranded(s, l, x, i, d);
    case OnReport(node, x) => ReportStepFrame(s, node, x);
    case List(_) => case Admit(_, _) => case DeliverLate(_) =>
  }

  /** Bytes pending in a closed connection whose flag no sweep has passed are lost: no continuation takes them. */
  lemma {:induction false} ClosedBytesStay(s: State, more: seq<Action>, i: nat, d: Direction)
    requires Stranded(s, i, d) && RunFrom(s, more).Some?
    ensures Stranded(RunFrom(s, more).value, i, d)
    ensures s.conns[i].pending.In(d) <= RunFrom(s, more).value.conns[i].pending.In(d)
  {
    if more != [] {
      var init, a := more[..|more| - 1], more[|more| - 1];
      ClosedBytesStay(s, init, i, d);
      StepKeepsStranded(RunFrom(s, init).value, a, i, d);
    }
  }

  /** A continuation after which the connection has no bytes of a direction left, and usage has those it had. */
  ghost predicate Delivers(s: State, more: seq<Action>, i: nat, d: Direction)
    requires i < |s.conns|
  {
    var r := RunFrom(s, more);
    && r.Some? && i < |r.value.conns|
    && r.value.conns[i].pending.In(d) == 0
    && UseAt(r.value.usage, s.conns[i].key).bytes.In(d)
       == UseAt(s.usage, s.conns[i].key).bytes.In(d) + s.conns[i].pending.In(d)
  }

  /** A flush that has both swaps behind it can add what it holds. */
  lemma FinishFlush(s: State, done: seq<Action>, mid: State, l: nat) returns (more: seq<Action>, t: State)
    requires RunFrom(s, done) == Some(mid) && Structure(mid) && l < |mid.loops| && mid.loops[l].HasBoth?
    ensures RunFrom(s, more) == Some(t) && t.conns == mid.conns
    ensures UseAt(t.usage, mid.loops[l].key).bytes == UseAt(mid.usage, mid.loops[l].key).bytes.Plus(mid.loops[l].taken)
  {
    var at := mid.loops[l];
    assert LoopOk(at, mid.conns, mid.tracked);
    assert ConnOk(mid.conns[at.conn], mid.users);
    more, t := Continue(s, done, mid, OnLoop(l, Check));
    if Nonzero(at.taken) {
      more, t := Continue(s, more, t, OnLoop(l, Post));
    }
  }

  lemma SwapDownAndFinish(s: State, done: seq<Action>, mid: State, l: nat) returns (more: seq<Action>, t: State)
    requires RunFrom(s, done) == Some(mid) && Structure(mid) && l < |mid.loops| && mid.loops[l].HasUp?
    ensures RunFrom(s, more) == Some(t)
    ensures var at := mid.loops[l];
            && at.conn < |mid.conns| == |t.conns| && at.key == mid.conns[at.conn].key
            && t.conns[at.conn] == mid.conns[at.conn].(pending := mid.conns[at.conn].pending.(down := 0))
            && UseAt(t.usage, at.key).bytes
               == UseAt(mid.usage, at.key).bytes.Plus(Bytes(at.taken.up, mid.conns[at.conn].pending.down))
  {
    assert LoopOk(mid.loops[l], mid.conns, mid.tracked);
    var next;
    more, next := Continue(s, done, mid, OnLoop(l, SwapDown));
    StepKeepsStructure(mid, OnLoop(l, SwapDown));
    more, t := FinishFlush(s, more, next, l);
  }

  lemma SwapBothAndFinish(s: State, l: nat) returns (more: seq<Action>, t: State)
    requires Structure(s) && l < |s.loops| && s.loops[l].Loaded?
    ensures RunFrom(s, more) == Some(t)
    ensures var i := s.loops[l].conn;
            && i < |s.conns| == |t.conns| && t.conns[i].pending == NONE
            && UseAt(t.usage, s.conns[i].key).bytes == UseAt(s.usage, s.conns[i].key).bytes.Plus(s.conns[i].pending)
  {
    assert LoopOk(s.loops[l], s.conns, s.tracked);
    var none: seq<Action> := [];
    var next;
    more, next := Continue(s, none, s, OnLoop(l, SwapUp));
    StepKeepsStructure(s, OnLoop(l, SwapUp));
    more, t := SwapDownAndFinish(s, more, next, l);
  }

  lemma LoadedDelivers(s: State, l: nat, d: Direction) returns (more: seq<Action>)
    requires Structure(s) && l < |s.loops| && s.loops[l].Loaded? && s.loops[l].conn < |s.conns|
    ensures Delivers(s, more, s.loops[l].conn, d)
  {
    var t;
    more, t := SwapBothAndFinish(s, l);
  }

  lemma HasUpDelivers(s: State, l: nat) returns (more: seq<Action>)
    requires Structure(s) && l < |s.loops| && s.loops[l].HasUp? && s.loops[l].conn < |s.conns|
    ensures Delivers(s, more, s.loops[l].conn, Down)
  {
    var none: seq<Action> := [];
    var t;
    more, t := SwapDownAndFinish(s, none, s, l);
  }

  /** Bytes pending in a connection whose flag a flush has passed can still reach usage, all of them. */
  lemma PassedFlagDelivers(s: State, i: nat, d: Direction, l: nat) returns (more: seq<Action>)
    requires Structure(s) && i < |s.conns| && l < |s.loops| && PastFlag(s.loops[l], i, d)
    ensures Delivers(s, more, i, d)
  {
    if s.loops[l].Loaded? {
      more := LoadedDelivers(s, l, d);
    } else {
      more := HasUpDelivers(s, l);
    }
  }

  lemma StrandedNeverDelivers(s: State, more: seq<Action>, i: nat, d: Direction)
    requires Stranded(s, i, d) && s.conns[i].pending.In(d) > 0
    ensures !Delivers(s, more, i, d)
  {
    if RunFrom(s, more).Some? {
      ClosedBytesStay(s, more, i, d);
    }
  }

  /**
   Of a closed connection's pending bytes of either direction, some continuation delivers all to usage exactly
   if there are none or some flush had passed the flag; otherwise none ever leaves the connection.
   */
  lemma ClosedDeliversIff(s: State, i: nat, d: Direction)
    requires Good(s) && i < |s.conns| && s.conns[i].closed
    ensures (exists more :: Delivers(s, more, i, d)) <==> s.conns[i].pending.In(d) == 0 || !Stranded(s, i, d)
  {
    assert ConnOk(s.conns[i], s.users);
    if s.conns[i].pending.In(d) == 0 {
      var none: seq<Action> := [];
      assert Delivers(s, none, i, d);
    } else if Stranded(s, i, d) {
      forall more ensures !Delivers(s, more, i, d) {
        StrandedNeverDelivers(s, more, i, d);
      }
    } else {
      var l: nat :| l < |s.loops| && PastFlag(s.loops[l], i, d);
      var more := PassedFlagDelivers(s, i, d, l);
    }
  }

  /**
   The flush inside Close is called final. When Close wins the flag, what is pending then can still be delivered
   exactly if nothing is or some flush had already passed the flag; Close's own flush is no help.
   */
  lemma CloseDeliversIff(s: State, i: nat, d: Direction)
    requires Good(s) && ConnEnabled(s, i, CloseFlag)
    ensures (exists more :: Delivers(ConnStep(s, i, CloseFlag), more, i, d))
            <==> s.conns[i].pending.In(d) == 0 || exists l :: 0 <= l < |s.loops| && PastFlag(s.loops[l], i, d)
  {
    var t := ConnStep(s, i, CloseFlag);
    StepKeepsGood(s, OnConn(i, CloseFlag));
    ClosedDeliversIff(t, i, d);
    assert t.loops == s.loops && t.conns[i].pending == s.conns[i].pending;
  }
}
