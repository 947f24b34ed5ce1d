/**
 What every step keeps of the shape of the state: the closed flag, membership of the tracked set,
 mutual exclusion of the flush loops, and the flusher flag.
 */
module Tracking {
  import opened Wrappers
  import opened Sums
  import opened Accounting

  predicate IsRegistered(c: Conn) {
    c.kind == Tcp && c.stage in {Starting, Live, Closing, Flushed}
  }

  /** A packet connection's bytes never leave its own counters: no loop ever sees it. */
  predicate ConnOk(c: Conn, users: set<int>) {
    && c.key.user in users
    && (c.closed <==> c.stage in {Closing, Flushed, Unregistered, Released})
    && c.pending.NonNegative() && c.counted.NonNegative()
    && (c.kind == Packet ==> c.pending == c.counted && c.stage !in {Starting, Unregistered})
    && (!InIO(c) ==> c.pending == c.counted == NONE)
  }

  predicate HandsOk(conns: seq<Conn>, tracked: set<nat>, i: nat, key: Key, taken: Bytes) {
    i in tracked && i < |conns| && conns[i].key == key && taken.NonNegative()
  }

  predicate LoopOk(at: Loop, conns: seq<Conn>, tracked: set<nat>) {
    match at
    case Waiting => true
    case Sweeping(todo) => todo <= tracked
    case Loaded(i, todo) => todo <= tracked && i in tracked
    case HasUp(i, key, taken, todo) => todo <= tracked && HandsOk(conns, tracked, i, key, taken) && taken.down == 0
    case HasBoth(i, key, taken, todo) => todo <= tracked && HandsOk(conns, tracked, i, key, taken)
    case Checked(i, key, taken, todo) => todo <= tracked && HandsOk(conns, tracked, i, key, taken)
  }

  ghost predicate ConnsOk(s: State) {
    forall i | 0 <= i < |s.conns| :: ConnOk(s.conns[i], s.users)
  }

  ghost predicate TrackedOk(s: State) {
    forall i: nat :: i in s.tracked <==> i < |s.conns| && IsRegistered(s.conns[i])
  }

  /** At most one loop is inside its sweep, and it is the one holding trackMu. */
  ghost predicate MutexOk(s: State) {
    && (s.trackMu.Some? ==> s.trackMu.value < |s.loops|)
    && forall l: nat | l < |s.loops| :: s.loops[l] != Waiting <==> s.trackMu == Some(l)
  }

  ghost predicate LoopsOk(s: State) {
    forall l | 0 <= l < |s.loops| :: LoopOk(s.loops[l], s.conns, s.tracked)
  }

  ghost predicate Structure(s: State) {
    && ConnsOk(s) && TrackedOk(s) && MutexOk(s) && LoopsOk(s)
    && s.dropped == map[]
  }

  /** The flush inside Close always finds the flag Close has just set, and moves nothing. */
  lemma CloseNeverFlushes(s: State, i: nat)
    requires Structure(s) && ConnEnabled(s, i, CloseFlush)
    ensures ConnStep(s, i, CloseFlush) == s.(conns := s.conns[i := s.conns[i].(stage := Flushed)])
  {
    assert ConnOk(s.conns[i], s.users);
  }

  /** The parts of the state this file looks at are the same. */
  predicate SameShape(s: State, t: State) {
    && t.users == s.users && t.conns == s.conns && t.tracked == s.tracked
    && t.trackMu == s.trackMu && t.loops == s.loops && t.dropped == s.dropped
  }

  lemma SameShapeKeepsStructure(s: State, t: State)
    requires Structure(s) && SameShape(s, t)
    ensures Structure(t)
  {
  }

  lemma NextConnOk(c: Conn, x: ConnAction, s: State, i: nat)
    requires ConnEnabled(s, i, x) && c == s.conns[i] && ConnOk(c, s.users)
    ensures var c' := NextConn(c, x, s.flusherRun);
            && ConnOk(c', s.users) && c'.key == c.key && c'.kind == c.kind
            && (IsRegistered(c') <==> if x.Wrap? then c.kind == Tcp else IsRegistered(c) && !x.Unregister?)
  {
  }

  /** Changing one connection, but neither its key nor its registration, keeps the shape. */
  lemma ConnReplaced(s: State, i: nat, c: Conn, t: State)
    requires Structure(s) && i < |s.conns| && ConnOk(c, s.users)
    requires c.key == s.conns[i].key && IsRegistered(c) == IsRegistered(s.conns[i])
    requires SameShape(s.(conns := s.conns[i := c]), t)
    ensures Structure(t)
  {
    forall l | 0 <= l < |t.loops| ensures LoopOk(t.loops[l], t.conns, t.tracked) {
      assert LoopOk(s.loops[l], s.conns, s.tracked);
    }
  }

  /** Registration changes both the connection and the tracked set, while no loop is sweeping. */
  lemma RegistrationChanged(s: State, i: nat, c: Conn, t: State)
    requires Structure(s) && i < |s.conns| && ConnOk(c, s.users) && s.trackMu == None
    requires SameShape(s.(conns := s.conns[i := c], tracked := if IsRegistered(c) then s.tracked + {i} else s.tracked - {i}), t)
    ensures Structure(t)
  {
    assert forall l | 0 <= l < |s.loops| :: s.loops[l] == Waiting;
  }

  lemma LoopAdded(s: State, t: State)
    requires Structure(s) && SameShape(s.(loops := s.loops + [Waiting]), t)
    ensures Structure(t)
  {
  }

  /** The loop inside its sweep moving on keeps the shape. */
  lemma LoopReplaced(s: State, l: nat, at: Loop, t: State)
    requires Structure(s) && l < |s.loops| && s.loops[l] != Waiting && at != Waiting
    requires LoopOk(at, s.conns, s.tracked)
    requires SameShape(s.(loops := s.loops[l := at]), t)
    ensures Structure(t)
  {
  }

  lemma ConnStepKeepsStructure(s: State, i: nat, x: ConnAction)
    requires Structure(s) && ConnEnabled(s, i, x)
    ensures Structure(ConnStep(s, i, x))
  {
    var c := s.conns[i];
    var c' := NextConn(c, x, s.flusherRun);
    var t := ConnStep(s, i, x);
    assert ConnOk(c, s.users);
    NextConnOk(c, x, s, i);
    match x
    case Wrap =>
      if c.kind == Tcp {
        RegistrationChanged(s, i, c', t);
      } else {
        ConnReplaced(s, i, c', t);
      }
    case Unregister => RegistrationChanged(s, i, c', t);
    case StartLoop =>
      var mid := s.(conns := t.conns);
      ConnReplaced(s, i, c', mid);
      LoopAdded(mid, t);
    case _ => ConnReplaced(s, i, c', t);
  }

  lemma LockStepKeepsStructure(s: State, l: nat, x: LoopAction)
    requires Structure(s) && LoopEnabled(s, l, x) && (x.Tick? || x.EndSweep?)
    ensures Structure(LoopStep(s, l, x))
  {
  }

  lemma NextLoopOk(s: State, l: nat, x: LoopAction)
    requires LoopEnabled(s, l, x) && LoopOk(s.loops[l], s.conns, s.tracked) && !x.EndSweep?
    requires forall i | 0 <= i < |s.conns| :: s.conns[i].pending.NonNegative()
    ensures NextLoop(s, l, x) != Waiting && LoopOk(NextLoop(s, l, x), s.conns, s.tracked)
  {
  }

  lemma LoopStepKeepsStructure(s: State, l: nat, x: LoopAction)
    requires Structure(s) && LoopEnabled(s, l, x)
    ensures Structure(LoopStep(s, l, x))
  {
    if x.Tick? || x.EndSweep? {
      LockStepKeepsStructure(s, l, x);
    } else {
      var t := LoopStep(s, l, x);
      assert LoopOk(s.loops[l], s.conns, s.tracked);
      assert forall i | 0 <= i < |s.conns| :: ConnOk(s.conns[i], s.users);
      NextLoopOk(s, l, x);
      var mid := s.(conns := t.conns);
      if x.SwapUp? || x.SwapDown? {
        var i := s.loops[l].conn;
        assert ConnOk(s.conns[i], s.users);
        ConnReplaced(s, i, t.conns[i], mid);
      }
      LoopReplaced(mid, l, t.loops[l], t);
    }
  }

  /** Every step keeps the shape of the state; Add's unknown-user branch, in particular, never fires. */
  lemma StepKeepsStructure(s: State, a: Action)
    requires Structure(s) && Enabled(s, a)
    ensures Structure(Step(s, a))
  {
    match a
    case List(_) =>
    case Admit(_, _) =>
    case OnConn(i, x) => ConnStepKeepsStructure(s, i, x);
    case OnLoop(l, x) => LoopStepKeepsStructure(s, l, x);
    case OnReport(node, x) => SameShapeKeepsStructure(s, ReportStep(s, node, x));
    case DeliverLate(_) => SameShapeKeepsStructure(s, Step(s, a));
  }

  /** A connection's step changes no other connection. */
  lemma ConnStepConns(s: State, i: nat, x: ConnAction)
    requires ConnEnabled(s, i, x)
    ensures ConnStep(s, i, x).conns == s.conns[i := NextConn(s.conns[i], x, s.flusherRun)]
  {
    match x
    case Enter => case Activate => case Total => case Wrap => case StartLoop =>
    case Count(_) => case CloseFlag => case CloseFlush => case Unregister => case Release =>
  }

  /** Nothing a connection does moves bytes in usage: only flush loops and commits do. */
  lemma ConnStepBytes(s: State, i: nat, x: ConnAction, k: Key)
    requires ConnEnabled(s, i, x) && (x.CloseFlush? ==> s.conns[i].closed)
    ensures UseAt(ConnStep(s, i, x).usage, k).bytes == UseAt(s.usage, k).bytes
  {
    match x
    case Enter => case Activate => case Total => case Wrap => case StartLoop =>
    case Count(_) => case CloseFlag => case CloseFlush => case Unregister => case Release =>
  }

  /** What one loop step needs of the shape, about the objects it touches only. */
  predicate LoopLocal(s: State, l: nat, x: LoopAction)
    requires LoopEnabled(s, l, x)
  {
    match x
    case SwapDown => s.conns[s.loops[l].conn].key == s.loops[l].key && s.loops[l].taken.down == 0
    case Check => s.loops[l].key.user in s.users && s.loops[l].taken.NonNegative()
    case _ => true
  }

  lemma StructureIsLoopLocal(s: State, l: nat, x: LoopAction)
    requires Structure(s) && LoopEnabled(s, l, x)
    ensures LoopLocal(s, l, x)
  {
    assert LoopOk(s.loops[l], s.conns, s.tracked);
    if x.SwapDown? {
      assert ConnOk(s.conns[s.loops[l].conn], s.users);
    } else if x.Check? {
      assert ConnOk(s.conns[s.loops[l].conn], s.users);
    }
  }
}
