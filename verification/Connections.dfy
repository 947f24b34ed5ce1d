/** The connection counters and the flusher flag, against the connections and loops there really are. */
module Connections {
  import opened Wrappers
  import opened Sums
  import opened Accounting
  import opened Tracking

  predicate InStore(c: Conn) {
    c.stage != Admitted && c.stage != Released
  }

  /** Opened past the usage lock and not yet released, for one user at one node. */
  ghost function OpenAt(k: Key): Conn -> int {
    (c: Conn) => if c.key == k && InStore(c) then 1 else 0
  }

  ghost function OpenAnywhere(): Conn -> int {
    (c: Conn) => if InStore(c) then 1 else 0
  }

  /** Between the usage increment and the atomic add of Open. */
  ghost function Entering(): Conn -> int {
    (c: Conn) => if c.stage == Entered then 1 else 0
  }

  ghost function Begun(): Conn -> int {
    (c: Conn) => if c.stage in {Admitted, Entered, Activated} then 0 else 1
  }

  ghost function AboutToStart(): Conn -> int {
    (c: Conn) => if c.stage == Starting then 1 else 0
  }

  /** Each usage entry's active field is exactly the number of that user's open connections at that node. */
  ghost predicate ActiveExact(s: State, k: Key) {
    UseAt(s.usage, k).active == Sum(s.conns, OpenAt(k))
  }

  /** The atomic active counter lags the open connections by exactly the opens not yet added; total counts opens. */
  ghost predicate AtomicsExact(s: State) {
    && s.active + Sum(s.conns, Entering()) == Sum(s.conns, OpenAnywhere())
    && s.total == Sum(s.conns, Begun())
  }

  /** The flag tells whether anything is tracked; every burst of tracking started one loop that never ends. */
  ghost predicate FlusherExact(s: State) {
    && (s.flusherRun <==> s.tracked != {})
    && |s.loops| + Sum(s.conns, AboutToStart()) == s.bursts
    && (s.tracked != {} ==> s.bursts > 0)
  }

  /** An open connection of the user makes its active field positive, so Close's guard never fails. */
  lemma GuardHolds(s: State, i: nat)
    requires i < |s.conns| && InStore(s.conns[i]) && ActiveExact(s, s.conns[i].key)
    ensures UseAt(s.usage, s.conns[i].key).active > 0
  {
    SumNonNegative(s.conns, OpenAt(s.conns[i].key));
  }

  /** Open's increment and Close's decrement are the only changes to an active field. */
  lemma ConnStepActive(s: State, i: nat, x: ConnAction, k: Key)
    requires ConnEnabled(s, i, x)
    requires x.Release? ==> UseAt(s.usage, s.conns[i].key).active > 0
    ensures UseAt(ConnStep(s, i, x).usage, k).active
            == UseAt(s.usage, k).active + OpenAt(k)(NextConn(s.conns[i], x, s.flusherRun)) - OpenAt(k)(s.conns[i])
  {
    match x
    case Enter => case Activate => case Total => case Wrap => case StartLoop =>
    case Count(_) => case CloseFlag => case CloseFlush => case Unregister => case Release =>
  }

  lemma ConnStepKeepsActive(s: State, i: nat, x: ConnAction, k: Key)
    requires ConnEnabled(s, i, x) && ActiveExact(s, k) && ActiveExact(s, s.conns[i].key)
    ensures ActiveExact(ConnStep(s, i, x), k)
  {
    if x.Release? {
      GuardHolds(s, i);
    }
    ConnStepActive(s, i, x, k);
    SumUpdate(s.conns, i, NextConn(s.conns[i], x, s.flusherRun), OpenAt(k));
    ConnStepConns(s, i, x);
  }

  lemma ConnStepAtomics(s: State, i: nat, x: ConnAction)
    requires ConnEnabled(s, i, x)
    requires x.Release? ==> UseAt(s.usage, s.conns[i].key).active > 0
    ensures var c, c' := s.conns[i], NextConn(s.conns[i], x, s.flusherRun);
            && ConnStep(s, i, x).active + Entering()(c') - Entering()(c) == s.active + OpenAnywhere()(c') - OpenAnywhere()(c)
            && ConnStep(s, i, x).total == s.total + Begun()(c') - Begun()(c)
  {
    match x
    case Enter => case Activate => case Total => case Wrap => case StartLoop =>
    case Count(_) => case CloseFlag => case CloseFlush => case Unregister => case Release =>
  }

  lemma ConnStepKeepsAtomics(s: State, i: nat, x: ConnAction)
    requires ConnEnabled(s, i, x) && AtomicsExact(s) && ActiveExact(s, s.conns[i].key)
    ensures AtomicsExact(ConnStep(s, i, x))
  {
    var c := NextConn(s.conns[i], x, s.flusherRun);
    if x.Release? {
      GuardHolds(s, i);
    }
    ConnStepAtomics(s, i, x);
    ConnStepConns(s, i, x);
    SumUpdate(s.conns, i, c, Entering());
    SumUpdate(s.conns, i, c, OpenAnywhere());
    SumUpdate(s.conns, i, c, Begun());
  }

  lemma ConnStepFlusher(s: State, i: nat, x: ConnAction)
    requires ConnEnabled(s, i, x) && (s.flusherRun <==> s.tracked != {})
    ensures var c, c', t := s.conns[i], NextConn(s.conns[i], x, s.flusherRun), ConnStep(s, i, x);
            && (t.flusherRun <==> t.tracked != {})
            && |t.loops| + AboutToStart()(c') - AboutToStart()(c) - |s.loops| == t.bursts - s.bursts
            && t.bursts >= s.bursts && (s.tracked == {} && t.tracked != {} ==> t.bursts > 0)
  {
    match x
    case Enter => case Activate => case Total => case Wrap => case StartLoop =>
    case Count(_) => case CloseFlag => case CloseFlush => case Unregister => case Release =>
  }

  lemma ConnStepKeepsFlusher(s: State, i: nat, x: ConnAction)
    requires ConnEnabled(s, i, x) && FlusherExact(s)
    ensures FlusherExact(ConnStep(s, i, x))
  {
    ConnStepFlusher(s, i, x);
    ConnStepConns(s, i, x);
    SumUpdate(s.conns, i, NextConn(s.conns[i], x, s.flusherRun), AboutToStart());
  }

  /** A step of a flush loop or of a reporter leaves everything counted here alone, but for the connections. */
  ghost predicate SameCounters(s: State, t: State) {
    && t.active == s.active && t.total == s.total
    && t.tracked == s.tracked && t.flusherRun == s.flusherRun && t.bursts == s.bursts && |t.loops| == |s.loops|
    && forall k :: UseAt(t.usage, k).active == UseAt(s.usage, k).active
  }

  lemma LoopStepActive(s: State, l: nat, x: LoopAction, k: Key)
    requires LoopEnabled(s, l, x)
    ensures UseAt(LoopStep(s, l, x).usage, k).active == UseAt(s.usage, k).active
  {
    if !x.Post? {
      assert LoopStep(s, l, x).usage == s.usage;
    }
  }

  lemma LoopStepFrame(s: State, l: nat, x: LoopAction)
    requires LoopEnabled(s, l, x)
    ensures var t := LoopStep(s, l, x);
            && t.active == s.active && t.total == s.total && t.tracked == s.tracked
            && t.flusherRun == s.flusherRun && t.bursts == s.bursts && |t.loops| == |s.loops|
  {
    match x
    case Tick => case Load(_) => case SwapUp => case SwapDown => case Check => case Post => case EndSweep =>
  }

  lemma LoopStepSameCounters(s: State, l: nat, x: LoopAction)
    requires LoopEnabled(s, l, x)
    ensures SameCounters(s, LoopStep(s, l, x))
  {
    var t := LoopStep(s, l, x);
    forall k ensures UseAt(t.usage, k).active == UseAt(s.usage, k).active {
      LoopStepActive(s, l, x, k);
    }
    LoopStepFrame(s, l, x);
  }

  lemma ReportStepSameCounters(s: State, node: Node, x: ReportAction)
    requires ReportEnabled(s, node, x)
    ensures SameCounters(s, ReportStep(s, node, x)) && ReportStep(s, node, x).conns == s.conns
  {
  }

  lemma LoopStepKeepsSum(s: State, l: nat, x: LoopAction, f: Conn -> int)
    requires LoopEnabled(s, l, x)
    requires forall c: Conn, b: Bytes :: f(c.(pending := b)) == f(c)
    ensures Sum(LoopStep(s, l, x).conns, f) == Sum(s.conns, f)
  {
    if x.SwapUp? || x.SwapDown? {
      var i := s.loops[l].conn;
      var t := LoopStep(s, l, x);
      assert t.conns[i] == s.conns[i].(pending := t.conns[i].pending);
      SumUpdate(s.conns, i, t.conns[i], f);
    }
  }

  /** All of this file's invariants, for every user at every node. */
  ghost predicate CountersExact(s: State) {
    (forall k :: ActiveExact(s, k)) && AtomicsExact(s) && FlusherExact(s)
  }

  /** The counters start out exact. */
  lemma StartCounters(s: State)
    requires s.conns == [] && s.usage == map[] && s.active == s.total == 0
    requires s.tracked == {} && !s.flusherRun && s.loops == [] && s.bursts == 0
    ensures CountersExact(s)
  {
  }

  lemma ConnStepKeepsCounters(s: State, i: nat, x: ConnAction)
    requires ConnEnabled(s, i, x) && CountersExact(s)
    ensures CountersExact(ConnStep(s, i, x))
  {
    forall k ensures ActiveExact(ConnStep(s, i, x), k) {
      ConnStepKeepsActive(s, i, x, k);
    }
    ConnStepKeepsAtomics(s, i, x);
    ConnStepKeepsFlusher(s, i, x);
  }

  lemma LoopStepKeepsCounters(s: State, l: nat, x: LoopAction)
    requires LoopEnabled(s, l, x) && CountersExact(s)
    ensures CountersExact(LoopStep(s, l, x))
  {
    var t := LoopStep(s, l, x);
    LoopStepSameCounters(s, l, x);
    forall k ensures ActiveExact(t, k) {
      assert ActiveExact(s, k);
      LoopStepKeepsSum(s, l, x, OpenAt(k));
    }
    LoopStepKeepsSum(s, l, x, Entering());
    LoopStepKeepsSum(s, l, x, OpenAnywhere());
    LoopStepKeepsSum(s, l, x, Begun());
    LoopStepKeepsSum(s, l, x, AboutToStart());
  }

  lemma SameCountersKeepCounters(s: State, t: State)
    requires CountersExact(s) && SameCounters(s, t) && t.conns == s.conns
    ensures CountersExact(t)
  {
    forall k ensures ActiveExact(t, k) {
      assert ActiveExact(s, k);
    }
  }

  lemma AdmitKeepsCounters(s: State, c: Conn)
    requires CountersExact(s) && c.stage == Admitted
    ensures CountersExact(s.(conns := s.conns + [c]))
  {
    var t := s.(conns := s.conns + [c]);
    forall k ensures ActiveExact(t, k) {
      assert ActiveExact(s, k);
      SumAppend(s.conns, c, OpenAt(k));
    }
    SumAppend(s.conns, c, Entering());
    SumAppend(s.conns, c, OpenAnywhere());
    SumAppend(s.conns, c, Begun());
    SumAppend(s.conns, c, AboutToStart());
  }

  lemma StepKeepsCounters(s: State, a: Action)
    requires Enabled(s, a) && CountersExact(s)
    ensures CountersExact(Step(s, a))
  {
    match a
    case List(_) => SameCountersKeepCounters(s, Step(s, a));
    case Admit(key, kind) => AdmitKeepsCounters(s, Fresh(key, kind));
    case OnConn(i, x) => ConnStepKeepsCounters(s, i, x);
    case OnLoop(l, x) => LoopStepKeepsCounters(s, l, x);
    case OnReport(node, x) =>
      ReportStepSameCounters(s, node, x);
      SameCountersKeepCounters(s, Step(s, a));
    case DeliverLate(_) => SameCountersKeepCounters(s, Step(s, a));
  }
}
