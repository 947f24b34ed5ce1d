/** Runs in which what the other results account for does happen: bytes left behind, a second loop, bytes counted twice. */
module Witnesses {
  import opened Wrappers
  import opened Sums
  import opened Accounting
  import opened Tracking
  import opened Conservation
  import opened Connections
  import opened Reporting
  import opened Runs
  import opened Closing
  import opened LastReport

  /** A run that lists a user and nothing else. */
  lemma ListOne(k: Key) returns (run: seq<Action>, s: State)
    ensures Run(run) == Some(s) && s == INITIAL.(users := {k.user})
  {
    var none: seq<Action> := [];
    run, s := Continue(INITIAL, none, INITIAL, List(k.user));
    assert {} + {k.user} == {k.user};
  }

  /** One connection, from admission until its open has been counted. */
  lemma OpenOne(actions: seq<Action>, s: State, k: Key, kind: Kind) returns (run: seq<Action>, t: State)
    requires Run(actions) == Some(s) && k.user in s.users
    ensures Run(run) == Some(t)
    ensures t == s.(conns := s.conns + [Conn(k, kind, Totalled, false, NONE, NONE)],
                    usage := UsageAfter(s.usage, Fresh(k, kind), Enter), active := s.active + 1, total := s.total + 1)
  {
    var i := |s.conns|;
    run, t := EnterOne(actions, s, k, kind);
    run, t := Continue(INITIAL, run, t, OnConn(i, Activate));
    run, t := Continue(INITIAL, run, t, OnConn(i, Total));
  }

  lemma EnterOne(actions: seq<Action>, s: State, k: Key, kind: Kind) returns (run: seq<Action>, t: State)
    requires Run(actions) == Some(s) && k.user in s.users
    ensures Run(run) == Some(t)
    ensures t == s.(conns := s.conns + [Conn(k, kind, Entered, false, NONE, NONE)], usage := UsageAfter(s.usage, Fresh(k, kind), Enter))
  {
    run, t := Continue(INITIAL, actions, s, Admit(k, kind));
    run, t := Continue(INITIAL, run, t, OnConn(|s.conns|, Enter));
  }

  /** A packet wrapper is made and counts some bytes. */
  lemma PacketTrafficHappens(k: Key, b: Bytes)
    requires b.NonNegative()
    ensures exists actions ::
              && Run(actions).Some? && |Run(actions).value.conns| == 1
              && Run(actions).value.conns[0] == Conn(k, Packet, Live, false, b, b)
  {
    var run, s := ListOne(k);
    run, s := OpenOne(run, s, k, Packet);
    run, s := Continue(INITIAL, run, s, OnConn(0, Wrap));
    run, s := Continue(INITIAL, run, s, OnConn(0, Count(b)));
    assert Run(run).value == s;
  }

  /** A state with one TCP connection and one flush loop, waiting. */
  predicate OneServed(s: State, k: Key, b: Bytes) {
    && s.users == {k.user} && s.conns == [Conn(k, Tcp, Live, false, b, b)]
    && s.loops == [Waiting] && s.trackMu == None && s.tracked == {0} && s.flusherRun
    && UseAt(s.usage, k).bytes == NONE && s.reporters == map[] && s.failed == [] && s.panel == map[] && s.committed == map[]
  }

  lemma ServeOne(k: Key, b: Bytes) returns (run: seq<Action>, s: State)
    requires b.NonNegative()
    ensures Run(run) == Some(s) && OneServed(s, k, b)
  {
    run, s := ListOne(k);
    run, s := OpenOne(run, s, k, Tcp);
    run, s := WrapOne(run, s);
    run, s := Continue(INITIAL, run, s, OnConn(0, Count(b)));
  }

  /** The first registration, and the loop it starts. */
  lemma WrapOne(actions: seq<Action>, s: State) returns (run: seq<Action>, t: State)
    requires Run(actions) == Some(s) && |s.conns| == 1 && s.conns[0].kind == Tcp && s.conns[0].stage == Totalled
    requires s.trackMu == None && !s.flusherRun && s.tracked == {}
    ensures Run(run) == Some(t)
    ensures t == s.(conns := [s.conns[0].(stage := Live)], tracked := {0}, flusherRun := true,
                    loops := s.loops + [Waiting], bursts := s.bursts + 1)
  {
    run, t := Continue(INITIAL, actions, s, OnConn(0, Wrap));
    run, t := Continue(INITIAL, run, t, OnConn(0, StartLoop));
    assert {} + {0} == {0};
  }

  /** The connection closes while the loop waits. */
  lemma CloseOne(actions: seq<Action>, s: State) returns (run: seq<Action>, t: State)
    requires Run(actions) == Some(s) && |s.conns| == 1 && s.conns[0].kind == Tcp && s.conns[0].stage == Live && !s.conns[0].closed
    requires s.trackMu == None && s.tracked == {0}
    ensures Run(run) == Some(t)
    ensures t.conns == [s.conns[0].(stage := Released, closed := true)] && t.tracked == {} && !t.flusherRun
    ensures t.users == s.users && t.loops == s.loops && t.trackMu == None && t.reporters == s.reporters && t.committed == s.committed
    ensures UseAt(t.usage, s.conns[0].key).bytes == UseAt(s.usage, s.conns[0].key).bytes
  {
    run, t := FlushOne(actions, s);
    run, t := Continue(INITIAL, run, t, OnConn(0, Unregister));
    run, t := Continue(INITIAL, run, t, OnConn(0, Release));
  }

  /** Its close, up to the flush, which does nothing. */
  lemma FlushOne(actions: seq<Action>, s: State) returns (run: seq<Action>, t: State)
    requires Run(actions) == Some(s) && |s.conns| == 1 && s.conns[0].stage == Live && !s.conns[0].closed
    ensures Run(run) == Some(t) && t == s.(conns := [s.conns[0].(stage := Flushed, closed := true)])
  {
    run, t := Continue(INITIAL, actions, s, OnConn(0, CloseFlag));
    run, t := Continue(INITIAL, run, t, OnConn(0, CloseFlush));
  }

  lemma LoseOne(k: Key, b: Bytes) returns (run: seq<Action>, s: State)
    requires b.NonNegative()
    ensures Run(run) == Some(s) && |s.conns| == 1 && ReporterAt(s, k.node) == Idle
    ensures s.conns[0].key == k && s.conns[0].stage == Released && s.conns[0].pending == s.conns[0].counted == b
    ensures Stranded(s, 0, Up) && Stranded(s, 0, Down) && UseAt(s.usage, k).bytes == NONE && TotalAt(s.committed, k) == NONE
  {
    run, s := ServeOne(k, b);
    run, s := CloseOne(run, s);
  }

  /** Bytes counted before the next sweep stay in the closed connection for good. */
  lemma ClosingLosesBytes(k: Key, b: Bytes)
    requires b.NonNegative()
    ensures exists actions, s ::
              && Run(actions) == Some(s) && |s.conns| == 1 && s.conns[0].key == k && s.conns[0].stage == Released
              && s.conns[0].pending == b && Stranded(s, 0, Up) && Stranded(s, 0, Down)
  {
    var run, s := LoseOne(k, b);
  }

  /** A report, from its snapshot to its delivery. */
  lemma SendOne(start: State, actions: seq<Action>, s: State, node: Node) returns (run: seq<Action>, t: State)
    requires RunFrom(start, actions) == Some(s) && ReporterAt(s, node) == Idle
    ensures RunFrom(start, run) == Some(t) && run == actions + [OnReport(node, Snap), OnReport(node, Deliver)]
    ensures ReporterAt(t, node) == Sending(Traffic(s.usage, node), true) && t.conns == s.conns
  {
    run, t := Continue(start, actions, s, OnReport(node, Snap));
    run, t := Continue(start, run, t, OnReport(node, Deliver));
  }

  /** From there to the commit of an acknowledged answer. */
  lemma AcknowledgeOne(start: State, actions: seq<Action>, s: State, node: Node) returns (run: seq<Action>, t: State)
    requires RunFrom(start, actions) == Some(s) && ReporterAt(s, node).Sending? && ReporterAt(s, node).delivered
    ensures RunFrom(start, run) == Some(t) && run == actions + [OnReport(node, Ack), OnReport(node, Commit)]
    ensures ReporterAt(t, node) == Idle && t.conns == s.conns
  {
    run, t := Continue(start, actions, s, OnReport(node, Ack));
    run, t := Continue(start, run, t, OnReport(node, Commit));
  }

  lemma ReportOne(s: State, node: Node) returns (run: seq<Action>, t: State)
    requires ReporterAt(s, node) == Idle
    ensures RunFrom(s, run) == Some(t) && ReporterAt(t, node) == Idle && t.conns == s.conns
    ensures OneReport(run, node) && WasAcknowledged(run, node)
  {
    var none: seq<Action> := [];
    run, t := SendOne(s, none, s, node);
    run, t := AcknowledgeOne(s, run, t, node);
    assert run == [OnReport(node, Snap), OnReport(node, Deliver), OnReport(node, Ack), OnReport(node, Commit)];
  }

  lemma NothingAcknowledged(s: State, more: seq<Action>, t: State, k: Key, d: Direction)
    requires Good(s) && ReporterAt(s, k.node) == Idle && OneReport(more, k.node)
    requires RunFrom(s, more) == Some(t) && ReporterAt(t, k.node) == Idle
    requires UseAt(s.usage, k).bytes == NONE && TotalAt(s.committed, k) == NONE
    ensures Acknowledged(t, k, d) == 0
  {
    ReportStanding(s, more, k, d);
    TrafficIsUsage(s, k, d);
  }

  lemma CountedByOne(s: State, k: Key, d: Direction)
    requires |s.conns| == 1 && s.conns[0].key == k
    ensures Counted(s, k, d) == s.conns[0].counted.In(d)
  {
    SumAppend([], s.conns[0], CountedBy(k, d));
    assert [] + [s.conns[0]] == s.conns;
  }

  lemma FallShort(k: Key, b: Bytes, d: Direction) returns (actions: seq<Action>, s: State, more: seq<Action>, t: State)
    requires b.NonNegative()
    ensures Run(actions) == Some(s) && RunFrom(s, more) == Some(t)
    ensures OneReport(more, k.node) && WasAcknowledged(more, k.node)
    ensures Acknowledged(t, k, d) == 0 && Counted(t, k, d) == b.In(d)
  {
    actions, s := LoseOne(k, b);
    more, t := ReportOne(s, k.node);
    ReachableIsGood(actions);
    NothingAcknowledged(s, more, t, k, d);
    CountedByOne(t, k, d);
  }

  /** After that close, an acknowledged last report leaves all those bytes unreported. */
  lemma LastReportFallsShort(k: Key, b: Bytes, d: Direction)
    requires b.NonNegative()
    ensures exists actions, s, more, t ::
              && Run(actions) == Some(s) && RunFrom(s, more) == Some(t)
              && OneReport(more, k.node) && WasAcknowledged(more, k.node)
              && Acknowledged(t, k, d) == 0 && Counted(t, k, d) == b.In(d)
  {
    var actions, s, more, t := FallShort(k, b, d);
  }

  /** One sweep over the one connection. */
  lemma SweepOne(actions: seq<Action>, s: State, k: Key, b: Bytes) returns (run: seq<Action>, t: State)
    requires Run(actions) == Some(s) && OneServed(s, k, b) && b.NonNegative() && Nonzero(b)
    ensures Run(run) == Some(t) && UseAt(t.usage, k).bytes == b
    ensures t.reporters == map[] && t.failed == [] && t.panel == map[] && t.committed == map[]
  {
    run, t := Continue(INITIAL, actions, s, OnLoop(0, Tick));
    run, t := Continue(INITIAL, run, t, OnLoop(0, Load(0)));
    assert {0} - {0} == {} && t.loops == [Loaded(0, {})];
    run, t := Continue(INITIAL, run, t, OnLoop(0, SwapUp));
    run, t := Continue(INITIAL, run, t, OnLoop(0, SwapDown));
    assert t.loops == [HasBoth(0, k, b, {})];
    run, t := Continue(INITIAL, run, t, OnLoop(0, Check));
    run, t := Continue(INITIAL, run, t, OnLoop(0, Post));
  }

  /** A report the panel applies but that is seen to fail: the panel has bytes the store will report again. */
  lemma PanelCountsTwice(k: Key, b: Bytes)
    requires b.NonNegative() && Nonzero(b)
    ensures exists actions ::
              && Run(actions).Some? && ReporterAt(Run(actions).value, k.node) == Idle
              && TotalAt(Run(actions).value.panel, k) == b
              && TotalAt(Run(actions).value.committed, k) == NONE && UseAt(Run(actions).value.usage, k).bytes == b
  {
    var run, s := ServeOne(k, b);
    run, s := SweepOne(run, s, k, b);
    var snap := Traffic(s.usage, k.node);
    run, s := Continue(INITIAL, run, s, OnReport(k.node, Snap));
    run, s := Continue(INITIAL, run, s, OnReport(k.node, Deliver));
    assert TotalAt(s.panel, k) == b;
    run, s := Continue(INITIAL, run, s, OnReport(k.node, Fail));
    assert Run(run).value == s;
  }

  /** A report that fails unheard may still be applied, after it was given up on. */
  lemma LateDeliveryHappens(k: Key, b: Bytes)
    requires b.NonNegative() && Nonzero(b)
    ensures exists actions ::
              && Run(actions).Some? && ReporterAt(Run(actions).value, k.node) == Idle
              && TotalAt(Run(actions).value.panel, k) == b && TotalAt(Run(actions).value.committed, k) == NONE
              && DeliverLate(0) in actions
  {
    var run, s := ServeOne(k, b);
    run, s := SweepOne(run, s, k, b);
    run, s := Continue(INITIAL, run, s, OnReport(k.node, Snap));
    run, s := Continue(INITIAL, run, s, OnReport(k.node, Fail));
    assert TotalAt(s.failed[0].snap, k) == b;
    run, s := Continue(INITIAL, run, s, DeliverLate(0));
    assert Run(run).value == s;
  }

  /** A connection may count bytes even after it was closed and released. */
  lemma LateCountHappens(k: Key, b: Bytes)
    requires b.NonNegative()
    ensures exists run, s, t ::
              && Run(run) == Some(s) && |s.conns| == 1 && s.conns[0].stage == Released && s.conns[0].counted == NONE
              && Run(run + [OnConn(0, Count(b))]) == Some(t) && |t.conns| == 1 && t.conns[0].counted == b
  {
    var run, s := LoseOne(k, NONE);
    var longer, t := Continue(INITIAL, run, s, OnConn(0, Count(b)));
    assert t.conns[0].counted == b;
  }

  /** Two connections, one after the other, leave two loops running. */
  lemma TwoLoopsHappen(k: Key)
    ensures exists actions :: Run(actions).Some? && |Run(actions).value.loops| == 2
  {
    var run, s := ServeOne(k, NONE);
    run, s := CloseOne(run, s);
    run, s := OpenOne(run, s, k, Tcp);
    run, s := Continue(INITIAL, run, s, OnConn(1, Wrap));
    run, s := Continue(INITIAL, run, s, OnConn(1, StartLoop));
    assert Run(run).value == s;
  }
}
