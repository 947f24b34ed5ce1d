/** What holds in every run of the accounting system, whatever the order of its steps. */
module Runs {
  import opened Wrappers
  import opened Sums
  import opened Accounting
  import opened Tracking
  import opened Conservation
  import opened Connections
  import opened Reporting

  ghost predicate Good(s: State) {
    && Structure(s)
    && (forall k, d :: Conserved(s, k, d))
    && CountersExact(s)
    && ProtocolExact(s)
  }

  lemma InitiallyConserved(k: Key, d: Direction)
    ensures Conserved(INITIAL, k, d)
  {
  }

  lemma InitialProtocol()
    ensures ProtocolExact(INITIAL)
  {
    forall k, d ensures PanelExact(INITIAL, k, d) {
      assert TotalAt(INITIAL.panel, k) == NONE && ReporterAt(INITIAL, k.node) == Idle;
    }
  }

  lemma InitialStructure()
    ensures Structure(INITIAL)
  {
  }

  lemma InitiallyGood()
    ensures Good(INITIAL)
  {
    InitialStructure();
    forall k, d ensures Conserved(INITIAL, k, d) {
      InitiallyConserved(k, d);
    }
    StartCounters(INITIAL);
    InitialProtocol();
  }

  lemma StepKeepsGood(s: State, a: Action)
    requires Good(s) && Enabled(s, a)
    ensures Good(Step(s, a))
  {
    var t := Step(s, a);
    StepKeepsStructure(s, a);
    forall k, d ensures Conserved(t, k, d) {
      assert Conserved(s, k, d);
      StepConserves(s, a, k, d);
    }
    StepKeepsCounters(s, a);
    StepKeepsProtocol(s, a);
  }

  lemma {:induction false} RunKeepsGood(s: State, actions: seq<Action>)
    requires Good(s) && RunFrom(s, actions).Some?
    ensures Good(RunFrom(s, actions).value)
  {
    if actions != [] {
      var init, a := actions[..|actions| - 1], actions[|actions| - 1];
      RunKeepsGood(s, init);
      StepKeepsGood(RunFrom(s, init).value, a);
    }
  }

  /** One more action of a run. */
  lemma Continue(start: State, actions: seq<Action>, s: State, a: Action) returns (longer: seq<Action>, t: State)
    requires RunFrom(start, actions) == Some(s) && Enabled(s, a)
    ensures RunFrom(start, longer) == Some(t) && t == Step(s, a) && longer == actions + [a]
  {
    longer, t := actions + [a], Step(s, a);
    assert longer[..|longer| - 1] == actions;
  }

  lemma ReachableIsGood(actions: seq<Action>)
    requires Run(actions).Some?
    ensures Good(Run(actions).value)
  {
    InitiallyGood();
    RunKeepsGood(INITIAL, actions);
  }

  /** The bytes of a direction an action of a run transfers for a user, uploads and downloads apart. */
  function TransferredBy(s: State, a: Action, k: Key, d: Direction): int {
    if a.OnConn? && a.conn.Count? && a.i < |s.conns| && s.conns[a.i].key == k
    then (match d case Up => a.conn.n.up case Down => a.conn.n.down)
    else 0
  }

  /** All bytes transferred in a run. */
  function Transferred(actions: seq<Action>, k: Key, d: Direction): int {
    if actions == [] then 0
    else
      var init, a := actions[..|actions| - 1], actions[|actions| - 1];
      Transferred(init, k, d) + if Run(init).Some? then TransferredBy(Run(init).value, a, k, d) else 0
  }

  lemma StepCounts(s: State, a: Action, k: Key, d: Direction)
    requires Enabled(s, a)
    ensures Counted(Step(s, a), k, d) == Counted(s, k, d) + TransferredBy(s, a, k, d)
  {
    match a
    case OnConn(i, x) =>
      ConnStepConns(s, i, x);
      SumUpdate(s.conns, i, NextConn(s.conns[i], x, s.flusherRun), CountedBy(k, d));
    case OnLoop(l, x) => LoopStepKeepsSum(s, l, x, CountedBy(k, d));
    case Admit(key, kind) => SumAppend(s.conns, Fresh(key, kind), CountedBy(k, d));
    case OnReport(_, _) => case List(_) => case DeliverLate(_) =>
  }

  /** The wrappers count exactly what is transferred, in the direction it is transferred. */
  lemma {:induction false} CountedIsTransferred(actions: seq<Action>, k: Key, d: Direction)
    requires Run(actions).Some?
    ensures Counted(Run(actions).value, k, d) == Transferred(actions, k, d)
  {
    if actions != [] {
      var init, a := actions[..|actions| - 1], actions[|actions| - 1];
      CountedIsTransferred(init, k, d);
      StepCounts(Run(init).value, a, k, d);
    }
  }

  /**
   Traffic conservation. For each user, node and direction, the bytes transferred in a run are what all wrappers
   counted, and they are pending in wrappers (closed ones included), in a flusher's hands, in usage, or
   committed; none was dropped.
   */
  lemma TrafficConserved(actions: seq<Action>, k: Key, d: Direction)
    requires Run(actions).Some?
    ensures var s := Run(actions).value;
            && Transferred(actions, k, d) == Counted(s, k, d)
            && Counted(s, k, d)
               == Pending(s, k, d) + InHands(s, k, d) + UseAt(s.usage, k).bytes.In(d) + TotalAt(s.committed, k).In(d)
            && s.dropped == map[]
  {
    ReachableIsGood(actions);
    CountedIsTransferred(actions, k, d);
    assert Conserved(Run(actions).value, k, d);
  }

  /** A packet connection never hands over a byte: all it ever counted is still in its own counters. */
  lemma PacketBytesStay(actions: seq<Action>, i: nat)
    requires Run(actions).Some? && i < |Run(actions).value.conns|
    ensures var c := Run(actions).value.conns[i];
            c.kind == Packet ==> c.pending == c.counted
  {
    ReachableIsGood(actions);
    assert ConnOk(Run(actions).value.conns[i], Run(actions).value.users);
  }

  lemma NothingHeldIff(s: State, k: Key, d: Direction)
    requires LoopsOk(s)
    ensures InHands(s, k, d) >= 0
    ensures InHands(s, k, d) == 0 <==> forall l | 0 <= l < |s.loops| :: HeldBy(k, d)(s.loops[l]) == 0
  {
    forall l | 0 <= l < |s.loops| ensures HeldBy(k, d)(s.loops[l]) >= 0 {
      assert LoopOk(s.loops[l], s.conns, s.tracked);
    }
    SumZeroIff(s.loops, HeldBy(k, d));
    SumNonNegative(s.loops, HeldBy(k, d));
  }

  /** So a user with packet connections only is never charged, never reported and never committed. */
  lemma PacketTrafficNeverReported(actions: seq<Action>, k: Key)
    requires Run(actions).Some?
    requires forall c | c in Run(actions).value.conns && c.key == k :: c.kind == Packet
    ensures var s := Run(actions).value;
            && UseAt(s.usage, k).bytes == NONE && TotalAt(s.committed, k) == NONE
            && k !in Traffic(s.usage, k.node)
  {
    var s := Run(actions).value;
    ReachableIsGood(actions);
    forall d ensures UseAt(s.usage, k).bytes.In(d) + TotalAt(s.committed, k).In(d) <= 0 {
      forall i | 0 <= i < |s.conns| ensures CountedBy(k, d)(s.conns[i]) == PendingIn(k, d)(s.conns[i]) {
        assert ConnOk(s.conns[i], s.users) && s.conns[i] in s.conns;
      }
      SumCongruent(s.conns, CountedBy(k, d), PendingIn(k, d));
      NothingHeldIff(s, k, d);
      assert Conserved(s, k, d);
    }
    assert Covered(s, k);
    assert UseAt(s.usage, k).bytes.In(Up) + TotalAt(s.committed, k).In(Up) <= 0;
    assert UseAt(s.usage, k).bytes.In(Down) + TotalAt(s.committed, k).In(Down) <= 0;
  }

  /**
   Connection counters. Each user's active field is that user's open connections at the node; the
   atomic counter is behind by the opens still between the two counts, and so never negative.
   */
  lemma ConnectionCountersExact(actions: seq<Action>, k: Key)
    requires Run(actions).Some?
    ensures var s := Run(actions).value;
            && UseAt(s.usage, k).active == Sum(s.conns, OpenAt(k))
            && s.active + Sum(s.conns, Entering()) == Sum(s.conns, OpenAnywhere())
            && s.active >= 0
            && s.total == Sum(s.conns, Begun())
  {
    var s := Run(actions).value;
    ReachableIsGood(actions);
    assert ActiveExact(s, k);
    CountedOpensNonNegative(s.conns);
  }

  lemma {:induction false} CountedOpensNonNegative(conns: seq<Conn>)
    ensures Sum(conns, OpenAnywhere()) >= Sum(conns, Entering())
  {
    if conns != [] {
      CountedOpensNonNegative(conns[..|conns| - 1]);
    }
  }

  /** A node's online report has exactly the users with open connections there, each with their number. */
  lemma OnlineExact(actions: seq<Action>, node: Node, k: Key)
    requires Run(actions).Some?
    ensures var s := Run(actions).value;
            && (k in Online(s.usage, node) <==> k.node == node && Sum(s.conns, OpenAt(k)) > 0)
            && (k in Online(s.usage, node) ==> Online(s.usage, node)[k] == Sum(s.conns, OpenAt(k)))
  {
    ConnectionCountersExact(actions, k);
  }

  /** Close's guard never fails: the entry of a connection about to be released is positive. */
  lemma CloseGuardNeverFails(actions: seq<Action>, i: nat)
    requires Run(actions).Some? && ConnEnabled(Run(actions).value, i, Release)
    ensures UseAt(Run(actions).value.usage, Run(actions).value.conns[i].key).active > 0
  {
    ReachableIsGood(actions);
    var s := Run(actions).value;
    assert ActiveExact(s, s.conns[i].key);
    GuardHolds(s, i);
  }

  lemma {:induction false} OpenByKey(conns: seq<Conn>, keys: set<Key>)
    requires forall c | c in conns :: c.key in keys
    ensures SumOver(keys, (k: Key) => Sum(conns, OpenAt(k))) == Sum(conns, OpenAnywhere())
  {
    var f := (k: Key) => Sum(conns, OpenAt(k));
    if conns == [] {
      SumOverZero(keys, f);
    } else {
      var init, c := conns[..|conns| - 1], conns[|conns| - 1];
      assert c in conns;
      var g := (k: Key) => Sum(init, OpenAt(k));
      OpenByKey(init, keys);
      SumOverAny(keys, f, c.key);
      SumOverAny(keys, g, c.key);
      SumOverCongruent(keys - {c.key}, f, g);
    }
  }

  ghost function ActiveIn(usage: Usage): Key -> int {
    (k: Key) => UseAt(usage, k).active
  }

  /**
   The active fields of all users at all nodes add up to the atomic counter and the opens it is still behind
   by, which is all connections opened and not yet released.
   */
  lemma ActiveFieldsAddUp(actions: seq<Action>, keys: set<Key>)
    requires Run(actions).Some? && forall c | c in Run(actions).value.conns :: c.key in keys
    ensures var s := Run(actions).value;
            && SumOver(keys, ActiveIn(s.usage)) == s.active + Sum(s.conns, Entering())
            && SumOver(keys, ActiveIn(s.usage)) == Sum(s.conns, OpenAnywhere())
  {
    var s := Run(actions).value;
    ReachableIsGood(actions);
    var f := (k: Key) => Sum(s.conns, OpenAt(k));
    forall k | k in keys ensures ActiveIn(s.usage)(k) == f(k) {
      assert ActiveExact(s, k);
    }
    SumOverCongruent(keys, ActiveIn(s.usage), f);
    OpenByKey(s.conns, keys);
  }

  lemma {:induction false} SumOverZero(keys: set<Key>, f: Key -> int)
    requires forall k | k in keys :: f(k) == 0
    ensures SumOver(keys, f) == 0
  {
    if keys != {} {
      var k :| k in keys;
      SumOverAny(keys, f, k);
      SumOverZero(keys - {k}, f);
    }
  }

  /**
   Flusher registration. The flag is set exactly while something is tracked, and the loops running or
   about to start are as many as the times tracking began anew; so some loop serves every tracked connection.
   */
  lemma FlusherRegistrationExact(actions: seq<Action>)
    requires Run(actions).Some?
    ensures var s := Run(actions).value;
            && (s.flusherRun <==> s.tracked != {})
            && |s.loops| + Sum(s.conns, AboutToStart()) == s.bursts
            && (s.tracked != {} ==> |s.loops| + Sum(s.conns, AboutToStart()) >= 1)
  {
    ReachableIsGood(actions);
  }

  /** The flush loops there are: those running, and those a registration is about to start. */
  ghost function LoopsMade(s: State): int {
    |s.loops| + Sum(s.conns, AboutToStart())
  }

  /** The comment promises a single loop. A registration makes one more exactly if it finds nothing tracked. */
  lemma RegistrationMakesLoopIff(actions: seq<Action>, i: nat)
    requires Run(actions).Some? && ConnEnabled(Run(actions).value, i, Wrap) && Run(actions).value.conns[i].kind == Tcp
    ensures var s := Run(actions).value;
            LoopsMade(ConnStep(s, i, Wrap)) == LoopsMade(s) + if s.tracked == {} then 1 else 0
  {
    ReachableIsGood(actions);
    StepKeepsCounters(Run(actions).value, OnConn(i, Wrap));
  }

  /** Action j of a run is a registration that finds nothing tracked. */
  predicate BeginsIn(s: State, a: Action) {
    a.OnConn? && a.i < |s.conns| && Begins(s.tracked, s.conns[a.i], a.conn)
  }

  predicate BeginsAt(actions: seq<Action>, j: nat) {
    j < |actions| && Run(actions[..j]).Some? && BeginsIn(Run(actions[..j]).value, actions[j])
  }

  function Beginnings(actions: seq<Action>): nat {
    if actions == [] then 0
    else Beginnings(actions[..|actions| - 1]) + if BeginsAt(actions, |actions| - 1) then 1 else 0
  }

  lemma StepBursts(s: State, a: Action)
    requires Enabled(s, a)
    ensures Step(s, a).bursts == s.bursts + if BeginsIn(s, a) then 1 else 0
  {
  }

  lemma {:induction false} BurstsAreBeginnings(actions: seq<Action>)
    requires Run(actions).Some?
    ensures Run(actions).value.bursts == Beginnings(actions)
  {
    if actions != [] {
      var init := actions[..|actions| - 1];
      BurstsAreBeginnings(init);
      StepBursts(Run(init).value, actions[|actions| - 1]);
    }
  }

  lemma BeginsAtInit(actions: seq<Action>, j: nat)
    requires j < |actions| - 1
    ensures BeginsAt(actions, j) <==> BeginsAt(actions[..|actions| - 1], j)
  {
    assert actions[..|actions| - 1][..j] == actions[..j];
  }

  ghost predicate NeverBegins(actions: seq<Action>) {
    forall j: nat | j < |actions| :: !BeginsAt(actions, j)
  }

  ghost predicate BeginsOnce(actions: seq<Action>) {
    forall i: nat, j: nat | i < j < |actions| :: !(BeginsAt(actions, i) && BeginsAt(actions, j))
  }

  lemma BeginsSnoc(actions: seq<Action>)
    requires actions != []
    ensures var init, last := actions[..|actions| - 1], BeginsAt(actions, |actions| - 1);
            && (NeverBegins(actions) <==> NeverBegins(init) && !last)
            && (BeginsOnce(actions) <==> BeginsOnce(init) && (last ==> NeverBegins(init)))
  {
    var init, n := actions[..|actions| - 1], |actions| - 1;
    forall j: nat | j < n ensures BeginsAt(actions, j) <==> BeginsAt(init, j) {
      BeginsAtInit(actions, j);
    }
  }

  lemma {:induction false} BeginningsCount(actions: seq<Action>)
    ensures Beginnings(actions) == 0 <==> NeverBegins(actions)
    ensures Beginnings(actions) <= 1 <==> BeginsOnce(actions)
  {
    if actions != [] {
      BeginningsCount(actions[..|actions| - 1]);
      BeginsSnoc(actions);
    }
  }

  /** A run has made one loop at most exactly if no two of its registrations found nothing tracked. */
  lemma OneLoopIff(actions: seq<Action>)
    requires Run(actions).Some?
    ensures LoopsMade(Run(actions).value) <= 1 <==> BeginsOnce(actions)
  {
    ReachableIsGood(actions);
    BurstsAreBeginnings(actions);
    BeginningsCount(actions);
  }

  /** No two loops are ever inside a sweep. */
  lemma SweepsExclude(actions: seq<Action>, l: nat, m: nat)
    requires Run(actions).Some? && l < |Run(actions).value.loops| && m < |Run(actions).value.loops|
    requires Run(actions).value.loops[l] != Waiting && Run(actions).value.loops[m] != Waiting
    ensures l == m
  {
    ReachableIsGood(actions);
  }

  /** What of a user's traffic the panel has acknowledged but the store has not yet debited. */
  ghost function Uncommitted(s: State, k: Key, d: Direction): int {
    var at := ReporterAt(s, k.node);
    if at.Acked? then TotalAt(at.snap, k).In(d) else 0
  }

  /** What the panel has acknowledged of a user's traffic, and what is left to report. */
  ghost function Acknowledged(s: State, k: Key, d: Direction): int {
    TotalAt(s.committed, k).In(d) + Uncommitted(s, k, d)
  }

  ghost function Remaining(s: State, k: Key, d: Direction): int {
    UseAt(s.usage, k).bytes.In(d) - Uncommitted(s, k, d)
  }

  lemma UncommittedBounds(s: State, k: Key, d: Direction)
    requires Covered(s, k)
    ensures 0 <= Uncommitted(s, k, d) <= UseAt(s.usage, k).bytes.In(d) && TotalAt(s.committed, k).In(d) >= 0
  {
  }

  lemma AddedIn(s: State, k: Key, d: Direction)
    requires AddedExact(s, k)
    ensures TotalAt(s.added, k).In(d) == UseAt(s.usage, k).bytes.In(d) + TotalAt(s.committed, k).In(d)
  {
  }

  /**
   Reporting is lossless and exact. Acknowledged and remaining traffic add up to what was added, and
   neither is ever negative. The panel has exactly what was committed, what it applied of the report
   under way, and what it applied of reports that were seen to fail.
   */
  lemma ReportingExact(actions: seq<Action>, k: Key, d: Direction)
    requires Run(actions).Some?
    ensures var s := Run(actions).value;
            && Acknowledged(s, k, d) + Remaining(s, k, d) == TotalAt(s.added, k).In(d)
            && Acknowledged(s, k, d) >= 0 && Remaining(s, k, d) >= 0
    ensures PanelExact(Run(actions).value, k, d)
  {
    var s := Run(actions).value;
    ReachableIsGood(actions);
    assert Covered(s, k) && AddedExact(s, k);
    UncommittedBounds(s, k, d);
    AddedIn(s, k, d);
    assert PanelExact(s, k, d);
  }

  /** A commit takes each entry of its snapshot off in full: min never truncates, and nobody else is debited. */
  lemma CommitNeverTruncates(actions: seq<Action>, node: Node, k: Key)
    requires Run(actions).Some? && ReportEnabled(Run(actions).value, node, Commit)
    ensures var s := Run(actions).value;
            var t := ReportStep(s, node, Commit);
            && UseAt(t.usage, k).bytes.up == UseAt(s.usage, k).bytes.up - TotalAt(ReporterAt(s, node).snap, k).up
            && UseAt(t.usage, k).bytes.down == UseAt(s.usage, k).bytes.down - TotalAt(ReporterAt(s, node).snap, k).down
            && UseAt(t.usage, k).active == UseAt(s.usage, k).active
  {
    var s := Run(actions).value;
    ReachableIsGood(actions);
    assert Covered(s, k) && OwnNode(s, node, k);
    CommitTakesSnapshot(s, node, k);
  }

  /** Every report of the user that failed and was applied all the same had no bytes of it in this direction. */
  ghost predicate NothingApplied(failed: seq<FailedReport>, k: Key, d: Direction) {
    forall i | 0 <= i < |failed| && failed[i].applied :: TotalAt(failed[i].snap, k).In(d) == 0
  }

  /** Between reports the panel's total is what was debited exactly if no bytes of a failed report were applied. */
  lemma PanelAgreesIff(actions: seq<Action>, k: Key, d: Direction)
    requires Run(actions).Some? && ReporterAt(Run(actions).value, k.node) == Idle
    ensures var s := Run(actions).value;
            TotalAt(s.panel, k).In(d) == TotalAt(s.added, k).In(d) - UseAt(s.usage, k).bytes.In(d)
            <==> NothingApplied(s.failed, k, d)
  {
    var s := Run(actions).value;
    ReachableIsGood(actions);
    assert AddedExact(s, k) && PanelExact(s, k, d) && FailedNonNegative(s, k);
    AddedIn(s, k, d);
    NothingAppliedIff(s, k, d);
  }

  lemma NothingAppliedIff(s: State, k: Key, d: Direction)
    requires FailedNonNegative(s, k)
    ensures Sum(s.failed, Excess(k, d)) == 0 <==> NothingApplied(s.failed, k, d)
  {
    forall i | 0 <= i < |s.failed| ensures Excess(k, d)(s.failed[i]) >= 0 {
      assert TotalAt(s.failed[i].snap, k).NonNegative();
    }
    SumZeroIff(s.failed, Excess(k, d));
  }
}
