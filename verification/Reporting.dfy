/**
 The snapshot, report and commit protocol under interleaving: nothing is truncated, nothing acknowledged
 is lost, and what the panel has too much of is exactly the reports it applied but was not heard about.
 */
module Reporting {
  import opened Wrappers
  import opened Sums
  import opened Accounting
  import opened Tracking

  /** The bytes a snapshot reports for a user. */
  ghost function SnapAt(r: Reporter, k: Key): Bytes {
    if r.Idle? then NONE else TotalAt(r.snap, k)
  }

  /** What the panel has applied of the report under way. */
  ghost function AppliedNow(r: Reporter, k: Key): Bytes {
    match r
    case Idle => NONE
    case Sending(snap, delivered) => if delivered then TotalAt(snap, k) else NONE
    case Acked(snap) => TotalAt(snap, k)
  }

  /** What the panel applied of a report that was seen to fail. */
  ghost function Excess(k: Key, d: Direction): FailedReport -> int {
    (f: FailedReport) => if f.applied then TotalAt(f.snap, k).In(d) else 0
  }

  /** What was ever added to usage is still there or committed. */
  ghost predicate AddedExact(s: State, k: Key) {
    && TotalAt(s.added, k).up == UseAt(s.usage, k).bytes.up + TotalAt(s.committed, k).up
    && TotalAt(s.added, k).down == UseAt(s.usage, k).bytes.down + TotalAt(s.committed, k).down
  }

  /** Usage still holds all that the outstanding snapshot of the node reports. */
  ghost predicate Covered(s: State, k: Key) {
    && UseAt(s.usage, k).bytes.NonNegative()
    && TotalAt(s.committed, k).NonNegative()
    && SnapAt(ReporterAt(s, k.node), k).NonNegative()
    && SnapAt(ReporterAt(s, k.node), k).AtMost(UseAt(s.usage, k).bytes)
  }

  /** A snapshot speaks of its own node only. */
  ghost predicate OwnNode(s: State, node: Node, k: Key) {
    k.node != node ==> SnapAt(ReporterAt(s, node), k) == NONE
  }

  /** The panel's total: what was committed, what is applied and not yet committed, and the excess. */
  ghost predicate PanelExact(s: State, k: Key, d: Direction) {
    TotalAt(s.panel, k).In(d)
    == TotalAt(s.committed, k).In(d) + AppliedNow(ReporterAt(s, k.node), k).In(d) + Sum(s.failed, Excess(k, d))
  }

  /** No failed report ever took a negative amount along. */
  ghost predicate FailedNonNegative(s: State, k: Key) {
    forall i | 0 <= i < |s.failed| :: TotalAt(s.failed[i].snap, k).NonNegative()
  }

  lemma TotalOfCreditAll(m: Totals, more: Totals, k: Key)
    ensures TotalAt(CreditAll(m, more), k).up == TotalAt(m, k).up + TotalAt(more, k).up
    ensures TotalAt(CreditAll(m, more), k).down == TotalAt(m, k).down + TotalAt(more, k).down
  {
  }

  /** A commit takes off exactly what was snapshotted: min never truncates. */
  lemma CommitTakesSnapshot(s: State, node: Node, k: Key)
    requires ReportEnabled(s, node, Commit) && Covered(s, k) && OwnNode(s, node, k)
    ensures TotalAt(TakenAll(s.usage, ReporterAt(s, node).snap), k) == SnapAt(ReporterAt(s, node), k)
    ensures UseAt(ReportStep(s, node, Commit).usage, k)
            == UseAt(s.usage, k).(bytes := UseAt(s.usage, k).bytes.Minus(SnapAt(ReporterAt(s, node), k)))
  {
    var taken := TakenAll(s.usage, ReporterAt(s, node).snap);
    if k in ReporterAt(s, node).snap && k in s.usage {
      assert k in taken;
    } else {
      assert k !in taken;
    }
  }

  lemma ReportStepKeepsOwnNode(s: State, node: Node, x: ReportAction, n: Node, k: Key)
    requires ReportEnabled(s, node, x) && OwnNode(s, n, k)
    ensures OwnNode(ReportStep(s, node, x), n, k)
  {
  }

  /** What a commit leaves of a user's bytes, and what it adds to the committed totals. */
  lemma CommitMoves(s: State, node: Node, k: Key)
    requires ReportEnabled(s, node, Commit) && OwnNode(s, node, k) && Covered(s, k)
    ensures var t, snap := ReportStep(s, node, Commit), SnapAt(ReporterAt(s, node), k);
            && UseAt(t.usage, k).bytes.up == UseAt(s.usage, k).bytes.up - snap.up
            && UseAt(t.usage, k).bytes.down == UseAt(s.usage, k).bytes.down - snap.down
            && TotalAt(t.committed, k).up == TotalAt(s.committed, k).up + snap.up
            && TotalAt(t.committed, k).down == TotalAt(s.committed, k).down + snap.down
  {
    CommitTakesSnapshot(s, node, k);
    TotalOfCreditAll(s.committed, TakenAll(s.usage, ReporterAt(s, node).snap), k);
  }

  lemma CommitKeepsCovered(s: State, node: Node, k: Key)
    requires ReportEnabled(s, node, Commit) && OwnNode(s, node, k) && Covered(s, k)
    ensures Covered(ReportStep(s, node, Commit), k)
  {
    CommitMoves(s, node, k);
  }

  lemma SnapKeepsCovered(s: State, node: Node, k: Key)
    requires ReportEnabled(s, node, Snap) && Covered(s, k)
    ensures Covered(ReportStep(s, node, Snap), k)
  {
  }

  lemma ReportStepKeepsCovered(s: State, node: Node, x: ReportAction, k: Key)
    requires ReportEnabled(s, node, x) && OwnNode(s, node, k) && Covered(s, k)
    ensures Covered(ReportStep(s, node, x), k)
  {
    match x
    case Snap => SnapKeepsCovered(s, node, k);
    case Commit => CommitKeepsCovered(s, node, k);
    case Deliver => case Ack => case Fail =>
  }

  lemma ReportStepKeepsAdded(s: State, node: Node, x: ReportAction, k: Key)
    requires ReportEnabled(s, node, x) && OwnNode(s, node, k) && Covered(s, k) && AddedExact(s, k)
    ensures AddedExact(ReportStep(s, node, x), k)
  {
    if x.Commit? {
      CommitMoves(s, node, k);
    }
  }

  /** Both sides of the panel's account change by the same amount. */
  ghost predicate Balanced(s: State, t: State, k: Key) {
    var before, after := AppliedNow(ReporterAt(s, k.node), k), AppliedNow(ReporterAt(t, k.node), k);
    && TotalAt(t.panel, k).up - TotalAt(s.panel, k).up == TotalAt(t.committed, k).up - TotalAt(s.committed, k).up + after.up - before.up
    && TotalAt(t.panel, k).down - TotalAt(s.panel, k).down == TotalAt(t.committed, k).down - TotalAt(s.committed, k).down + after.down - before.down
  }

  lemma BalancedKeepsPanel(s: State, t: State, k: Key, d: Direction)
    requires PanelExact(s, k, d) && t.failed == s.failed && Balanced(s, t, k)
    ensures PanelExact(t, k, d)
  {
  }

  lemma CommitBalances(s: State, node: Node, k: Key)
    requires ReportEnabled(s, node, Commit) && OwnNode(s, node, k) && Covered(s, k)
    ensures Balanced(s, ReportStep(s, node, Commit), k)
  {
    var t := ReportStep(s, node, Commit);
    var taken := TakenAll(s.usage, ReporterAt(s, node).snap);
    CommitTakesSnapshot(s, node, k);
    TotalOfCreditAll(s.committed, taken, k);
    if k.node == node {
      assert AppliedNow(ReporterAt(t, k.node), k) == NONE && AppliedNow(ReporterAt(s, k.node), k) == TotalAt(taken, k);
    } else {
      assert TotalAt(taken, k) == NONE && AppliedNow(ReporterAt(t, k.node), k) == AppliedNow(ReporterAt(s, k.node), k);
    }
  }

  lemma DeliverBalances(s: State, node: Node, k: Key)
    requires ReportEnabled(s, node, Deliver) && OwnNode(s, node, k)
    ensures Balanced(s, ReportStep(s, node, Deliver), k)
  {
    var t := ReportStep(s, node, Deliver);
    var snap := ReporterAt(s, node).snap;
    TotalOfCreditAll(s.panel, snap, k);
    if k.node == node {
      assert AppliedNow(ReporterAt(t, k.node), k) == TotalAt(snap, k) && AppliedNow(ReporterAt(s, k.node), k) == NONE;
    } else {
      assert TotalAt(snap, k) == NONE && AppliedNow(ReporterAt(t, k.node), k) == AppliedNow(ReporterAt(s, k.node), k);
    }
  }

  lemma FailKeepsPanel(s: State, node: Node, k: Key, d: Direction)
    requires ReportEnabled(s, node, Fail) && OwnNode(s, node, k) && PanelExact(s, k, d)
    ensures PanelExact(ReportStep(s, node, Fail), k, d)
  {
    var at := ReporterAt(s, node);
    SumAppend(s.failed, FailedReport(at.snap, at.delivered), Excess(k, d));
  }

  lemma ReportStepKeepsPanel(s: State, node: Node, x: ReportAction, k: Key, d: Direction)
    requires ReportEnabled(s, node, x) && OwnNode(s, node, k) && Covered(s, k) && PanelExact(s, k, d)
    ensures PanelExact(ReportStep(s, node, x), k, d)
  {
    match x
    case Deliver =>
      DeliverBalances(s, node, k);
      BalancedKeepsPanel(s, ReportStep(s, node, x), k, d);
    case Fail => FailKeepsPanel(s, node, k, d);
    case Commit =>
      CommitBalances(s, node, k);
      BalancedKeepsPanel(s, ReportStep(s, node, x), k, d);
    case _ =>
  }

  lemma ReportStepKeepsFailed(s: State, node: Node, x: ReportAction, k: Key)
    requires ReportEnabled(s, node, x) && OwnNode(s, node, k) && Covered(s, k) && FailedNonNegative(s, k)
    ensures FailedNonNegative(ReportStep(s, node, x), k)
  {
    if x.Fail? {
      assert TotalAt(ReporterAt(s, node).snap, k) == SnapAt(ReporterAt(s, node), k);
    }
  }

  lemma LateDeliveryKeepsPanel(s: State, f: nat, k: Key, d: Direction)
    requires Enabled(s, DeliverLate(f)) && PanelExact(s, k, d)
    ensures PanelExact(Step(s, DeliverLate(f)), k, d)
  {
    TotalOfCreditAll(s.panel, s.failed[f].snap, k);
    SumUpdate(s.failed, f, s.failed[f].(applied := true), Excess(k, d));
  }

  /** Steps of connections and loops leave the protocol alone. */
  predicate SameProtocol(s: State, t: State) {
    t.reporters == s.reporters && t.committed == s.committed && t.panel == s.panel && t.failed == s.failed
  }

  /** They only ever add bytes to usage, and count what they add. */
  ghost predicate OnlyAdds(s: State, t: State, k: Key) {
    var before, after := UseAt(s.usage, k).bytes, UseAt(t.usage, k).bytes;
    && before.AtMost(after)
    && TotalAt(t.added, k).up - TotalAt(s.added, k).up == after.up - before.up
    && TotalAt(t.added, k).down - TotalAt(s.added, k).down == after.down - before.down
  }

  lemma PostedOnlyAdds(s: State, t: State, owner: Key, b: Bytes, k: Key)
    requires b.NonNegative() && t.usage == PostedTo(s.usage, owner, b) && t.added == Credit(s.added, owner, b)
    ensures OnlyAdds(s, t, k)
  {
  }

  lemma ConnStepSameProtocol(s: State, i: nat, x: ConnAction)
    requires ConnEnabled(s, i, x)
    ensures SameProtocol(s, ConnStep(s, i, x))
    ensures !x.CloseFlush? ==> ConnStep(s, i, x).added == s.added
  {
    match x
    case Enter => case Activate => case Total => case Wrap => case StartLoop =>
    case Count(_) => case CloseFlag => case CloseFlush => case Unregister => case Release =>
  }

  lemma LoopStepSameProtocol(s: State, l: nat, x: LoopAction)
    requires LoopEnabled(s, l, x)
    ensures SameProtocol(s, LoopStep(s, l, x))
  {
    match x
    case Tick => case Load(_) => case SwapUp => case SwapDown => case Check => case Post => case EndSweep =>
  }

  lemma ConnStepOnlyAdds(s: State, i: nat, x: ConnAction, k: Key)
    requires ConnEnabled(s, i, x) && s.conns[i].pending.NonNegative()
    ensures OnlyAdds(s, ConnStep(s, i, x), k)
  {
    if x.CloseFlush? && !FlushReturnsAtOnce(s.conns[i]) {
      PostedOnlyAdds(s, ConnStep(s, i, x), s.conns[i].key, s.conns[i].pending, k);
    } else {
      ConnStepBytes(s, i, x, k);
      ConnStepSameProtocol(s, i, x);
    }
  }

  lemma LoopStepOnlyAdds(s: State, l: nat, x: LoopAction, k: Key)
    requires LoopEnabled(s, l, x) && (x.Post? ==> s.loops[l].taken.NonNegative())
    ensures OnlyAdds(s, LoopStep(s, l, x), k)
  {
    if x.Post? {
      PostedOnlyAdds(s, LoopStep(s, l, x), s.loops[l].key, s.loops[l].taken, k);
    } else {
      assert LoopStep(s, l, x).usage == s.usage && LoopStep(s, l, x).added == s.added;
    }
  }

  ghost predicate ProtocolExact(s: State) {
    && (forall k :: Covered(s, k) && AddedExact(s, k))
    && (forall k :: FailedNonNegative(s, k))
    && (forall node, k :: OwnNode(s, node, k))
    && (forall k, d :: PanelExact(s, k, d))
  }

  lemma OnlyAddsKeepsProtocol(s: State, t: State)
    requires ProtocolExact(s) && SameProtocol(s, t) && forall k :: OnlyAdds(s, t, k)
    ensures ProtocolExact(t)
  {
    forall k ensures Covered(t, k) && AddedExact(t, k) {
      assert Covered(s, k) && OnlyAdds(s, t, k);
    }
    forall k ensures FailedNonNegative(t, k) {
      assert FailedNonNegative(s, k);
    }
    forall node, k ensures OwnNode(t, node, k) {
      assert OwnNode(s, node, k);
    }
    forall k, d ensures PanelExact(t, k, d) {
      assert PanelExact(s, k, d);
    }
  }

  lemma ReportStepKeepsProtocol(s: State, node: Node, x: ReportAction)
    requires ReportEnabled(s, node, x) && ProtocolExact(s)
    ensures ProtocolExact(ReportStep(s, node, x))
  {
    var t := ReportStep(s, node, x);
    forall n, k ensures OwnNode(t, n, k) {
      ReportStepKeepsOwnNode(s, node, x, n, k);
    }
    forall k ensures Covered(t, k) && AddedExact(t, k) {
      ReportStepKeepsCovered(s, node, x, k);
      ReportStepKeepsAdded(s, node, x, k);
    }
    forall k ensures FailedNonNegative(t, k) {
      ReportStepKeepsFailed(s, node, x, k);
    }
    forall k, d ensures PanelExact(t, k, d) {
      ReportStepKeepsPanel(s, node, x, k, d);
    }
  }

  lemma LateDeliveryKeepsProtocol(s: State, f: nat)
    requires Enabled(s, DeliverLate(f)) && ProtocolExact(s)
    ensures ProtocolExact(Step(s, DeliverLate(f)))
  {
    var t := Step(s, DeliverLate(f));
    forall k ensures Covered(t, k) && AddedExact(t, k) {
      assert Covered(s, k);
    }
    forall k ensures FailedNonNegative(t, k) {
      assert FailedNonNegative(s, k);
    }
    forall node, k ensures OwnNode(t, node, k) {
      assert OwnNode(s, node, k);
    }
    forall k, d ensures PanelExact(t, k, d) {
      LateDeliveryKeepsPanel(s, f, k, d);
    }
  }

  lemma ConnStepKeepsProtocol(s: State, i: nat, x: ConnAction)
    requires ConnEnabled(s, i, x) && s.conns[i].pending.NonNegative() && ProtocolExact(s)
    ensures ProtocolExact(ConnStep(s, i, x))
  {
    forall k ensures OnlyAdds(s, ConnStep(s, i, x), k) {
      ConnStepOnlyAdds(s, i, x, k);
    }
    ConnStepSameProtocol(s, i, x);
    OnlyAddsKeepsProtocol(s, ConnStep(s, i, x));
  }

  lemma LoopStepKeepsProtocol(s: State, l: nat, x: LoopAction)
    requires LoopEnabled(s, l, x) && (x.Post? ==> s.loops[l].taken.NonNegative()) && ProtocolExact(s)
    ensures ProtocolExact(LoopStep(s, l, x))
  {
    forall k ensures OnlyAdds(s, LoopStep(s, l, x), k) {
      LoopStepOnlyAdds(s, l, x, k);
    }
    LoopStepSameProtocol(s, l, x);
    OnlyAddsKeepsProtocol(s, LoopStep(s, l, x));
  }

  lemma StepKeepsProtocol(s: State, a: Action)
    requires Structure(s) && Enabled(s, a) && ProtocolExact(s)
    ensures ProtocolExact(Step(s, a))
  {
    match a
    case List(_) => OnlyAddsKeepsProtocol(s, Step(s, a));
    case Admit(_, _) => OnlyAddsKeepsProtocol(s, Step(s, a));
    case OnConn(i, x) =>
      assert ConnOk(s.conns[i], s.users);
      ConnStepKeepsProtocol(s, i, x);
    case OnLoop(l, x) =>
      assert LoopOk(s.loops[l], s.conns, s.tracked);
      LoopStepKeepsProtocol(s, l, x);
    case OnReport(node, x) => ReportStepKeepsProtocol(s, node, x);
    case DeliverLate(f) => LateDeliveryKeepsProtocol(s, f);
  }
}
