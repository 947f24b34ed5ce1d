/** The last report of a node, from its snapshot to the answer, whatever else goes on meanwhile. */
module LastReport {
  import opened Wrappers
  import opened Sums
  import opened Accounting
  import opened Tracking
  import opened Conservation
  import opened Connections
  import opened Reporting
  import opened Runs

  lemma TrafficIsUsage(s: State, k: Key, d: Direction)
    requires UseAt(s.usage, k).bytes.NonNegative()
    ensures TotalAt(Traffic(s.usage, k.node), k).In(d) == UseAt(s.usage, k).bytes.In(d)
  {
  }

  /** No wrapper of the user has bytes pending, and no flush loop holds any. */
  ghost predicate AllHandedOver(s: State, k: Key, d: Direction) {
    && (forall i | 0 <= i < |s.conns| :: PendingIn(k, d)(s.conns[i]) == 0)
    && (forall l | 0 <= l < |s.loops| :: HeldBy(k, d)(s.loops[l]) == 0)
  }

  lemma NothingPendingIff(s: State, k: Key, d: Direction)
    requires ConnsOk(s)
    ensures Pending(s, k, d) >= 0
    ensures Pending(s, k, d) == 0 <==> forall i | 0 <= i < |s.conns| :: PendingIn(k, d)(s.conns[i]) == 0
  {
    forall i | 0 <= i < |s.conns| ensures PendingIn(k, d)(s.conns[i]) >= 0 {
      assert ConnOk(s.conns[i], s.users);
    }
    SumZeroIff(s.conns, PendingIn(k, d));
    SumNonNegative(s.conns, PendingIn(k, d));
  }

  lemma AllHandedOverIff(s: State, k: Key, d: Direction)
    requires ConnsOk(s) && LoopsOk(s)
    ensures AllHandedOver(s, k, d) <==> Pending(s, k, d) + InHands(s, k, d) == 0
  {
    NothingPendingIff(s, k, d);
    NothingHeldIff(s, k, d);
  }

  /** Actions that begin with a node's snapshot and hold no other of it. */
  predicate OneReport(more: seq<Action>, node: Node) {
    more != [] && more[0] == OnReport(node, Snap) && forall j | 0 < j < |more| :: more[j] != OnReport(node, Snap)
  }

  predicate WasAcknowledged(more: seq<Action>, node: Node) {
    OnReport(node, Commit) in more
  }

  /** Only a node's own commit moves its users' bytes to the committed totals, and it moves its snapshot. */
  lemma StepCommitted(s: State, a: Action, k: Key, d: Direction)
    requires Good(s) && Enabled(s, a)
    ensures a == OnReport(k.node, Commit) ==>
              && ReporterAt(s, k.node).Acked?
              && TotalAt(Step(s, a).committed, k).In(d) == TotalAt(s.committed, k).In(d) + TotalAt(ReporterAt(s, k.node).snap, k).In(d)
    ensures a != OnReport(k.node, Commit) ==> TotalAt(Step(s, a).committed, k).In(d) == TotalAt(s.committed, k).In(d)
  {
    if a.OnReport? && a.report == Commit {
      assert Covered(s, k) && OwnNode(s, a.node, k);
      CommitMoves(s, a.node, k);
    }
  }

  /** Only a node's own report loop moves its reporter, and it keeps the snapshot until the report is over. */
  lemma StepReporter(s: State, a: Action, node: Node)
    requires Enabled(s, a) && a != OnReport(node, Snap)
    ensures var at, after := ReporterAt(s, node), ReporterAt(Step(s, a), node);
            && (after.Idle? <==> at.Idle? || a in {OnReport(node, Fail), OnReport(node, Commit)})
            && (!after.Idle? ==> !at.Idle? && after.snap == at.snap)
  {
  }

  lemma CountedOnlyGrows(s: State, a: Action, k: Key, d: Direction)
    requires Enabled(s, a)
    ensures Counted(Step(s, a), k, d) >= Counted(s, k, d)
  {
    StepCounts(s, a, k, d);
  }

  /** Where a report stands: under way with the snapshot it took, or over, with the snapshot committed or not. */
  ghost predicate Standing(s: State, t: State, more: seq<Action>, k: Key, d: Direction) {
    var at, snap := ReporterAt(t, k.node), Traffic(s.usage, k.node);
    var moved := if WasAcknowledged(more, k.node) then TotalAt(snap, k).In(d) else 0;
    && (!at.Idle? ==> at.snap == snap && !WasAcknowledged(more, k.node))
    && TotalAt(t.committed, k).In(d) == TotalAt(s.committed, k).In(d) + moved
    && Counted(t, k, d) >= Counted(s, k, d)
  }

  lemma SnapshotStands(s: State, k: Key, d: Direction)
    requires ReporterAt(s, k.node) == Idle
    ensures Standing(s, Step(s, OnReport(k.node, Snap)), [OnReport(k.node, Snap)], k, d)
  {
  }

  lemma StandingStep(s: State, init: seq<Action>, mid: State, a: Action, k: Key, d: Direction)
    requires Standing(s, mid, init, k, d) && Good(mid) && Enabled(mid, a) && a != OnReport(k.node, Snap)
    ensures Standing(s, Step(mid, a), init + [a], k, d)
  {
    StepCommitted(mid, a, k, d);
    StepReporter(mid, a, k.node);
    CountedOnlyGrows(mid, a, k, d);
    assert WasAcknowledged(init + [a], k.node) <==> WasAcknowledged(init, k.node) || a == OnReport(k.node, Commit);
  }

  lemma {:induction false} ReportStanding(s: State, more: seq<Action>, k: Key, d: Direction)
    requires Good(s) && ReporterAt(s, k.node) == Idle && OneReport(more, k.node) && RunFrom(s, more).Some?
    ensures Standing(s, RunFrom(s, more).value, more, k, d)
  {
    var init, a := more[..|more| - 1], more[|more| - 1];
    assert more == init + [a];
    if init == [] {
      assert RunFrom(s, init) == Some(s);
      assert more == [OnReport(k.node, Snap)];
      SnapshotStands(s, k, d);
    } else {
      RunKeepsGood(s, init);
      ReportStanding(s, init, k, d);
      StandingStep(s, init, RunFrom(s, init).value, a, k, d);
    }
  }

  /** The account of a user's traffic in a good state: no part of it is negative. */
  lemma Account(s: State, k: Key, d: Direction)
    requires Good(s)
    ensures Conserved(s, k, d) && Pending(s, k, d) >= 0 && InHands(s, k, d) >= 0
    ensures TotalAt(Traffic(s.usage, k.node), k).In(d) == UseAt(s.usage, k).bytes.In(d) >= 0
    ensures AllHandedOver(s, k, d) <==> Pending(s, k, d) + InHands(s, k, d) == 0
  {
    assert Covered(s, k);
    TrafficIsUsage(s, k, d);
    AllHandedOverIff(s, k, d);
    NothingPendingIff(s, k, d);
    NothingHeldIff(s, k, d);
  }

  /**
   The last report is said to keep data from being lost. Once it is over, all the traffic ever counted has been
   acknowledged exactly if every wrapper had handed over its bytes when the snapshot was taken, nothing was
   counted after it, and the report was acknowledged or had nothing of the user's to report.
   */
  lemma LastReportCompleteIff(actions: seq<Action>, more: seq<Action>, k: Key, d: Direction)
    requires Run(actions).Some? && ReporterAt(Run(actions).value, k.node) == Idle
    requires OneReport(more, k.node) && RunFrom(Run(actions).value, more).Some?
    requires ReporterAt(RunFrom(Run(actions).value, more).value, k.node) == Idle
    ensures var s, t := Run(actions).value, RunFrom(Run(actions).value, more).value;
            Acknowledged(t, k, d) == Counted(t, k, d)
            <==> && AllHandedOver(s, k, d)
                 && Counted(t, k, d) == Counted(s, k, d)
                 && (WasAcknowledged(more, k.node) || TotalAt(Traffic(s.usage, k.node), k).In(d) == 0)
  {
    ReachableIsGood(actions);
    ReportStanding(Run(actions).value, more, k, d);
    ReportTally(Run(actions).value, RunFrom(Run(actions).value, more).value, more, k, d);
  }

  lemma ReportTally(s: State, t: State, more: seq<Action>, k: Key, d: Direction)
    requires Good(s) && Standing(s, t, more, k, d) && ReporterAt(t, k.node) == Idle
    ensures Acknowledged(t, k, d) == Counted(t, k, d)
            <==> && AllHandedOver(s, k, d)
                 && Counted(t, k, d) == Counted(s, k, d)
                 && (WasAcknowledged(more, k.node) || TotalAt(Traffic(s.usage, k.node), k).In(d) == 0)
  {
    Account(s, k, d);
    assert Uncommitted(t, k, d) == 0;
  }
}
