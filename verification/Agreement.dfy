/**
 The interleaved model takes each critical section of the store as one step. Here those steps are shown
 to do to the usage counters what the store's own methods do.
 */
module Agreement {
  import opened Panel
  import opened Usage
  import opened S = Store
  import opened Report
  import A = Accounting
  import Reporting
  import Tracker

  /** Both models have the same counters for a user at a node. */
  predicate SameCounters(c: Counters, use: A.Use) {
    c.upload == use.bytes.up && c.download == use.bytes.down && c.active == use.active
  }

  predicate SameAt(usage: UsageMap, s: A.State, node: string, id: Int64) {
    SameCounters(At(usage, node, id), A.UseAt(s.usage, A.Key(node, id)))
  }

  ghost predicate Agrees(usage: UsageMap, s: A.State) {
    forall node, id: Int64 :: SameAt(usage, s, node, id)
  }

  /** Open's count is the step that enters usage. */
  lemma OpenAgrees(usage: UsageMap, s: A.State, i: nat, node: string, id: Int64)
    requires Agrees(usage, s) && A.ConnEnabled(s, i, A.Enter) && s.conns[i].key == A.Key(node, id)
    ensures Agrees(Opened(usage, node, id), A.ConnStep(s, i, A.Enter))
  {
    forall n, k: Int64 ensures SameAt(Opened(usage, node, id), A.ConnStep(s, i, A.Enter), n, k) {
      assert SameAt(usage, s, n, k) && SameAt(usage, s, node, id);
    }
  }

  /** Store.Close is the step that releases. */
  lemma CloseAgrees(usage: UsageMap, s: A.State, i: nat, node: string, id: Int64)
    requires Agrees(usage, s) && A.ConnEnabled(s, i, A.Release) && s.conns[i].key == A.Key(node, id)
    ensures Agrees(Tracker.Released(usage, node, id), A.ConnStep(s, i, A.Release))
  {
    forall n, k: Int64 ensures SameAt(Tracker.Released(usage, node, id), A.ConnStep(s, i, A.Release), n, k) {
      assert SameAt(usage, s, n, k) && SameAt(usage, s, node, id);
    }
  }

  /** Add of a listed user's bytes is the step that posts what a flush loop has in hand. */
  lemma AddAgrees(usage: UsageMap, users: Shard, s: A.State, l: nat, node: string, id: Int64)
    requires Agrees(usage, s) && A.LoopEnabled(s, l, A.Post) && s.loops[l].key == A.Key(node, id) && id in users
    ensures var taken := s.loops[l].taken;
            Agrees(AddOne(usage, users, Addition(node, id, taken.up, taken.down)), A.LoopStep(s, l, A.Post))
  {
    var added := AddOne(usage, users, Addition(node, id, s.loops[l].taken.up, s.loops[l].taken.down));
    forall n, k: Int64 ensures SameAt(added, A.LoopStep(s, l, A.Post), n, k) {
      assert SameAt(usage, s, n, k) && SameAt(usage, s, node, id);
    }
  }

  /** A snapshot of either model reports the same users with the same bytes. */
  predicate SameReport(snapped: map<Int64, (int, int)>, snap: A.Totals, node: string, id: Int64) {
    && (id in snapped <==> A.Key(node, id) in snap)
    && (id in snapped ==> snapped[id] == (snap[A.Key(node, id)].up, snap[A.Key(node, id)].down))
  }

  lemma SnapshotAgrees(usage: UsageMap, s: A.State, node: string, id: Int64)
    requires SameAt(usage, s, node, id)
    ensures SameReport(Busy(NodeAt(usage, node)), A.Traffic(s.usage, node), node, id)
  {
    var users := NodeAt(usage, node);
    assert At(usage, node, id) == if id in users then users[id] else ZERO;
  }

  lemma OnlineAgrees(usage: UsageMap, s: A.State, node: string, id: Int64)
    requires SameAt(usage, s, node, id)
    ensures var online, other := Online(NodeAt(usage, node)), A.Online(s.usage, node);
            && (id in online <==> A.Key(node, id) in other)
            && (id in online ==> online[id] == other[A.Key(node, id)])
  {
    var users := NodeAt(usage, node);
    assert At(usage, node, id) == if id in users then users[id] else ZERO;
  }

  lemma CoversAgrees(usage: UsageMap, s: A.State, node: string, snapped: map<Int64, (int, int)>)
    requires Agrees(usage, s) && A.ReporterAt(s, node).Acked?
    requires forall id: Int64 :: SameReport(snapped, A.ReporterAt(s, node).snap, node, id)
    requires forall id: Int64 :: Reporting.Covered(s, A.Key(node, id))
    requires forall id | id in snapped :: snapped[id].0 > 0 || snapped[id].1 > 0
    ensures Covers(NodeAt(usage, node), snapped)
  {
    forall id | id in snapped
      ensures id in NodeAt(usage, node)
      ensures 0 <= snapped[id].0 <= NodeAt(usage, node)[id].upload && 0 <= snapped[id].1 <= NodeAt(usage, node)[id].download
    {
      assert SameAt(usage, s, node, id) && Reporting.Covered(s, A.Key(node, id));
      assert SameReport(snapped, A.ReporterAt(s, node).snap, node, id);
    }
  }

  /** Commit of a reported snapshot, in any order, is the step that commits. */
  lemma CommitAgrees(usage: UsageMap, s: A.State, node: string, traffic: Traffic, snapped: map<Int64, (int, int)>, order: seq<string>)
    requires Agrees(usage, s) && A.ReportEnabled(s, node, A.Commit)
    requires Prints(traffic, snapped) && Enumerates(order, traffic.Keys)
    requires forall id: Int64 :: SameReport(snapped, A.ReporterAt(s, node).snap, node, id)
    requires forall id | id in snapped :: snapped[id].0 > 0 || snapped[id].1 > 0
    requires forall k :: Reporting.Covered(s, k) && Reporting.OwnNode(s, node, k)
    ensures Agrees(CommitAll(usage, node, traffic, order), A.ReportStep(s, node, A.Commit))
  {
    CoversAgrees(usage, s, node, snapped);
    CommitIsExact(usage, node, traffic, snapped, order);
    var after, t := CommitAll(usage, node, traffic, order), A.ReportStep(s, node, A.Commit);
    forall n, id: Int64 ensures SameAt(after, t, n, id) {
      CommitAgreesAt(usage, after, s, node, snapped, n, id);
    }
  }

  /** What the outstanding snapshot says of one user, in either model. */
  lemma SnapBytes(s: A.State, node: string, snapped: map<Int64, (int, int)>, id: Int64)
    requires A.ReporterAt(s, node).Acked? && SameReport(snapped, A.ReporterAt(s, node).snap, node, id)
    ensures Reporting.SnapAt(A.ReporterAt(s, node), A.Key(node, id))
            == if id in snapped then A.Bytes(snapped[id].0, snapped[id].1) else A.NONE
  {
  }

  /** Taking the same bytes off the same counters. */
  lemma SameDebit(c: Counters, use: A.Use, id: Int64, snapped: map<Int64, (int, int)>, b: A.Bytes)
    requires SameCounters(c, use) && b == if id in snapped then A.Bytes(snapped[id].0, snapped[id].1) else A.NONE
    ensures SameCounters(DebitIn(c, id, snapped), use.(bytes := use.bytes.Minus(b)))
  {
  }

  lemma CommitAgreesAt(usage: UsageMap, after: UsageMap, s: A.State, node: string, snapped: map<Int64, (int, int)>, n: string, id: Int64)
    requires SameAt(usage, s, n, id) && A.ReportEnabled(s, node, A.Commit)
    requires SameReport(snapped, A.ReporterAt(s, node).snap, node, id)
    requires Reporting.Covered(s, A.Key(n, id)) && Reporting.OwnNode(s, node, A.Key(n, id))
    requires At(after, n, id) == if n == node then DebitIn(At(usage, n, id), id, snapped) else At(usage, n, id)
    ensures SameAt(after, A.ReportStep(s, node, A.Commit), n, id)
  {
    var k := A.Key(n, id);
    TakenOff(s, node, k);
    var c, use := At(usage, n, id), A.UseAt(s.usage, k);
    if n == node {
      SnapBytes(s, node, snapped, id);
      SameDebit(c, use, id, snapped, Reporting.SnapAt(A.ReporterAt(s, node), k));
    }
  }

  /** What a commit leaves of one user's counters, its own node's or another's. */
  lemma TakenOff(s: A.State, node: string, k: A.Key)
    requires A.ReportEnabled(s, node, A.Commit) && Reporting.Covered(s, k) && Reporting.OwnNode(s, node, k)
    ensures var use := A.UseAt(s.usage, k);
            A.UseAt(A.ReportStep(s, node, A.Commit).usage, k)
            == if k.node == node then use.(bytes := use.bytes.Minus(Reporting.SnapAt(A.ReporterAt(s, node), k))) else use
  {
    Reporting.CommitTakesSnapshot(s, node, k);
  }
}
