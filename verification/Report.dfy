/** doReport against the store, with whatever the connections add while the report is on its way. */
module Report {
  import opened Panel
  import opened Decimal
  import opened Shards
  import opened DeviceLimit
  import opened Usage
  import opened S = Store

  datatype Addition = Addition(node: string, id: Int64, upload: int, download: int)

  function AddOne(usage: UsageMap, users: Shard, a: Addition): UsageMap {
    var c := At(usage, a.node, a.id);
    if a.id in users
    then Put(usage, a.node, a.id, c.(upload := c.upload + a.upload, download := c.download + a.download))
    else usage
  }

  function AddAll(usage: UsageMap, users: Shard, additions: seq<Addition>): UsageMap {
    if additions == [] then usage
    else AddOne(AddAll(usage, users, additions[..|additions| - 1]), users, additions[|additions| - 1])
  }

  /** No addition is negative, and no counter is. */
  predicate Growing(additions: seq<Addition>) {
    forall a | a in additions :: a.upload >= 0 && a.download >= 0
  }

  ghost predicate NoDebt(usage: UsageMap) {
    forall n, id: Int64 :: At(usage, n, id).upload >= 0 && At(usage, n, id).download >= 0
  }

  lemma {:induction false} AdditionsCover(usage: UsageMap, users: Shard, additions: seq<Addition>, node: string)
    requires NoDebt(usage) && Growing(additions)
    ensures Covers(NodeAt(AddAll(usage, users, additions), node), Busy(NodeAt(usage, node)))
  {
    if additions != [] {
      var init, a := additions[..|additions| - 1], additions[|additions| - 1];
      assert a in additions && forall x | x in init :: x in additions;
      AdditionsCover(usage, users, init, node);
    } else {
      forall id | id in Busy(NodeAt(usage, node))
        ensures var c := NodeAt(usage, node)[id]; 0 <= c.upload && 0 <= c.download
      {
        assert At(usage, node, id) == NodeAt(usage, node)[id];
      }
    }
  }

  /** Every counter of the snapshotted node lost exactly what the snapshot reported, and no other did. */
  ghost predicate DebitedExactly(before: UsageMap, added: UsageMap, after: UsageMap, node: string) {
    forall n, id: Int64 ::
      At(after, n, id) == if n == node then DebitIn(At(added, n, id), id, Busy(NodeAt(before, node))) else At(added, n, id)
  }

  lemma {:induction false} AdditionsKeepCredit(usage: UsageMap, users: Shard, additions: seq<Addition>)
    requires NoDebt(usage) && Growing(additions)
    ensures NoDebt(AddAll(usage, users, additions))
  {
    if additions != [] {
      var init, a := additions[..|additions| - 1], additions[|additions| - 1];
      assert a in additions && forall x | x in init :: x in additions;
      AdditionsKeepCredit(usage, users, init);
      AddOneKeepsCredit(AddAll(usage, users, init), users, a);
    }
  }

  lemma AddOneKeepsCredit(usage: UsageMap, users: Shard, a: Addition)
    requires NoDebt(usage) && a.upload >= 0 && a.download >= 0
    ensures NoDebt(AddOne(usage, users, a))
  {
    assert At(usage, a.node, a.id).upload >= 0;
    forall n, id: Int64
      ensures At(AddOne(usage, users, a), n, id).upload >= 0 && At(AddOne(usage, users, a), n, id).download >= 0
    {
      assert At(usage, n, id).upload >= 0;
    }
  }

  /** A debit of what is covered never takes a counter below zero. */
  lemma DebitKeepsCredit(before: UsageMap, added: UsageMap, after: UsageMap, node: string)
    requires NoDebt(added) && Covers(NodeAt(added, node), Busy(NodeAt(before, node)))
    requires DebitedExactly(before, added, after, node)
    ensures NoDebt(after)
  {
    forall n, id: Int64 ensures At(after, n, id).upload >= 0 && At(after, n, id).download >= 0 {
      assert At(added, n, id).upload >= 0;
      if id in Busy(NodeAt(before, node)) {
        assert At(added, node, id) == NodeAt(added, node)[id];
      }
    }
  }

  lemma AddAllStep(usage: UsageMap, users: Shard, additions: seq<Addition>, i: nat)
    requires i < |additions|
    ensures AddAll(usage, users, additions[..i + 1]) == AddOne(AddAll(usage, users, additions[..i]), users, additions[i])
  {
    assert additions[..i + 1][..i] == additions[..i];
  }

  method AddTo(stats: Store, a: Addition)
    requires stats.Valid()
    modifies stats`usage
    ensures stats.Valid() && stats.usage == AddOne(old(stats.usage), stats.Users(), a)
  {
    stats.Add(a.node, a.id, a.upload, a.download);
  }

  method AddMeanwhile(stats: Store, additions: seq<Addition>)
    requires stats.Valid()
    modifies stats`usage
    ensures stats.Valid() && stats.usage == AddAll(old(stats.usage), stats.Users(), additions)
  {
    ghost var start, users := stats.usage, stats.Users();
    for i := 0 to |additions|
      invariant stats.Valid() && stats.Users() == users
      invariant stats.usage == AddAll(start, users, additions[..i])
    {
      AddTo(stats, additions[i]);
      AddAllStep(start, users, additions, i);
    }
    assert additions[..|additions|] == additions;
  }

  /**
   doReport. The panel is sent exactly the node's nonzero counters; if it acknowledges, exactly those
   bytes are debited and what was added meanwhile stays, and if it does not, nothing is taken away.
   */
  method DoReport(stats: Store, node: string, now: int, acknowledged: bool, meanwhile: seq<Addition>)
    returns (snapshot: Snapshot)
    requires stats.Valid() && NoDebt(stats.usage) && Growing(meanwhile)
    modifies stats`usage
    ensures stats.Valid() && NoDebt(stats.usage)
    ensures Prints(snapshot.traffic, Busy(NodeAt(old(stats.usage), node)))
    ensures Prints(snapshot.online, Online(NodeAt(old(stats.usage), node)))
    ensures ReportsAlive(snapshot.alive, stats.Users(), now)
    ensures var added := AddAll(old(stats.usage), stats.Users(), meanwhile);
            if acknowledged then DebitedExactly(old(stats.usage), added, stats.usage, node) else stats.usage == added
  {
    snapshot := stats.TakeSnapshot(node, now);
    AddMeanwhile(stats, meanwhile);
    ghost var before, added := old(stats.usage), stats.usage;
    AdditionsKeepCredit(before, stats.Users(), meanwhile);
    if acknowledged {
      ghost var order := stats.Commit(node, snapshot);
      AdditionsCover(before, stats.Users(), meanwhile, node);
      CommitIsExact(added, node, snapshot.traffic, Busy(NodeAt(before, node)), order);
      DebitKeepsCredit(before, added, stats.usage, node);
    }
  }
}
