/**
 The address table a user carries: one last-seen time per source, refreshed only by an admitted
 attempt and pruned lazily. It is shown to carry exactly what the device rule asks of the history.
 */
module DeviceTable {
  import opened Panel
  import opened Wrappers
  import opened DeviceLimit

  type Table = map<string, int>

  /** What pruneLocked keeps, and what Snapshot's read-only filter reports. */
  function Prune(ips: Table, now: int, ttl: nat): Table {
    map ip | ip in ips && now - ips[ip] <= ttl :: ips[ip]
  }

  /** The time of the latest admitted attempt from a source. */
  function Latest(h: History, id: Int64, source: string): Option<int> {
    if h == [] then None
    else if Last(h).Attempt? && Last(h).id == id && Last(h).admitted && Last(h).source == source then Some(Last(h).time)
    else Latest(Init(h), id, source)
  }

  /** The time of the latest attempt of a user, admitted or not: its table was pruned then. */
  function Newest(h: History, id: Int64): Option<int> {
    if h == [] then None
    else if Last(h).Attempt? && Last(h).id == id then Some(Last(h).time)
    else Newest(Init(h), id)
  }

  /** The table holds latest admissions only, and lacks only those that had expired when last pruned. */
  ghost predicate Tracks(ips: Table, h: History, id: Int64, ttl: nat) {
    && "" !in ips
    && (forall s | s in ips :: Latest(h, id, s) == Some(ips[s]))
    && (forall s | s != "" && Latest(h, id, s).Some? && s !in ips ::
          Newest(h, id).Some? && Newest(h, id).value - Latest(h, id, s).value > ttl)
  }

  lemma {:induction false} NewestNotAfter(h: History, id: Int64, now: int)
    requires NotAfter(h, id, now)
    ensures Newest(h, id).Some? ==> Newest(h, id).value <= now
  {
    if h != [] {
      NotAfterInit(h, id, now);
      NewestNotAfter(Init(h), id, now);
      assert h[|h| - 1] == Last(h);
    }
  }

  lemma {:induction false} LatestNotAfter(h: History, id: Int64, s: string, now: int)
    requires NotAfter(h, id, now)
    ensures Latest(h, id, s).Some? ==> Latest(h, id, s).value <= now
  {
    if h != [] {
      NotAfterInit(h, id, now);
      LatestNotAfter(Init(h), id, s, now);
      assert h[|h| - 1] == Last(h);
    }
  }

  /** One timestamp per source answers the window question. */
  lemma {:induction false} LatestDecidesWithin(h: History, id: Int64, s: string, lo: int, now: int, ttl: nat)
    requires Lawful(h, ttl) && NotAfter(h, id, now) && s != ""
    ensures s in Within(h, id, lo, now) <==> Latest(h, id, s).Some? && lo <= Latest(h, id, s).value
  {
    if h != [] {
      var e := Last(h);
      NotAfterInit(h, id, now);
      assert h[|h| - 1] == e;
      LatestDecidesWithin(Init(h), id, s, lo, now, ttl);
      if e.Attempt? && e.id == id && e.admitted && e.source == s {
        LatestNotAfter(Init(h), id, s, e.time);
      }
    }
  }

  lemma {:induction false} EmptyNeverWithin(h: History, id: Int64, lo: int, hi: int)
    ensures "" !in Within(h, id, lo, hi)
  {
    if h != [] {
      EmptyNeverWithin(Init(h), id, lo, hi);
    }
  }

  lemma PrunedMembership(ips: Table, h: History, id: Int64, now: int, ttl: nat, s: string)
    requires Tracks(ips, h, id, ttl) && Lawful(h, ttl) && NotAfter(h, id, now)
    ensures s in Prune(ips, now, ttl) <==> s in Within(h, id, now - ttl, now)
  {
    if s == "" {
      EmptyNeverWithin(h, id, now - ttl, now);
    } else {
      NewestNotAfter(h, id, now);
      LatestDecidesWithin(h, id, s, now - ttl, now, ttl);
    }
  }

  /** The pruned table is the set of sources admitted within the last TTL. */
  lemma PrunedTableIsWindow(ips: Table, h: History, id: Int64, now: int, ttl: nat)
    requires Tracks(ips, h, id, ttl) && Lawful(h, ttl) && NotAfter(h, id, now)
    ensures Prune(ips, now, ttl).Keys == Within(h, id, now - ttl, now)
  {
    var pruned, window := Prune(ips, now, ttl).Keys, Within(h, id, now - ttl, now);
    forall s ensures s in pruned <==> s in window {
      PrunedMembership(ips, h, id, now, ttl, s);
    }
  }

  /** A user that was never listed was never admitted. */
  lemma {:induction false} UnlistedNeverAdmitted(h: History, id: Int64, s: string, ttl: nat)
    requires Lawful(h, ttl) && Limit(h, id).None?
    ensures Latest(h, id, s).None?
  {
    if h != [] {
      UnlistedNeverAdmitted(Init(h), id, s, ttl);
    }
  }

  /** The table after an attempt: pruned, and stamped if a source was admitted. */
  function AfterAttempt(ips: Table, source: string, now: int, ttl: nat, admitted: bool): Table {
    if admitted && source != "" then Prune(ips, now, ttl)[source := now] else Prune(ips, now, ttl)
  }

  /** Every attempt keeps a user's table in step with the history, and so does any event of another user. */
  lemma AttemptKeepsTracks(ips: Table, h: History, id: Int64, e: Event, ttl: nat)
    requires Tracks(ips, h, id, ttl)
    requires e.Attempt? ==> NotAfter(h, e.id, e.time)
    ensures e.Attempt? && e.id == id ==> Tracks(AfterAttempt(ips, e.source, e.time, ttl, e.admitted), h + [e], id, ttl)
    ensures !(e.Attempt? && e.id == id) ==> Tracks(ips, h + [e], id, ttl)
  {
    var h' := h + [e];
    assert Init(h') == h && Last(h') == e;
    if e.Attempt? && e.id == id {
      NewestNotAfter(h, id, e.time);
      var ips' := AfterAttempt(ips, e.source, e.time, ttl, e.admitted);
      forall s | s in ips' ensures Latest(h', id, s) == Some(ips'[s]) {
      }
      forall s | s != "" && Latest(h', id, s).Some? && s !in ips'
        ensures Newest(h', id).Some? && Newest(h', id).value - Latest(h', id, s).value > ttl
      {
      }
    }
  }
}
