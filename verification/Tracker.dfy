/** The connection wrappers and the set the shared flusher serves, one call at a time. */
module Tracker {
  import opened Wrappers
  import opened Panel
  import opened Shards
  import opened DeviceLimit
  import opened Usage
  import opened S = Store
  import Decimal
  import Identity
  import opened Report

  /** One wrapped TCP connection. */
  class TrackedConn {
    const stats: Store
    const node: string
    const id: Int64
    var upload: int
    var download: int
    var closed: bool

    /** What flush would hand over. */
    ghost function Pending(): Addition
      reads this
    {
      Addition(node, id, upload, download)
    }

    /** Whether flush has anything to hand over and is not stopped by the closed flag. */
    ghost predicate Ready()
      reads this
    {
      !closed && (upload > 0 || download > 0)
    }

    constructor (stats: Store, node: string, id: Int64)
      ensures this.stats == stats && this.node == node && this.id == id
      ensures upload == download == 0 && !closed
    {
      this.stats, this.node, this.id := stats, node, id;
      upload, download, closed := 0, 0, false;
    }

    method Read(n: int)
      modifies this`upload
      ensures upload == old(upload) + if n > 0 then n else 0
    {
      if n > 0 {
        upload := upload + n;
      }
    }

    method Write(n: int)
      modifies this`download
      ensures download == old(download) + if n > 0 then n else 0
    {
      if n > 0 {
        download := download + n;
      }
    }

    method Flush()
      requires stats.Valid()
      modifies this`upload, this`download, stats`usage
      ensures stats.Valid()
      ensures if old(closed) then upload == old(upload) && download == old(download) else upload == download == 0
      ensures stats.usage == if old(Ready()) then AddOne(old(stats.usage), stats.Users(), old(Pending())) else old(stats.usage)
    {
      if closed {
        return;
      }
      var up, down := upload, download;
      upload, download := 0, 0;
      if up > 0 || down > 0 {
        AddTo(stats, Addition(node, id, up, down));
      }
    }

    /** Only the first Close counts; the flush it makes finds the flag set, so what was pending stays pending. */
    method Close(flusher: Flusher)
      requires stats.Valid() && flusher.Valid()
      modifies this, flusher, stats`usage, stats`active
      ensures stats.Valid() && flusher.Valid() && closed
      ensures upload == old(upload) && download == old(download)
      ensures flusher.tracked == if old(closed) then old(flusher.tracked) else old(flusher.tracked) - {this}
      ensures flusher.loops == old(flusher.loops)
      ensures stats.usage == if old(closed) then old(stats.usage) else Released(old(stats.usage), node, id)
      ensures stats.active == if old(closed) || At(old(stats.usage), node, id).active <= 0 then old(stats.active) else old(stats.active) - 1
    {
      if !closed {
        closed := true;
        Flush();
        flusher.UnregisterConn(this);
        stats.Close(node, id);
      }
    }
  }

  /** The usage after a store Close: one connection fewer, but never below zero. */
  function Released(usage: UsageMap, node: string, id: Int64): UsageMap {
    var c := At(usage, node, id);
    Put(usage, node, id, if c.active > 0 then c.(active := c.active - 1) else c)
  }

  /** The part of the store under trackMu. */
  class Flusher {
    var tracked: set<TrackedConn>
    var flusherRun: bool
    var loops: nat

    ghost predicate Valid()
      reads this
    {
      flusherRun <==> tracked != {}
    }

    constructor ()
      ensures Valid() && tracked == {} && loops == 0
    {
      tracked, flusherRun, loops := {}, false, 0;
    }

    /** A registration starts a flush loop exactly if nothing was tracked. */
    method RegisterConn(tc: TrackedConn)
      requires Valid()
      modifies this
      ensures Valid() && tracked == old(tracked) + {tc}
      ensures loops == old(loops) + if old(tracked) == {} then 1 else 0
    {
      tracked := tracked + {tc};
      var needStart := !flusherRun;
      flusherRun := true;
      if needStart {
        loops := loops + 1;
      }
    }

    method UnregisterConn(tc: TrackedConn)
      requires Valid()
      modifies this
      ensures Valid() && tracked == old(tracked) - {tc} && loops == old(loops)
    {
      tracked := tracked - {tc};
      if |tracked| == 0 {
        flusherRun := false;
      }
    }

    /**
     One tick of flushLoop, in whatever order the set is visited: every open tracked connection with
     pending bytes hands over all of them, once, and nothing else is added.
     */
    method Sweep(stats: Store) returns (ghost flushed: seq<TrackedConn>, ghost handed: seq<Addition>)
      requires stats.Valid() && forall tc | tc in tracked :: tc.stats == stats
      modifies tracked, stats`usage
      ensures stats.Valid() && |handed| == |flushed|
      ensures forall tc | tc in tracked :: tc in flushed <==> old(tc.Ready())
      ensures forall i, j | 0 <= i < j < |flushed| :: flushed[i] != flushed[j]
      ensures forall i | 0 <= i < |flushed| :: flushed[i] in tracked && handed[i] == old(flushed[i].Pending())
      ensures stats.usage == AddAll(old(stats.usage), stats.Users(), handed)
      ensures forall tc | tc in tracked :: SweptConn(tc)
    {
      flushed, handed := [], [];
      var todo := tracked;
      ghost var start, users := stats.usage, stats.Users();
      while todo != {}
        invariant todo <= tracked && stats.Valid() && stats.Users() == users && |handed| == |flushed|
        invariant forall tc | tc in tracked :: tc in flushed <==> tc !in todo && old(tc.Ready())
        invariant forall i, j | 0 <= i < j < |flushed| :: flushed[i] != flushed[j]
        invariant forall i | 0 <= i < |flushed| :: flushed[i] in tracked && handed[i] == old(flushed[i].Pending())
        invariant stats.usage == AddAll(start, users, handed)
        invariant forall tc | tc in todo :: tc.upload == old(tc.upload) && tc.download == old(tc.download) && tc.closed == old(tc.closed)
        invariant forall tc | tc in tracked && tc !in todo :: SweptConn(tc)
        decreases todo
      {
        var tc :| tc in todo;
        ghost var ready := tc.Ready();
        ghost var pending := tc.Pending();
        tc.Flush();
        if ready {
          OneMoreAdded(start, users, handed, pending);
          flushed, handed := flushed + [tc], handed + [pending];
        }
        todo := todo - {tc};
      }
    }
  }

  /** A connection after a sweep: emptied, unless it was closed. */
  twostate predicate SweptConn(tc: TrackedConn)
    reads tc
  {
    && tc.closed == old(tc.closed)
    && if tc.closed then tc.upload == old(tc.upload) && tc.download == old(tc.download) else tc.upload == tc.download == 0
  }

  lemma OneMoreAdded(usage: UsageMap, users: Shard, additions: seq<Addition>, a: Addition)
    ensures AddAll(usage, users, additions + [a]) == AddOne(AddAll(usage, users, additions), users, a)
  {
    assert (additions + [a])[..|additions|] == additions;
  }

  /** What additions add up to for one user at one node. */
  function TotalUp(additions: seq<Addition>, node: string, id: Int64): int {
    if additions == [] then 0
    else
      var a := additions[|additions| - 1];
      TotalUp(additions[..|additions| - 1], node, id) + if a.node == node && a.id == id then a.upload else 0
  }

  function TotalDown(additions: seq<Addition>, node: string, id: Int64): int {
    if additions == [] then 0
    else
      var a := additions[|additions| - 1];
      TotalDown(additions[..|additions| - 1], node, id) + if a.node == node && a.id == id then a.download else 0
  }

  /** Adding in any order credits each listed user the exact sum, and unlisted users nothing. */
  lemma {:induction false} AdditionsAddUp(usage: UsageMap, users: Shard, additions: seq<Addition>, node: string, id: Int64)
    ensures var before, after := At(usage, node, id), At(AddAll(usage, users, additions), node, id);
            && after.active == before.active
            && after.upload == before.upload + (if id in users then TotalUp(additions, node, id) else 0)
            && after.download == before.download + (if id in users then TotalDown(additions, node, id) else 0)
  {
    if additions != [] {
      AdditionsAddUp(usage, users, additions[..|additions| - 1], node, id);
    }
  }

  /** One wrapped UDP association. It has a flush, but only its Close calls it. */
  class PacketConn {
    const stats: Store
    const node: string
    const id: Int64
    var upload: int
    var download: int
    var closed: bool

    constructor (stats: Store, node: string, id: Int64)
      ensures this.stats == stats && this.node == node && this.id == id
      ensures upload == download == 0 && !closed
    {
      this.stats, this.node, this.id := stats, node, id;
      upload, download, closed := 0, 0, false;
    }

    method ReadPacket(n: nat)
      modifies this`upload
      ensures upload == old(upload) + n
    {
      if n > 0 {
        upload := upload + n;
      }
    }

    method WritePacket(n: nat, sent: bool)
      modifies this`download
      ensures download == old(download) + if sent then n else 0
    {
      if sent && n > 0 {
        download := download + n;
      }
    }

    method Flush()
      requires stats.Valid()
      modifies this`upload, this`download, stats`usage
      ensures stats.Valid()
      ensures old(closed) ==> upload == old(upload) && download == old(download) && stats.usage == old(stats.usage)
      ensures !old(closed) ==> upload == download == 0
      ensures !old(closed) ==>
                stats.usage == if old(upload) > 0 || old(download) > 0
                               then AddOne(old(stats.usage), stats.Users(), Addition(node, id, old(upload), old(download)))
                               else old(stats.usage)
    {
      if closed {
        return;
      }
      var up, down := upload, download;
      upload, download := 0, 0;
      if up > 0 || down > 0 {
        AddTo(stats, Addition(node, id, up, down));
      }
    }

    /** All that ever reaches the store of a packet connection is that it was open: its bytes never do. */
    method Close()
      requires stats.Valid()
      modifies this, stats`usage, stats`active
      ensures stats.Valid() && closed && upload == old(upload) && download == old(download)
      ensures stats.usage == if old(closed) then old(stats.usage) else Released(old(stats.usage), node, id)
      ensures stats.active == if old(closed) || At(old(stats.usage), node, id).active <= 0 then old(stats.active) else old(stats.active) - 1
    {
      if !closed {
        closed := true;
        Flush();
        stats.Close(node, id);
      }
    }
  }

  /** resolveUser over the store. */
  method ResolveUser(stats: Store, name: string) returns (id: Option<Int64>)
    requires stats.Valid()
    ensures id == Identity.Resolve(stats.bySecret, name)
  {
    var parsed := Decimal.ParseInt(name);
    if parsed.error == Decimal.NoError {
      return Some(parsed.value);
    }
    id := stats.UserBySecret(name);
  }

  /** Open, then WrapConn if admitted. */
  method OpenWrapped(stats: Store, flusher: Flusher, node: string, id: Int64, source: string, now: int)
    returns (conn: Option<TrackedConn>)
    requires stats.Valid() && flusher.Valid() && NotAfter(stats.history, id, now)
    modifies stats`usage, stats`active, stats`total, stats`history, stats.shards, flusher
    ensures stats.Valid() && flusher.Valid()
    ensures conn.Some? <==> Admits(old(stats.history), id, source, now, TTL)
    ensures stats.history == old(stats.history) + [Attempt(id, source, now, conn.Some?)]
    ensures conn.Some? ==>
              && fresh(conn.value) && conn.value.stats == stats && conn.value.node == node && conn.value.id == id
              && !conn.value.closed && flusher.tracked == old(flusher.tracked) + {conn.value}
              && stats.usage == Opened(old(stats.usage), node, id) && stats.active == old(stats.active) + 1
    ensures conn.None? ==>
              stats.usage == old(stats.usage) && stats.active == old(stats.active) && flusher.tracked == old(flusher.tracked)
  {
    var ok := stats.Open(node, id, source, now);
    if !ok {
      return None;
    }
    var tc := new TrackedConn(stats, node, id);
    flusher.RegisterConn(tc);
    return Some(tc);
  }

  /** tracker.RoutedConnection: the connection is wrapped exactly if its user resolves and is admitted. */
  method RoutedConnection(stats: Store, flusher: Flusher, node: string, name: string, source: string, now: int)
    returns (conn: Option<TrackedConn>)
    requires stats.Valid() && flusher.Valid() && forall id: Int64 :: NotAfter(stats.history, id, now)
    modifies stats`usage, stats`active, stats`total, stats`history, stats.shards, flusher
    ensures stats.Valid() && flusher.Valid()
    ensures conn.Some? <==> var id := Identity.Resolve(old(stats.bySecret), name);
                            id.Some? && Admits(old(stats.history), id.value, source, now, TTL)
    ensures conn.Some? ==>
              && fresh(conn.value) && conn.value.stats == stats && conn.value.node == node && !conn.value.closed
              && Some(conn.value.id) == Identity.Resolve(old(stats.bySecret), name)
              && flusher.tracked == old(flusher.tracked) + {conn.value}
              && stats.usage == Opened(old(stats.usage), node, conn.value.id) && stats.active == old(stats.active) + 1
    ensures conn.None? ==>
              stats.usage == old(stats.usage) && stats.active == old(stats.active) && flusher.tracked == old(flusher.tracked)
  {
    var id := ResolveUser(stats, name);
    if id.None? {
      return None;
    }
    conn := OpenWrapped(stats, flusher, node, id.value, source, now);
  }

  lemma OpenedThenReleased(usage: UsageMap, node: string, id: Int64)
    requires At(usage, node, id).active >= 0
    ensures At(Opened(usage, node, id), node, id).active > 0
    ensures At(Released(Opened(usage, node, id), node, id), node, id) == At(usage, node, id)
  {
  }

  /** Some traffic over a fresh connection, then its close. */
  method TransferAndClose(tc: TrackedConn, flusher: Flusher, received: nat, sent: nat)
    requires tc.stats.Valid() && flusher.Valid() && !tc.closed
    modifies tc, flusher, tc.stats`usage, tc.stats`active
    ensures tc.stats.Valid() && flusher.Valid() && tc.closed
    ensures tc.upload == old(tc.upload) + received && tc.download == old(tc.download) + sent
    ensures flusher.tracked == old(flusher.tracked) - {tc}
    ensures tc.stats.usage == Released(old(tc.stats.usage), tc.node, tc.id)
    ensures At(old(tc.stats.usage), tc.node, tc.id).active > 0 ==> tc.stats.active == old(tc.stats.active) - 1
  {
    tc.Read(received);
    tc.Write(sent);
    tc.Close(flusher);
  }

  /** handle from Open on, once the user is known. */
  method Serve(stats: Store, flusher: Flusher, node: string, id: Int64, source: string, now: int, received: nat, sent: nat)
    returns (served: bool)
    requires stats.Valid() && flusher.Valid() && NotAfter(stats.history, id, now)
    modifies stats`usage, stats`active, stats`total, stats`history, stats.shards, flusher
    ensures stats.Valid() && flusher.Valid() && flusher.tracked == old(flusher.tracked)
    ensures served <==> Admits(old(stats.history), id, source, now, TTL)
    ensures stats.history == old(stats.history) + [Attempt(id, source, now, served)]
    ensures served ==>
              var open := Opened(old(stats.usage), node, id);
              && stats.usage == Released(open, node, id)
              && (At(open, node, id).active > 0 ==> stats.active == old(stats.active))
    ensures !served ==> stats.usage == old(stats.usage) && stats.active == old(stats.active)
  {
    var conn := OpenWrapped(stats, flusher, node, id, source, now);
    if conn.None? {
      return false;
    }
    TransferAndClose(conn.value, flusher, received, sent);
    return true;
  }

  /**
   mieru's handle, for a connection that ends before the next sweep: Open and Close pair up, and since
   the close hands nothing over, OpenedThenReleased makes the counters what they were, whatever was transferred.
   An unknown secret leaves no trace at all; a refused source only the attempt.
   */
  method Handle(stats: Store, flusher: Flusher, node: string, secret: string, source: string, now: int, received: nat, sent: nat)
    returns (served: bool)
    requires stats.Valid() && flusher.Valid() && forall id: Int64 :: NotAfter(stats.history, id, now)
    modifies stats`usage, stats`active, stats`total, stats`history, stats.shards, flusher
    ensures stats.Valid() && flusher.Valid() && flusher.tracked == old(flusher.tracked)
    ensures served <==> secret in old(stats.bySecret) && Admits(old(stats.history), old(stats.bySecret)[secret], source, now, TTL)
    ensures stats.history == old(stats.history)
                             + if secret in old(stats.bySecret) then [Attempt(old(stats.bySecret)[secret], source, now, served)] else []
    ensures served ==>
              var id := old(stats.bySecret)[secret];
              var open := Opened(old(stats.usage), node, id);
              && stats.usage == Released(open, node, id)
              && (At(open, node, id).active > 0 ==> stats.active == old(stats.active))
    ensures !served ==> stats.usage == old(stats.usage) && stats.active == old(stats.active)
  {
    var id := stats.UserBySecret(secret);
    if id.None? {
      return false;
    }
    served := Serve(stats, flusher, node, id.value, source, now, received, sent);
  }
}
