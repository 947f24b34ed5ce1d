/**
 The accounting and device-limit store as one caller at a time sees it: sharded user tables, the
 secret map and per-node usage, updated in place. A ghost history records listings and attempts.
 */
module Store {
  import opened Panel
  import opened Wrappers
  import opened Decimal
  import opened Shards
  import opened DeviceLimit
  import opened DeviceTable
  import opened Usage

  /** Five minutes, in nanoseconds. */
  const MINUTE: nat := 60 * 1_000_000_000
  const TTL: nat := 5 * MINUTE

  datatype UserState = UserState(policy: User, ips: Table)

  type Shard = map<Int64, UserState>
  type Secrets = map<string, Int64>

  datatype Snapshot = Snapshot(traffic: Traffic, alive: map<string, seq<string>>, online: map<string, int>)

  /** The secret map of a listing: the last entry wins for a repeated secret. */
  function SecretMap(users: seq<User>): Secrets {
    if users == [] then map[]
    else
      var last := users[|users| - 1];
      SecretMap(users[..|users| - 1])[last.uuid := last.id]
  }

  /** The last entry of a listing with a secret. */
  predicate LastWith(users: seq<User>, i: nat, secret: string) {
    && i < |users| && users[i].uuid == secret
    && forall j | i < j < |users| :: users[j].uuid != secret
  }

  lemma {:induction false} SecretMapIsLast(users: seq<User>, secret: string)
    ensures secret in SecretMap(users) <==> exists i: nat :: LastWith(users, i, secret)
    ensures forall i: nat | LastWith(users, i, secret) :: secret in SecretMap(users) && SecretMap(users)[secret] == users[i].id
  {
    if users != [] {
      var init, n := users[..|users| - 1], |users| - 1;
      SecretMapIsLast(init, secret);
      assert forall i | 0 <= i < n :: init[i] == users[i];
      if users[n].uuid == secret {
        assert LastWith(users, n, secret);
      } else {
        assert forall i: nat :: LastWith(users, i, secret) <==> LastWith(init, i, secret);
      }
    }
  }

  /** Listing a user sets its policy and keeps its address table; it never removes anyone. */
  function ListOne(users: Shard, user: User): Shard {
    users[user.id := UserState(user, if user.id in users then users[user.id].ips else map[])]
  }

  function ListAll(users: Shard, listing: seq<User>): Shard {
    if listing == [] then users
    else ListOne(ListAll(users, listing[..|listing| - 1]), listing[|listing| - 1])
  }

  function ListedEvents(listing: seq<User>): History {
    seq(|listing|, i requires 0 <= i < |listing| => Listed(listing[i]))
  }

  lemma ListStep(users: Shard, h: History, listing: seq<User>, i: nat)
    requires i < |listing|
    ensures ListAll(users, listing[..i + 1]) == ListOne(ListAll(users, listing[..i]), listing[i])
    ensures h + ListedEvents(listing[..i + 1]) == h + ListedEvents(listing[..i]) + [Listed(listing[i])]
  {
    assert listing[..i + 1][..i] == listing[..i];
    assert ListedEvents(listing[..i + 1]) == ListedEvents(listing[..i]) + [Listed(listing[i])];
  }

  /** The user map after an attempt. */
  function AttemptOn(users: Shard, id: Int64, source: string, now: int, admitted: bool): Shard {
    if id !in users then users
    else users[id := users[id].(ips := AfterAttempt(users[id].ips, source, now, TTL, admitted))]
  }

  /** The user map agrees with the history: who was listed, with which limit, and each address table. */
  ghost predicate Refines(users: Shard, h: History) {
    forall id: Int64 ::
      && (id in users <==> Limit(h, id).Some?)
      && (id in users ==> users[id].policy.deviceLimit == Limit(h, id).value && Tracks(users[id].ips, h, id, TTL))
  }

  lemma ListingRefines(users: Shard, h: History, user: User)
    requires Refines(users, h) && Lawful(h, TTL)
    ensures Refines(ListOne(users, user), h + [Listed(user)]) && Lawful(h + [Listed(user)], TTL)
  {
    var e := Listed(user);
    assert Init(h + [e]) == h && Last(h + [e]) == e;
    forall id: Int64 ensures id in users ==> Tracks(users[id].ips, h + [e], id, TTL) {
      if id in users {
        AttemptKeepsTracks(users[id].ips, h, id, e, TTL);
      }
    }
    if user.id !in users {
      forall s ensures Latest(h + [e], user.id, s).None? {
        UnlistedNeverAdmitted(h, user.id, s, TTL);
      }
    }
  }

  lemma AttemptRefines(users: Shard, h: History, id: Int64, source: string, now: int, admitted: bool)
    requires Refines(users, h) && Lawful(h, TTL) && NotAfter(h, id, now)
    requires admitted == Admits(h, id, source, now, TTL)
    ensures var h' := h + [Attempt(id, source, now, admitted)];
            Refines(AttemptOn(users, id, source, now, admitted), h') && Lawful(h', TTL)
  {
    var e := Attempt(id, source, now, admitted);
    assert Init(h + [e]) == h && Last(h + [e]) == e;
    forall k: Int64 | k in users
      ensures Tracks(AttemptOn(users, id, source, now, admitted)[k].ips, h + [e], k, TTL)
    {
      AttemptKeepsTracks(users[k].ips, h, k, e, TTL);
    }
  }

  /** Judging by the pruned table is judging by the history. */
  lemma JudgementIsAdmission(users: Shard, h: History, id: Int64, source: string, now: int)
    requires Refines(users, h) && Lawful(h, TTL) && NotAfter(h, id, now) && id in users
    ensures var limit, pruned := users[id].policy.deviceLimit, Prune(users[id].ips, now, TTL);
            Admits(h, id, source, now, TTL) <==> source == "" || source in pruned || limit <= 0 || |pruned| < limit
  {
    PrunedTableIsWindow(users[id].ips, h, id, now, TTL);
    assert |Prune(users[id].ips, now, TTL)| == |Prune(users[id].ips, now, TTL).Keys|;
  }

  /** The addresses a snapshot reports: for each user the unexpired ones, users without any left out. */
  ghost predicate ReportsAlive(alive: map<string, seq<string>>, users: Shard, now: int) {
    && (forall id: Int64 | id in users && Prune(users[id].ips, now, TTL) != map[] ::
          FormatInt(id) in alive && Enumerates(alive[FormatInt(id)], Prune(users[id].ips, now, TTL).Keys))
    && (forall key | key in alive ::
          var id := ParseInt(key).value;
          FormatInt(id) == key && id in users && Prune(users[id].ips, now, TTL) != map[])
  }

  lemma NobodyLive(alive: map<string, seq<string>>, users: Shard, now: int, id: Int64, state: UserState)
    requires ReportsAlive(alive, users, now) && id !in users && Prune(state.ips, now, TTL) == map[]
    ensures ReportsAlive(alive, users[id := state], now)
  {
  }

  lemma SomebodyLive(alive: map<string, seq<string>>, users: Shard, now: int, id: Int64, state: UserState, live: seq<string>)
    requires ReportsAlive(alive, users, now) && id !in users && Prune(state.ips, now, TTL) != map[]
    requires Enumerates(live, Prune(state.ips, now, TTL).Keys)
    ensures ReportsAlive(alive[FormatInt(id) := live], users[id := state], now)
  {
    var alive', users' := alive[FormatInt(id) := live], users[id := state];
    ParseFormat(id);
    forall k: Int64 | k in users' && Prune(users'[k].ips, now, TTL) != map[]
      ensures FormatInt(k) in alive' && Enumerates(alive'[FormatInt(k)], Prune(users'[k].ips, now, TTL).Keys)
    {
      FormatInjective(k, id);
    }
  }

  lemma ReportsAliveAdd(alive: map<string, seq<string>>, users: Shard, now: int, id: Int64, state: UserState, live: seq<string>)
    requires ReportsAlive(alive, users, now) && id !in users
    requires Enumerates(live, Prune(state.ips, now, TTL).Keys)
    ensures ReportsAlive(if live == [] then alive else alive[FormatInt(id) := live], users[id := state], now)
  {
    if live == [] {
      assert Prune(state.ips, now, TTL) == map[] by {
        assert forall s :: s !in Prune(state.ips, now, TTL).Keys;
      }
      NobodyLive(alive, users, now, id, state);
    } else {
      assert live[0] in Prune(state.ips, now, TTL);
      SomebodyLive(alive, users, now, id, state, live);
    }
  }

  lemma MoreVisited(seen: Shard, users: Shard, todo: set<Int64>, id: Int64)
    requires id in todo && todo <= users.Keys
    ensures (seen + (users - todo))[id := users[id]] == seen + (users - (todo - {id}))
  {
  }

  lemma BusyGrows(users: NodeUsage, todo: set<Int64>, id: Int64)
    requires todo <= users.Keys && id in todo
    ensures var c, busy := users[id], Busy(users - todo);
            Busy(users - (todo - {id})) == if c.upload > 0 || c.download > 0 then busy[id := (c.upload, c.download)] else busy
  {
  }

  /** One iteration of the snapshot's loop over a node's users: the traffic entry, then the online entry. */
  lemma BusyStep(users: NodeUsage, todo: set<Int64>, id: Int64, traffic: Traffic)
    requires todo <= users.Keys && id in todo && Prints(traffic, Busy(users - todo))
    ensures var c := users[id];
            Prints(if c.upload > 0 || c.download > 0 then traffic[FormatInt(id) := (c.upload, c.download)] else traffic,
                   Busy(users - (todo - {id})))
  {
    BusyGrows(users, todo, id);
    PrintsAdd(traffic, Busy(users - todo), id, (users[id].upload, users[id].download));
  }

  lemma OnlineStep(users: NodeUsage, todo: set<Int64>, id: Int64, online: map<string, int>)
    requires todo <= users.Keys && id in todo && Prints(online, Online(users - todo))
    ensures Prints(if users[id].active > 0 then online[FormatInt(id) := users[id].active] else online,
                   Online(users - (todo - {id})))
  {
    if users[id].active > 0 {
      PrintsAdd(online, Online(users - todo), id, users[id].active);
      assert Online(users - (todo - {id})) == Online(users - todo)[id := users[id].active];
    } else {
      assert Online(users - (todo - {id})) == Online(users - todo);
    }
  }

  /** One more open connection of a user at a node. */
  function Opened(usage: UsageMap, node: string, id: Int64): UsageMap {
    var c := At(usage, node, id);
    Put(usage, node, id, c.(active := c.active + 1))
  }

  class Store {
    const shards: array<Shard>
    var bySecret: Secrets
    var usage: UsageMap
    var total: int
    var active: int
    ghost var history: History
    // the listing ReplaceUsers last applied, by whichever node
    ghost var applied: seq<User>

    /** The one user map the shards stand for. */
    ghost function Users(): Shard
      reads shards
    {
      Flat(shards[..])
    }

    ghost predicate Valid()
      reads this`history, this`applied, this`bySecret, shards
    {
      && Placed(shards[..])
      && bySecret == SecretMap(applied)
      && Lawful(history, TTL)
      && Refines(Users(), history)
    }

    constructor ()
      ensures Valid() && fresh(shards)
      ensures Users() == map[] && bySecret == map[] && usage == map[] && total == active == 0 && history == [] && applied == []
    {
      shards := new Shard[SHARD_COUNT](_ => map[]);
      bySecret, usage, total, active, history, applied := map[], map[], 0, 0, [], [];
      new;
      EmptyShards(shards[..]);
    }

    method ReplaceUsers(users: seq<User>)
      requires Valid()
      modifies this`bySecret, this`applied, this`history, shards
      ensures Valid()
      ensures applied == users && bySecret == SecretMap(users)
      ensures Users() == ListAll(old(Users()), users)
      ensures history == old(history) + ListedEvents(users)
    {
      var newSecret: Secrets := map[];
      for i := 0 to |users|
        invariant newSecret == SecretMap(users[..i])
      {
        newSecret := newSecret[users[i].uuid := users[i].id];
        assert users[..i + 1][..i] == users[..i];
      }
      assert users[..|users|] == users;
      bySecret, applied := newSecret, users;
      ListUsers(users);
    }

    /** The second loop of ReplaceUsers, one shard lock at a time. */
    method ListUsers(users: seq<User>)
      requires Valid()
      modifies this`history, shards
      ensures Valid()
      ensures Users() == ListAll(old(Users()), users)
      ensures history == old(history) + ListedEvents(users)
    {
      ghost var start, before := Users(), history;
      for i := 0 to |users|
        invariant Valid()
        invariant Users() == ListAll(start, users[..i])
        invariant history == before + ListedEvents(users[..i])
      {
        ListUser(users[i]);
        ListStep(start, before, users, i);
      }
      assert users[..|users|] == users;
    }

    /** Writes a user's state into its shard. */
    method PutUser(id: Int64, state: UserState)
      requires Placed(shards[..])
      modifies shards
      ensures Placed(shards[..]) && Users() == old(Users())[id := state]
    {
      FlatLookup(shards[..], id);
      var i := ShardIndex(id);
      ghost var before := shards[..];
      shards[i] := shards[i][id := state];
      FlatUpdate(before, id, state, shards[..]);
    }

    /** One user's critical section of ReplaceUsers. */
    method ListUser(user: User)
      requires Valid()
      modifies this`history, shards
      ensures Valid()
      ensures Users() == ListOne(old(Users()), user) && history == old(history) + [Listed(user)]
    {
      ShardIsRemainder(user.id);
      FlatLookup(shards[..], user.id);
      var i := ShardIndex(user.id);
      PutUser(user.id, if user.id in shards[i] then shards[i][user.id].(policy := user) else UserState(user, map[]));
      ListingRefines(old(Users()), history, user);
      history := history + [Listed(user)];
    }

    /** Finds the user of the last entry with the secret in the listing applied last, and nobody exactly if it has none. */
    method UserBySecret(secret: string) returns (id: Option<Int64>)
      requires Valid()
      ensures id.Some? <==> exists i: nat :: LastWith(applied, i, secret)
      ensures forall i: nat | LastWith(applied, i, secret) :: id == Some(applied[i].id)
      ensures id == if secret in bySecret then Some(bySecret[secret]) else None
    {
      SecretMapIsLast(applied, secret);
      id := if secret in bySecret then Some(bySecret[secret]) else None;
    }

    /**
     Admits exactly if the user was listed, and the attempt has no source, or the limit listed last is none, or
     the source was admitted in the last five minutes, or fewer sources than the limit were; an admitted attempt
     is counted once.
     */
    method Open(node: string, id: Int64, source: string, now: int) returns (ok: bool)
      requires Valid() && NotAfter(history, id, now)
      modifies this`usage, this`active, this`total, this`history, shards
      ensures Valid()
      ensures ok <==> exists i: nat :: ListedLast(old(history), id, i)
                        && var limit, recent := old(history)[i].user.deviceLimit, Sources(old(history), id, now - 300_000_000_000, now);
                           source == "" || limit <= 0 || source in recent || |recent| < limit
      ensures ok == Admits(old(history), id, source, now, TTL)
      ensures history == old(history) + [Attempt(id, source, now, ok)]
      ensures Users() == AttemptOn(old(Users()), id, source, now, ok)
      ensures ok ==> usage == Opened(old(usage), node, id) && active == old(active) + 1 && total == old(total) + 1
      ensures !ok ==> usage == old(usage) && active == old(active) && total == old(total)
    {
      AdmitsIff(history, id, source, now, TTL);
      ok := Admit(id, source, now);
      if ok {
        CountOpen(node, id);
      }
    }

    /** The counting half of Open, under the usage lock and on the atomics. */
    method CountOpen(node: string, id: Int64)
      modifies this`usage, this`active, this`total
      ensures usage == Opened(old(usage), node, id) && active == old(active) + 1 && total == old(total) + 1
    {
      var c := NodeUsage(node, id);
      PutTwice(old(usage), node, id, c, c.(active := c.active + 1));
      usage := Put(usage, node, id, c.(active := c.active + 1));
      active := active + 1;
      total := total + 1;
    }

    /** What Open makes of a user's state: prune, then judge and stamp. */
    method Judge(current: UserState, source: string, now: int) returns (ok: bool, ips: Table)
      ensures var pruned := Prune(current.ips, now, TTL);
              ok <==> source == "" || source in pruned || current.policy.deviceLimit <= 0 || |pruned| < current.policy.deviceLimit
      ensures ips == AfterAttempt(current.ips, source, now, TTL, ok)
    {
      ips := PruneLocked(current.ips, now);
      if source == "" {
        return true, ips;
      }
      if source !in ips && current.policy.deviceLimit > 0 && |ips| >= current.policy.deviceLimit {
        return false, ips;
      }
      return true, ips[source := now];
    }

    /** Open's critical section under the shard lock. */
    method Admit(id: Int64, source: string, now: int) returns (ok: bool)
      requires Valid() && NotAfter(history, id, now)
      modifies this`history, shards
      ensures Valid()
      ensures ok == Admits(old(history), id, source, now, TTL)
      ensures history == old(history) + [Attempt(id, source, now, ok)]
      ensures Users() == AttemptOn(old(Users()), id, source, now, ok)
    {
      FlatLookup(shards[..], id);
      var i := ShardIndex(id);
      ok := false;
      if id in shards[i] {
        var current := shards[i][id];
        var ips;
        ok, ips := Judge(current, source, now);
        JudgementIsAdmission(Users(), history, id, source, now);
        PutUser(id, current.(ips := ips));
      }
      AttemptRefines(old(Users()), history, id, source, now, ok);
      history := history + [Attempt(id, source, now, ok)];
    }

    method PruneLocked(ips: Table, now: int) returns (kept: Table)
      ensures kept == Prune(ips, now, TTL)
    {
      kept := ips;
      var todo := ips.Keys;
      while todo != {}
        invariant todo <= ips.Keys
        invariant forall ip :: ip in kept <==> ip in ips && (ip in todo || now - ips[ip] <= TTL)
        invariant forall ip | ip in kept :: kept[ip] == ips[ip]
        decreases todo
      {
        var ip :| ip in todo;
        if now - ips[ip] > TTL {
          kept := kept - {ip};
        }
        todo := todo - {ip};
      }
    }

    /** nodeUsageLocked, which also creates the entry. */
    method NodeUsage(node: string, id: Int64) returns (c: Counters)
      modifies this`usage
      ensures c == At(old(usage), node, id) && usage == Put(old(usage), node, id, c)
    {
      c := At(usage, node, id);
      usage := Put(usage, node, id, c);
    }

    method Close(node: string, id: Int64)
      modifies this`usage, this`active
      ensures var c := At(old(usage), node, id);
              if c.active > 0
              then usage == Put(old(usage), node, id, c.(active := c.active - 1)) && active == old(active) - 1
              else usage == Put(old(usage), node, id, c) && active == old(active)
    {
      var c := NodeUsage(node, id);
      if c.active > 0 {
        PutTwice(old(usage), node, id, c, c.(active := c.active - 1));
        usage := Put(usage, node, id, c.(active := c.active - 1));
        active := active - 1;
      }
    }

    method Known(id: Int64) returns (known: bool)
      requires Valid()
      ensures known == (id in Users())
    {
      FlatLookup(shards[..], id);
      known := id in shards[ShardIndex(id)];
    }

    method Add(node: string, id: Int64, upload: int, download: int)
      requires Valid()
      modifies this`usage
      ensures Valid()
      ensures var c := At(old(usage), node, id);
              usage == if id in Users()
                       then Put(old(usage), node, id, c.(upload := c.upload + upload, download := c.download + download))
                       else old(usage)
    {
      var known := Known(id);
      if !known {
        return;
      }
      var c := NodeUsage(node, id);
      PutTwice(old(usage), node, id, c, c.(upload := c.upload + upload, download := c.download + download));
      usage := Put(usage, node, id, c.(upload := c.upload + upload, download := c.download + download));
    }

    /** The unexpired addresses of one user, in iteration order. */
    method LiveSources(ips: Table, now: int) returns (live: seq<string>)
      ensures Enumerates(live, Prune(ips, now, TTL).Keys)
    {
      live := [];
      var todo := ips.Keys;
      while todo != {}
        invariant todo <= ips.Keys
        invariant forall ip :: ip in live <==> ip in ips && ip !in todo && now - ips[ip] <= TTL
        invariant Distinct(live)
        decreases todo
      {
        var ip :| ip in todo;
        if now - ips[ip] <= TTL {
          live := live + [ip];
        }
        todo := todo - {ip};
      }
    }

    method ShardAlive(users: Shard, now: int, before: map<string, seq<string>>, ghost seen: Shard)
      returns (alive: map<string, seq<string>>)
      requires ReportsAlive(before, seen, now) && seen.Keys !! users.Keys
      ensures ReportsAlive(alive, seen + users, now)
    {
      alive := before;
      var todo := users.Keys;
      assert seen + (users - users.Keys) == seen;
      while todo != {}
        invariant todo <= users.Keys
        invariant ReportsAlive(alive, seen + (users - todo), now)
        decreases todo
      {
        var id :| id in todo;
        var live := LiveSources(users[id].ips, now);
        ReportsAliveAdd(alive, seen + (users - todo), now, id, users[id], live);
        MoreVisited(seen, users, todo, id);
        if |live| > 0 {
          alive := alive[FormatInt(id) := live];
        }
        todo := todo - {id};
      }
      assert users - {} == users;
    }

    method CollectAlive(now: int) returns (alive: map<string, seq<string>>)
      requires Placed(shards[..])
      ensures ReportsAlive(alive, Users(), now)
    {
      alive := map[];
      for i := 0 to shards.Length
        invariant ReportsAlive(alive, Flat(shards[..i]), now)
      {
        EarlierShardsDisjoint(shards[..], i);
        assert shards[..][..i] == shards[..i] && shards[..i + 1][..i] == shards[..i];
        alive := ShardAlive(shards[i], now, alive, Flat(shards[..i]));
      }
      assert shards[..shards.Length] == shards[..];
    }

    /** Snapshot reports the unexpired addresses of every user and this node's counters; it changes nothing. */
    method TakeSnapshot(node: string, now: int) returns (snapshot: Snapshot)
      requires Valid()
      ensures ReportsAlive(snapshot.alive, Users(), now)
      ensures Prints(snapshot.traffic, Busy(NodeAt(usage, node)))
      ensures Prints(snapshot.online, Online(NodeAt(usage, node)))
    {
      var alive := CollectAlive(now);
      var traffic, online := NodeEntries(NodeAt(usage, node));
      snapshot := Snapshot(traffic, alive, online);
    }

    method NodeEntries(users: NodeUsage) returns (traffic: Traffic, online: map<string, int>)
      ensures Prints(traffic, Busy(users)) && Prints(online, Online(users))
    {
      traffic, online := map[], map[];
      var todo := users.Keys;
      while todo != {}
        invariant todo <= users.Keys
        invariant Prints(traffic, Busy(users - todo)) && Prints(online, Online(users - todo))
        decreases todo
      {
        var id :| id in todo;
        var c := users[id];
        BusyStep(users, todo, id, traffic);
        OnlineStep(users, todo, id, online);
        if c.upload > 0 || c.download > 0 {
          traffic := traffic[FormatInt(id) := (c.upload, c.download)];
        }
        if c.active > 0 {
          online := online[FormatInt(id) := c.active];
        }
        todo := todo - {id};
      }
      assert users - {} == users;
    }

    /** Commit debits the entries in some order; CommitIsExact says what that amounts to. */
    method Commit(node: string, snapshot: Snapshot) returns (ghost order: seq<string>)
      modifies this`usage
      ensures Enumerates(order, snapshot.traffic.Keys)
      ensures usage == CommitAll(old(usage), node, snapshot.traffic, order)
    {
      order := [];
      var todo := snapshot.traffic.Keys;
      while todo != {}
        invariant todo <= snapshot.traffic.Keys
        invariant Enumerates(order, snapshot.traffic.Keys - todo)
        invariant usage == CommitAll(old(usage), node, snapshot.traffic, order)
        decreases todo
      {
        var key :| key in todo;
        var id, value := ParseInt(key).value, snapshot.traffic[key];
        if node in usage && id in usage[node] {
          var c := usage[node][id];
          usage := Put(usage, node, id, c.(upload := c.upload - Min(c.upload, value.0), download := c.download - Min(c.download, value.1)));
        }
        todo := todo - {key};
        assert (order + [key])[..|order|] == order;
        order := order + [key];
      }
    }

    /** The user count of Metrics: each user is counted once. */
    method TotalUsers() returns (n: nat)
      requires Valid()
      ensures n == |Users()|
    {
      n := 0;
      for i := 0 to shards.Length
        invariant n == Count(shards[..i])
      {
        n := n + |shards[i]|;
        assert shards[..i + 1][..i] == shards[..i];
      }
      CountIsFlatSize(shards[..], shards.Length);
      assert shards[..][..shards.Length] == shards[..shards.Length] == shards[..];
    }
  }

  /**
   The device limit of a store, whatever calls led to it: while the limits listed for a user are between 1
   and the bound, no five minutes see it admitted from more non-empty sources than the bound.
   */
  lemma DeviceLimitHolds(s: Store, id: Int64, from: int, bound: nat)
    requires s.Valid() && LimitsAtMost(s.history, id, bound)
    ensures |Sources(s.history, id, from, from + 300_000_000_000)| <= bound
  {
    DeviceWindow(s.history, id, from, TTL, bound);
    WithinIsSources(s.history, id, from, from + TTL);
  }

  lemma {:induction false} EmptyShards(shards: seq<Shard>)
    requires forall i | 0 <= i < |shards| :: shards[i] == map[]
    ensures Flat(shards) == map[]
  {
    if shards != [] {
      EmptyShards(shards[..|shards| - 1]);
    }
  }
}
