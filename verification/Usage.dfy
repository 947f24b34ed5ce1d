/** Per-node, per-user counters, snapshots of them, and the debit a commit makes. */
module Usage {
  import opened Panel
  import opened Decimal

  datatype Counters = Counters(upload: int, download: int, active: int)

  const ZERO := Counters(0, 0, 0)

  type NodeUsage = map<Int64, Counters>
  type UsageMap = map<string, NodeUsage>
  type Traffic = map<string, (int, int)>

  /** A user's counters at a node; those never touched are zero. */
  function At(usage: UsageMap, node: string, id: Int64): Counters {
    if node in usage && id in usage[node] then usage[node][id] else ZERO
  }

  function NodeAt(usage: UsageMap, node: string): NodeUsage {
    if node in usage then usage[node] else map[]
  }

  function Put(usage: UsageMap, node: string, id: Int64, c: Counters): UsageMap {
    var users: NodeUsage := NodeAt(usage, node)[id := c];
    usage[node := users]
  }

  lemma PutTwice(usage: UsageMap, node: string, id: Int64, c: Counters, c': Counters)
    ensures Put(Put(usage, node, id, c), node, id, c') == Put(usage, node, id, c')
  {
    assert NodeAt(usage, node)[id := c][id := c'] == NodeAt(usage, node)[id := c'];
  }

  function Min(a: int, b: int): int {
    if a < b then a else b
  }

  /** The entries a snapshot reports as traffic, and as online. */
  function Busy(users: NodeUsage): map<Int64, (int, int)> {
    map id | id in users && (users[id].upload > 0 || users[id].download > 0) :: (users[id].upload, users[id].download)
  }

  function Online(users: NodeUsage): map<Int64, int> {
    map id | id in users && users[id].active > 0 :: users[id].active
  }

  /** A string-keyed map that is exactly an identifier-keyed one with the keys printed. */
  ghost predicate Prints<V>(m: map<string, V>, table: map<Int64, V>) {
    && (forall id: Int64 | id in table :: FormatInt(id) in m && m[FormatInt(id)] == table[id])
    && (forall key | key in m :: ParseInt(key).error == NoError && FormatInt(ParseInt(key).value) == key && ParseInt(key).value in table)
  }

  lemma PrintsAdd<V>(m: map<string, V>, table: map<Int64, V>, id: Int64, v: V)
    requires Prints(m, table)
    ensures Prints(m[FormatInt(id) := v], table[id := v])
  {
    forall k: Int64 ensures FormatInt(k) == FormatInt(id) <==> k == id {
      FormatInjective(k, id);
    }
    ParseFormat(id);
  }

  /** What Commit does with one entry: unknown nodes and users are skipped, debits never go below zero. */
  function CommitOne(usage: UsageMap, node: string, key: string, value: (int, int)): UsageMap {
    var id := ParseInt(key).value;
    if node !in usage || id !in usage[node] then usage
    else
      var c := usage[node][id];
      Put(usage, node, id, c.(upload := c.upload - Min(c.upload, value.0), download := c.download - Min(c.download, value.1)))
  }

  /** Commit over the entries in the order the map iteration happens to take. */
  function CommitAll(usage: UsageMap, node: string, traffic: Traffic, order: seq<string>): UsageMap
    requires forall key | key in order :: key in traffic
  {
    if order == [] then usage
    else
      var key := order[|order| - 1];
      CommitOne(CommitAll(usage, node, traffic, order[..|order| - 1]), node, key, traffic[key])
  }

  ghost predicate Distinct<T(!new)>(order: seq<T>) {
    forall i, j | 0 <= i < j < |order| :: order[i] != order[j]
  }

  lemma DistinctInit<T(!new)>(order: seq<T>) returns (init: seq<T>, last: T)
    requires order != [] && Distinct(order)
    ensures init == order[..|order| - 1] && last == order[|order| - 1] && order == init + [last]
    ensures Distinct(init) && last !in init && forall x | x in init :: x in order
  {
    init, last := order[..|order| - 1], order[|order| - 1];
  }

  /** An iteration order of a set: each element once. */
  ghost predicate Enumerates<T(!new)>(order: seq<T>, keys: set<T>) {
    && (forall x :: x in order <==> x in keys)
    && Distinct(order)
  }

  /** The counters cover a snapshot: nothing it reports has been taken away since. */
  ghost predicate Covers(users: NodeUsage, snapped: map<Int64, (int, int)>) {
    forall id | id in snapped ::
      && id in users && 0 <= snapped[id].0 <= users[id].upload && 0 <= snapped[id].1 <= users[id].download
  }

  function Debit(c: Counters, v: (int, int)): Counters {
    c.(upload := c.upload - v.0, download := c.download - v.1)
  }

  function DebitIn(c: Counters, id: Int64, snapped: map<Int64, (int, int)>): Counters {
    if id in snapped then Debit(c, snapped[id]) else c
  }

  function DebitedCounters(c: Counters, id: Int64, snapped: map<Int64, (int, int)>, done: seq<string>): Counters {
    if id in snapped && FormatInt(id) in done then Debit(c, snapped[id]) else c
  }

  /** Exactly the entries processed so far are debited, in full. */
  ghost predicate Debited(before: UsageMap, after: UsageMap, node: string, snapped: map<Int64, (int, int)>, done: seq<string>) {
    && after.Keys == before.Keys
    && (forall n | n in before && n != node :: after[n] == before[n])
    && (node in before ==>
          && after[node].Keys == before[node].Keys
          && forall id | id in before[node] :: after[node][id] == DebitedCounters(before[node][id], id, snapped, done))
  }

  lemma CommitOneDebits(before: UsageMap, usage: UsageMap, node: string, traffic: Traffic, snapped: map<Int64, (int, int)>, done: seq<string>, key: string)
    requires Prints(traffic, snapped) && Covers(NodeAt(before, node), snapped)
    requires Debited(before, usage, node, snapped, done)
    requires key in traffic && key !in done
    ensures Debited(before, CommitOne(usage, node, key, traffic[key]), node, snapped, done + [key])
  {
    var id := ParseInt(key).value;
    var after := CommitOne(usage, node, key, traffic[key]);
    assert id in snapped && FormatInt(id) == key && traffic[key] == snapped[id];
    if node in before {
      assert id in before[node] && usage[node][id] == before[node][id];
      assert after[node][id] == Debit(before[node][id], snapped[id]);
      forall other | other in before[node]
        ensures other in after[node] && after[node][other] == DebitedCounters(before[node][other], other, snapped, done + [key])
      {
        FormatInjective(other, id);
      }
      assert after[node].Keys == before[node].Keys;
    }
  }

  lemma {:induction false} CommitPrefixIsDebit(usage: UsageMap, node: string, traffic: Traffic, snapped: map<Int64, (int, int)>, order: seq<string>)
    requires Prints(traffic, snapped) && Covers(NodeAt(usage, node), snapped)
    requires forall key | key in order :: key in traffic
    requires Distinct(order)
    ensures Debited(usage, CommitAll(usage, node, traffic, order), node, snapped, order)
  {
    if order != [] {
      var init, key := DistinctInit(order);
      CommitPrefixIsDebit(usage, node, traffic, snapped, init);
      CommitOneDebits(usage, CommitAll(usage, node, traffic, init), node, traffic, snapped, init, key);
    }
  }

  /**
   Committing a snapshot debits exactly the users snapshotted, in full and in any order, as long as
   nothing it reports has been taken away since; `min` never truncates and nobody else is touched.
   */
  lemma CommitIsExact(usage: UsageMap, node: string, traffic: Traffic, snapped: map<Int64, (int, int)>, order: seq<string>)
    requires Prints(traffic, snapped) && Covers(NodeAt(usage, node), snapped)
    requires Enumerates(order, traffic.Keys)
    ensures forall n, id: Int64 ::
              At(CommitAll(usage, node, traffic, order), n, id)
              == if n == node then DebitIn(At(usage, n, id), id, snapped) else At(usage, n, id)
  {
    CommitPrefixIsDebit(usage, node, traffic, snapped, order);
  }
}
