/** The 64-way sharding of users, and the one flat map it stands for. */
module Shards {
  import opened Panel

  const SHARD_COUNT: nat := 64
  const SHARD_MASK: nat := SHARD_COUNT - 1

  /** The 64-bit two's-complement pattern of an int64, as a natural number. */
  function Pattern(x: Int64): (p: nat)
    ensures p < 0x1_0000_0000_0000_0000
  {
    if x < 0 then x + 0x1_0000_0000_0000_0000 else x
  }

  /** The int64 a pattern stands for. */
  function Signed(p: nat): Int64
    requires p < 0x1_0000_0000_0000_0000
  {
    if p >= 0x8000_0000_0000_0000 then p - 0x1_0000_0000_0000_0000 else p
  }

  /** Bitwise conjunction of two patterns. */
  function BitAnd(a: nat, b: nat): (r: nat)
    ensures r <= a && r <= b
  {
    if a == 0 || b == 0 then 0 else (a % 2) * (b % 2) + 2 * BitAnd(a / 2, b / 2)
  }

  /** The index getShard computes: mask the identifier, then flip a negative result. */
  function ShardIndex(id: Int64): int {
    var idx: int := Signed(BitAnd(Pattern(id), SHARD_MASK));
    if idx < 0 then -idx else idx
  }

  /** One step of masking with ones: the low bit, then the rest. */
  lemma MaskStep(a: nat, m: nat)
    requires m > 0
    ensures BitAnd(a, 2 * m - 1) == a % 2 + 2 * BitAnd(a / 2, m - 1)
  {
    assert (2 * m - 1) / 2 == m - 1;
    if a != 0 {
      assert (2 * m - 1) % 2 == 1;
    }
  }

  lemma ThreeHalves(a: nat)
    ensures a / 2 / 2 / 2 == a / 8 && a % 8 == a % 2 + 2 * (a / 2 % 2) + 4 * (a / 2 / 2 % 2)
  {
  }

  lemma MaskThreeSteps(a: nat, m: nat)
    requires m > 0
    ensures BitAnd(a, 8 * m - 1) == a % 8 + 8 * BitAnd(a / 8, m - 1)
  {
    MaskStep(a, 4 * m);
    MaskStep(a / 2, 2 * m);
    MaskStep(a / 2 / 2, m);
    ThreeHalves(a);
  }

  lemma RemainderByEights(a: nat)
    ensures a % 64 == a % 8 + 8 * (a / 8 % 8)
  {
  }

  /** Masking with six ones is the remainder modulo 64. */
  lemma MaskIsRemainder(a: nat)
    ensures BitAnd(a, SHARD_MASK) == a % SHARD_COUNT
  {
    MaskThreeSteps(a, 8);
    MaskThreeSteps(a / 8, 1);
    RemainderByEights(a);
  }

  lemma PatternRemainder(id: Int64)
    ensures Pattern(id) % SHARD_COUNT == id % SHARD_COUNT
  {
    assert 0x1_0000_0000_0000_0000 == SHARD_COUNT * 0x400_0000_0000_0000;
  }

  /** For every int64, negatives included, the shard is the Euclidean remainder modulo 64. */
  lemma {:induction false} ShardIsRemainder(id: Int64)
    ensures ShardIndex(id) == id % SHARD_COUNT && 0 <= ShardIndex(id) < SHARD_COUNT
  {
    MaskIsRemainder(Pattern(id));
    PatternRemainder(id);
    assert BitAnd(Pattern(id), SHARD_MASK) < SHARD_COUNT;
  }

  /** Every user of every shard lies in the shard its identifier selects. */
  ghost predicate Placed<V>(shards: seq<map<Int64, V>>) {
    && |shards| == SHARD_COUNT
    && forall i, id | 0 <= i < |shards| && id in shards[i] :: ShardIndex(id) == i
  }

  /** The one map the shards stand for. */
  function Flat<V>(shards: seq<map<Int64, V>>): map<Int64, V> {
    if shards == [] then map[] else Flat(shards[..|shards| - 1]) + shards[|shards| - 1]
  }

  /** How many users a loop over the shards counts. */
  function Count<V>(shards: seq<map<Int64, V>>): nat {
    if shards == [] then 0 else Count(shards[..|shards| - 1]) + |shards[|shards| - 1]|
  }

  lemma {:induction false} FlatLookupPrefix<V>(shards: seq<map<Int64, V>>, n: nat, id: Int64)
    requires Placed(shards) && n <= |shards|
    ensures 0 <= ShardIndex(id) < |shards|
    ensures id in Flat(shards[..n]) <==> ShardIndex(id) < n && id in shards[ShardIndex(id)]
    ensures id in Flat(shards[..n]) ==> Flat(shards[..n])[id] == shards[ShardIndex(id)][id]
  {
    ShardIsRemainder(id);
    if n > 0 {
      assert shards[..n][..n - 1] == shards[..n - 1];
      FlatLookupPrefix(shards, n - 1, id);
    }
  }

  /** Looking a user up in its shard is looking it up in the flat map. */
  lemma FlatLookup<V>(shards: seq<map<Int64, V>>, id: Int64)
    requires Placed(shards)
    ensures 0 <= ShardIndex(id) < |shards|
    ensures id in Flat(shards) <==> id in shards[ShardIndex(id)]
    ensures id in Flat(shards) ==> Flat(shards)[id] == shards[ShardIndex(id)][id]
  {
    ShardIsRemainder(id);
    assert shards[..|shards|] == shards;
    FlatLookupPrefix(shards, |shards|, id);
  }

  /** Writing a user into its shard is writing it into the flat map. */
  lemma FlatUpdate<V>(shards: seq<map<Int64, V>>, id: Int64, v: V, after: seq<map<Int64, V>>)
    requires Placed(shards) && 0 <= ShardIndex(id) < |shards| == |after|
    requires after[ShardIndex(id)] == shards[ShardIndex(id)][id := v]
    requires forall i | 0 <= i < |shards| && i != ShardIndex(id) :: after[i] == shards[i]
    ensures Placed(after) && Flat(after) == Flat(shards)[id := v]
  {
    assert Placed(after);
    forall k: Int64
      ensures k in Flat(after) <==> k in Flat(shards)[id := v]
      ensures k in Flat(after) ==> Flat(after)[k] == Flat(shards)[id := v][k]
    {
      FlatLookup(shards, k);
      FlatLookup(after, k);
    }
  }

  lemma EarlierShardsDisjoint<V>(shards: seq<map<Int64, V>>, n: nat)
    requires Placed(shards) && n < |shards|
    ensures Flat(shards[..n]).Keys !! shards[n].Keys
  {
    forall id | id in shards[n] ensures id !in Flat(shards[..n]) {
      FlatLookupPrefix(shards, n, id);
    }
  }

  lemma UnionSize<V>(a: map<Int64, V>, b: map<Int64, V>)
    requires a.Keys !! b.Keys
    ensures |a + b| == |a| + |b|
  {
    assert (a + b).Keys == a.Keys + b.Keys;
    assert |a.Keys + b.Keys| == |a.Keys| + |b.Keys|;
    assert |(a + b).Keys| == |a + b|;
  }

  /** A loop over the shards visits each user exactly once. */
  lemma {:induction false} CountIsFlatSize<V>(shards: seq<map<Int64, V>>, n: nat)
    requires Placed(shards) && n <= |shards|
    ensures Count(shards[..n]) == |Flat(shards[..n])|
  {
    if n > 0 {
      assert shards[..n][..n - 1] == shards[..n - 1];
      CountIsFlatSize(shards, n - 1);
      EarlierShardsDisjoint(shards, n - 1);
      UnionSize(Flat(shards[..n - 1]), shards[n - 1]);
    }
  }
}
