/**
 The store's locks, one step per lock operation: trackMu, the secret map's lock, a lock per shard and
 usageMu, with Go's rule that a waiting writer holds back new readers. No run ever deadlocks.
 */
module Locks {
  import opened Panel
  import opened Wrappers
  import opened Shards

  datatype Lock = TrackMu | SecretMu | ShardMu(index: int) | UsageMu

  datatype Mode = Read | Write

  datatype Instr = Acquire(lock: Lock, mode: Mode) | Unlock(lock: Lock)

  /** trackMu comes before every other lock; the others are never held together. */
  function Rank(l: Lock): nat {
    if l == TrackMu then 0 else 1
  }

  function Section(l: Lock, m: Mode): seq<Instr> {
    [Acquire(l, m), Unlock(l)]
  }

  /** The calls that take locks; booleans say which way a branch inside the call goes. */
  datatype Op =
    | Open(id: Int64, admitted: bool)
    | Close
    | Add(id: Int64, known: bool)
    | Wait(id: Int64)
    | Snapshot
    | Commit
    | Metrics
    | ReplaceUsers(ids: seq<Int64>)
    | UserBySecret
    | Register
    | Unregister
    | Sweep(flushed: seq<Op>)

  /** What a sweep does for one connection: add its bytes, or nothing. */
  predicate IsSweepOp(op: Op) {
    op.Sweep? ==> forall o | o in op.flushed :: o.Add?
  }

  function ShardOf(id: Int64): Lock {
    ShardMu(ShardIndex(id))
  }

  function Listing(ids: seq<Int64>): seq<Instr> {
    if ids == [] then [] else Listing(ids[..|ids| - 1]) + Section(ShardOf(ids[|ids| - 1]), Write)
  }

  function AllShards(n: nat): seq<Instr> {
    if n == 0 then [] else AllShards(n - 1) + Section(ShardMu(n - 1), Read)
  }

  function AddProgram(id: Int64, known: bool): seq<Instr> {
    Section(ShardOf(id), Read) + if known then Section(UsageMu, Write) else []
  }

  function Adds(ops: seq<Op>): seq<Instr>
    requires forall o | o in ops :: o.Add?
  {
    if ops == [] then []
    else Adds(ops[..|ops| - 1]) + AddProgram(ops[|ops| - 1].id, ops[|ops| - 1].known)
  }

  /** The lock operations of a call, in order. */
  function Program(op: Op): seq<Instr>
    requires IsSweepOp(op)
  {
    match op
    case Open(id, admitted) => Section(ShardOf(id), Write) + if admitted then Section(UsageMu, Write) else []
    case Close => Section(UsageMu, Write)
    case Add(id, known) => AddProgram(id, known)
    case Wait(id) => Section(ShardOf(id), Read)
    case Snapshot => AllShards(SHARD_COUNT) + Section(UsageMu, Read)
    case Commit => Section(UsageMu, Write)
    case Metrics => AllShards(SHARD_COUNT)
    case ReplaceUsers(ids) => Section(SecretMu, Write) + Listing(ids)
    case UserBySecret => Section(SecretMu, Read)
    case Register => Section(TrackMu, Write)
    case Unregister => Section(TrackMu, Write)
    case Sweep(flushed) => [Acquire(TrackMu, Write)] + Adds(flushed) + [Unlock(TrackMu)]
  }

  datatype Hold = Hold(lock: Lock, mode: Mode)

  /** A goroutine: what it still does in its current call, what it holds, whether it has queued as a writer. */
  datatype Thread = Thread(todo: seq<Instr>, held: seq<Hold>, queued: bool)

  type Threads = seq<Thread>

  /** Locks are taken in rank order and given back last first, and nothing is held at the end. */
  predicate Disciplined(todo: seq<Instr>, held: seq<Hold>) {
    if todo == [] then held == []
    else
      match todo[0]
      case Acquire(l, m) => (forall h | h in held :: Rank(h.lock) < Rank(l)) && Disciplined(todo[1..], held + [Hold(l, m)])
      case Unlock(l) => held != [] && held[|held| - 1].lock == l && Disciplined(todo[1..], held[..|held| - 1])
  }

  predicate WritesOrQueues(t: Thread, l: Lock) {
    Hold(l, Write) in t.held || (t.queued && t.todo != [] && t.todo[0] == Acquire(l, Write))
  }

  predicate Holds(t: Thread, l: Lock) {
    Hold(l, Read) in t.held || Hold(l, Write) in t.held
  }

  /** Whether thread u stands in the way of thread t's next instruction. */
  predicate Blocks(ts: Threads, u: nat, t: nat)
    requires u < |ts| && t < |ts|
  {
    && ts[t].todo != [] && ts[t].todo[0].Acquire?
    && var l := ts[t].todo[0].lock;
       if ts[t].todo[0].mode == Read then WritesOrQueues(ts[u], l)
       else if !ts[t].queued then u != t && WritesOrQueues(ts[u], l)
       else Holds(ts[u], l)
  }

  ghost predicate CanStep(ts: Threads, t: nat) {
    t < |ts| && ts[t].todo != [] && forall u: nat | u < |ts| :: !Blocks(ts, u, t)
  }

  /** One lock operation; a writer first queues, then gets the lock. */
  function Advance(t: Thread): Thread
    requires t.todo != []
  {
    match t.todo[0]
    case Unlock(_) => Thread(t.todo[1..], if t.held == [] then [] else t.held[..|t.held| - 1], false)
    case Acquire(l, m) =>
      if m == Write && !t.queued then t.(queued := true)
      else Thread(t.todo[1..], t.held + [Hold(l, m)], false)
  }

  datatype Action = Spawn | Begin(t: nat, op: Op) | Run(t: nat)

  ghost predicate Enabled(ts: Threads, a: Action) {
    match a
    case Spawn => true
    case Begin(t, op) => t < |ts| && ts[t].todo == [] && IsSweepOp(op)
    case Run(t) => CanStep(ts, t)
  }

  ghost function Step(ts: Threads, a: Action): Threads
    requires Enabled(ts, a)
  {
    match a
    case Spawn => ts + [Thread([], [], false)]
    case Begin(t, op) => ts[t := ts[t].(todo := Program(op))]
    case Run(t) => ts[t := Advance(ts[t])]
  }

  ghost function After(actions: seq<Action>): Option<Threads> {
    if actions == [] then Some([])
    else
      match After(actions[..|actions| - 1])
      case None => None
      case Some(ts) =>
        var a := actions[|actions| - 1];
        if Enabled(ts, a) then Some(Step(ts, a)) else None
  }

  predicate ThreadOk(t: Thread) {
    && Disciplined(t.todo, t.held)
    && (t.queued ==> t.todo != [] && t.todo[0].Acquire? && t.todo[0].mode == Write)
  }

  ghost predicate AllOk(ts: Threads) {
    forall t | 0 <= t < |ts| :: ThreadOk(ts[t])
  }

  /** A write lock, held or queued for, keeps every other writer out; once held, every reader too. */
  ghost predicate Exclusive(ts: Threads) {
    forall t, u, l | 0 <= t < |ts| && 0 <= u < |ts| && t != u :: Excludes(ts[t], ts[u], l)
  }

  predicate Excludes(t: Thread, u: Thread, l: Lock) {
    WritesOrQueues(t, l) ==> !WritesOrQueues(u, l) && (Hold(l, Write) in t.held ==> !Holds(u, l))
  }

  lemma {:induction false} DisciplinedAppend(p: seq<Instr>, q: seq<Instr>, held: seq<Hold>, inner: seq<Hold>)
    requires Disciplined(p, inner) && Disciplined(q, held)
    requires forall h, i | h in held && i in p && i.Acquire? :: Rank(h.lock) < Rank(i.lock)
    ensures Disciplined(p + q, held + inner)
  {
    if p == [] {
      assert p + q == q && held + inner == held;
    } else {
      assert (p + q)[1..] == p[1..] + q;
      match p[0]
      case Acquire(l, m) =>
        assert held + inner + [Hold(l, m)] == held + (inner + [Hold(l, m)]);
        DisciplinedAppend(p[1..], q, held, inner + [Hold(l, m)]);
      case Unlock(l) =>
        assert (held + inner)[..|held + inner| - 1] == held + inner[..|inner| - 1];
        DisciplinedAppend(p[1..], q, held, inner[..|inner| - 1]);
    }
  }

  lemma SectionDisciplined(l: Lock, m: Mode)
    ensures Disciplined(Section(l, m), [])
  {
    var p := Section(l, m);
    assert p[1..] == [Unlock(l)] && p[1..][1..] == [];
    assert ([] + [Hold(l, m)])[..0] == [];
  }

  lemma Sequence(p: seq<Instr>, q: seq<Instr>)
    requires Disciplined(p, []) && Disciplined(q, [])
    ensures Disciplined(p + q, [])
  {
    DisciplinedAppend(p, q, [], []);
  }

  lemma {:induction false} ListingDisciplined(ids: seq<Int64>)
    ensures Disciplined(Listing(ids), [])
  {
    if ids != [] {
      ListingDisciplined(ids[..|ids| - 1]);
      SectionDisciplined(ShardOf(ids[|ids| - 1]), Write);
      Sequence(Listing(ids[..|ids| - 1]), Section(ShardOf(ids[|ids| - 1]), Write));
    }
  }

  lemma {:induction false} AllShardsDisciplined(n: nat)
    ensures Disciplined(AllShards(n), [])
  {
    if n > 0 {
      AllShardsDisciplined(n - 1);
      SectionDisciplined(ShardMu(n - 1), Read);
      Sequence(AllShards(n - 1), Section(ShardMu(n - 1), Read));
    }
  }

  lemma AddDisciplined(id: Int64, known: bool)
    ensures Disciplined(AddProgram(id, known), [])
    ensures forall i | i in AddProgram(id, known) && i.Acquire? :: Rank(i.lock) == 1
  {
    SectionDisciplined(ShardOf(id), Read);
    SectionDisciplined(UsageMu, Write);
    Sequence(Section(ShardOf(id), Read), Section(UsageMu, Write));
    Sequence(Section(ShardOf(id), Read), []);
  }

  lemma {:induction false} AddsDisciplined(ops: seq<Op>)
    requires forall o | o in ops :: o.Add?
    ensures Disciplined(Adds(ops), [])
    ensures forall i | i in Adds(ops) && i.Acquire? :: Rank(i.lock) == 1
  {
    if ops != [] {
      var o := ops[|ops| - 1];
      AddsDisciplined(ops[..|ops| - 1]);
      AddDisciplined(o.id, o.known);
      Sequence(Adds(ops[..|ops| - 1]), AddProgram(o.id, o.known));
    }
  }

  lemma HeldThroughout(l: Lock, m: Mode, body: seq<Instr>)
    requires Disciplined(body, []) && forall i | i in body && i.Acquire? :: Rank(l) < Rank(i.lock)
    ensures Disciplined([Acquire(l, m)] + body + [Unlock(l)], [])
  {
    var held := [Hold(l, m)];
    var unlock := [Unlock(l)];
    assert Disciplined(unlock, held) by {
      assert unlock[1..] == [] && held[..0] == [];
    }
    DisciplinedAppend(body, unlock, held, []);
    assert held + [] == held && [] + held == held;
    var whole := [Acquire(l, m)] + body + unlock;
    assert whole[0] == Acquire(l, m) && whole[1..] == body + unlock;
  }

  lemma OpenDisciplined(id: Int64, admitted: bool)
    ensures Disciplined(Section(ShardOf(id), Write) + if admitted then Section(UsageMu, Write) else [], [])
  {
    SectionDisciplined(ShardOf(id), Write);
    SectionDisciplined(UsageMu, Write);
    Sequence(Section(ShardOf(id), Write), if admitted then Section(UsageMu, Write) else []);
  }

  lemma SnapshotDisciplined()
    ensures Disciplined(AllShards(SHARD_COUNT) + Section(UsageMu, Read), [])
  {
    AllShardsDisciplined(SHARD_COUNT);
    SectionDisciplined(UsageMu, Read);
    Sequence(AllShards(SHARD_COUNT), Section(UsageMu, Read));
  }

  lemma ReplaceDisciplined(ids: seq<Int64>)
    ensures Disciplined(Section(SecretMu, Write) + Listing(ids), [])
  {
    ListingDisciplined(ids);
    SectionDisciplined(SecretMu, Write);
    Sequence(Section(SecretMu, Write), Listing(ids));
  }

  /** Every call takes its locks in rank order and gives them all back. */
  lemma ProgramDisciplined(op: Op)
    requires IsSweepOp(op)
    ensures Disciplined(Program(op), [])
  {
    match op
    case Open(id, admitted) => OpenDisciplined(id, admitted);
    case Close => SectionDisciplined(UsageMu, Write);
    case Add(id, known) => AddDisciplined(id, known);
    case Wait(id) => SectionDisciplined(ShardOf(id), Read);
    case Snapshot => SnapshotDisciplined();
    case Commit => SectionDisciplined(UsageMu, Write);
    case Metrics => AllShardsDisciplined(SHARD_COUNT);
    case ReplaceUsers(ids) => ReplaceDisciplined(ids);
    case UserBySecret => SectionDisciplined(SecretMu, Read);
    case Register => SectionDisciplined(TrackMu, Write);
    case Unregister => SectionDisciplined(TrackMu, Write);
    case Sweep(flushed) =>
      AddsDisciplined(flushed);
      HeldThroughout(TrackMu, Write, Adds(flushed));
  }

  lemma StepKeepsOk(ts: Threads, a: Action)
    requires AllOk(ts) && Enabled(ts, a)
    ensures AllOk(Step(ts, a))
  {
    match a
    case Spawn =>
    case Begin(t, op) =>
      assert ThreadOk(ts[t]);
      ProgramDisciplined(op);
    case Run(t) => assert ThreadOk(ts[t]);
  }

  /** Waiting further along the order of locks, and queued before not queued at the same lock. */
  function Level(t: Thread): nat
    requires t.todo != [] && t.todo[0].Acquire?
  {
    2 * Rank(t.todo[0].lock) + if t.queued then 1 else 0
  }

  predicate Waiting(ts: Threads, t: nat) {
    t < |ts| && ts[t].todo != [] && ts[t].todo[0].Acquire?
  }

  /** Whoever stands in the way and is itself waiting waits at a higher level. */
  lemma BlockerIsHigher(ts: Threads, u: nat, t: nat)
    requires AllOk(ts) && u < |ts| && t < |ts| && Blocks(ts, u, t)
    ensures ts[u].todo != []
    ensures ts[u].todo[0].Acquire? ==> Level(ts[u]) > Level(ts[t])
  {
    assert ThreadOk(ts[u]) && ThreadOk(ts[t]);
  }

  /** Each thread of the chain waits for the next. */
  ghost predicate WaitChain(ts: Threads, chain: seq<nat>) {
    && (forall i | 0 <= i < |chain| :: Waiting(ts, chain[i]))
    && (forall i | 0 <= i < |chain| - 1 :: Blocks(ts, chain[i + 1], chain[i]))
  }

  lemma {:induction false} ChainClimbs(ts: Threads, chain: seq<nat>)
    requires AllOk(ts) && WaitChain(ts, chain) && |chain| > 1
    ensures Level(ts[chain[|chain| - 1]]) > Level(ts[chain[0]])
  {
    BlockerIsHigher(ts, chain[1], chain[0]);
    if |chain| > 2 {
      ChainClimbs(ts, chain[1..]);
    }
  }

  /** From any thread with work left, some thread can go on. */
  lemma {:induction false} SomeoneCanStep(ts: Threads, t: nat) returns (v: nat)
    requires AllOk(ts) && t < |ts| && ts[t].todo != []
    ensures CanStep(ts, v)
    decreases if ts[t].todo[0].Acquire? then 1 + 4 - Level(ts[t]) else 0
  {
    if u: nat :| u < |ts| && Blocks(ts, u, t) {
      BlockerIsHigher(ts, u, t);
      v := SomeoneCanStep(ts, u);
    } else {
      v := t;
    }
  }

  lemma {:induction false} ReachableOk(actions: seq<Action>)
    requires After(actions).Some?
    ensures AllOk(After(actions).value)
  {
    if actions != [] {
      ReachableOk(actions[..|actions| - 1]);
      StepKeepsOk(After(actions[..|actions| - 1]).value, actions[|actions| - 1]);
    }
  }

  /** The wait-for relation is acyclic in every run: no chain of waits comes back to its start. */
  lemma WaitForAcyclic(actions: seq<Action>, chain: seq<nat>)
    requires After(actions).Some? && WaitChain(After(actions).value, chain) && |chain| > 1
    ensures chain[0] != chain[|chain| - 1]
  {
    ReachableOk(actions);
    ChainClimbs(After(actions).value, chain);
  }

  /** No run deadlocks: while some goroutine is inside a call, some goroutine can take its next step. */
  lemma NoDeadlock(actions: seq<Action>, t: nat)
    requires After(actions).Some? && t < |After(actions).value| && After(actions).value[t].todo != []
    ensures exists v: nat :: Enabled(After(actions).value, Run(v))
  {
    ReachableOk(actions);
    var v := SomeoneCanStep(After(actions).value, t);
    assert Enabled(After(actions).value, Run(v));
  }

  lemma StepKeepsExclusive(ts: Threads, a: Action)
    requires AllOk(ts) && Exclusive(ts) && Enabled(ts, a)
    ensures Exclusive(Step(ts, a))
  {
    var ts' := Step(ts, a);
    match a
    case Spawn =>
    case Begin(t, op) =>
      assert ThreadOk(ts[t]);
    case Run(t) =>
      assert ThreadOk(ts[t]);
      AdvanceKeepsExclusive(ts, t);
  }

  /** A step gains at most the lock it names. */
  lemma AdvanceGains(t: Thread, l: Lock)
    requires ThreadOk(t) && t.todo != []
    ensures WritesOrQueues(Advance(t), l) ==> WritesOrQueues(t, l) || t.todo[0] == Acquire(l, Write)
    ensures Holds(Advance(t), l) ==> Holds(t, l) || (t.todo[0].Acquire? && t.todo[0].lock == l && (t.todo[0].mode == Read || t.queued))
    ensures Hold(l, Write) in Advance(t).held ==> Hold(l, Write) in t.held || (t.todo[0] == Acquire(l, Write) && t.queued)
  {
  }

  lemma AdvanceKeepsExclusive(ts: Threads, t: nat)
    requires AllOk(ts) && Exclusive(ts) && CanStep(ts, t)
    ensures Exclusive(ts[t := Advance(ts[t])])
  {
    var ts' := ts[t := Advance(ts[t])];
    assert ThreadOk(ts[t]);
    forall a, b, l | 0 <= a < |ts'| && 0 <= b < |ts'| && a != b
      ensures Excludes(ts'[a], ts'[b], l)
    {
      AdvanceGains(ts[t], l);
      assert Excludes(ts[a], ts[b], l) && Excludes(ts[b], ts[a], l);
      if a == t {
        assert !Blocks(ts, b, t);
      } else if b == t {
        assert !Blocks(ts, a, t);
      }
    }
  }

  /** The locks do their job in every run: a writer excludes everybody else. */
  lemma {:induction false} WritersExclude(actions: seq<Action>)
    requires After(actions).Some?
    ensures Exclusive(After(actions).value)
  {
    if actions != [] {
      WritersExclude(actions[..|actions| - 1]);
      ReachableOk(actions[..|actions| - 1]);
      StepKeepsExclusive(After(actions[..|actions| - 1]).value, actions[|actions| - 1]);
    }
  }

  /** Thread u waits as a writer, having queued, for a lock. */
  predicate QueuedFor(u: Thread, l: Lock) {
    u.queued && u.todo != [] && u.todo[0] == Acquire(l, Write)
  }

  /**
   Who gets a lock: a reader, exactly if nobody holds it for writing or has queued for it, so that a writer that waits
   is not overtaken; a writer queues exactly if no other holds it for writing or has queued; and a queued writer
   gets it exactly if nobody holds it at all.
   */
  lemma WhoGetsTheLock(ts: Threads, t: nat, l: Lock)
    requires t < |ts| && ts[t].todo != []
    ensures ts[t].todo[0] == Acquire(l, Read) ==>
              (CanStep(ts, t) <==> forall u | 0 <= u < |ts| :: Hold(l, Write) !in ts[u].held && !QueuedFor(ts[u], l))
    ensures ts[t].todo[0] == Acquire(l, Write) && !ts[t].queued ==>
              (CanStep(ts, t) <==> forall u | 0 <= u < |ts| && u != t :: Hold(l, Write) !in ts[u].held && !QueuedFor(ts[u], l))
    ensures QueuedFor(ts[t], l) ==>
              (CanStep(ts, t) <==> forall u | 0 <= u < |ts| :: Hold(l, Read) !in ts[u].held && Hold(l, Write) !in ts[u].held)
  {
    forall u: nat | u < |ts|
      ensures Blocks(ts, u, t)
              <==> && ts[t].todo[0].Acquire?
                   && var k := ts[t].todo[0].lock;
                      if ts[t].todo[0].mode == Read then Hold(k, Write) in ts[u].held || QueuedFor(ts[u], k)
                      else if !ts[t].queued then u != t && (Hold(k, Write) in ts[u].held || QueuedFor(ts[u], k))
                      else Hold(k, Read) in ts[u].held || Hold(k, Write) in ts[u].held
    {
    }
  }

  /** The locks a program takes, and how. */
  function Taken(p: seq<Instr>): set<Hold> {
    if p == [] then {}
    else Taken(p[..|p| - 1]) + if p[|p| - 1].Acquire? then {Hold(p[|p| - 1].lock, p[|p| - 1].mode)} else {}
  }

  /**
   What each call must hold: the data it reads or writes names the lock, and whether it writes the mode. Users live
   in the shard of their remainder modulo 64; usage, secrets and the tracked set have a lock each.
   */
  ghost function Needs(op: Op): iset<Hold> {
    match op
    case Open(id, admitted) => iset{Hold(ShardMu(id % 64), Write)} + if admitted then iset{Hold(UsageMu, Write)} else iset{}
    case Close => iset{Hold(UsageMu, Write)}
    case Add(id, known) => iset{Hold(ShardMu(id % 64), Read)} + if known then iset{Hold(UsageMu, Write)} else iset{}
    case Wait(id) => iset{Hold(ShardMu(id % 64), Read)}
    case Snapshot => (iset i | 0 <= i < 64 :: Hold(ShardMu(i), Read)) + iset{Hold(UsageMu, Read)}
    case Commit => iset{Hold(UsageMu, Write)}
    case Metrics => iset i | 0 <= i < 64 :: Hold(ShardMu(i), Read)
    case ReplaceUsers(ids) => (iset id | id in ids :: Hold(ShardMu(id % 64), Write)) + iset{Hold(SecretMu, Write)}
    case UserBySecret => iset{Hold(SecretMu, Read)}
    case Register => iset{Hold(TrackMu, Write)}
    case Unregister => iset{Hold(TrackMu, Write)}
    case Sweep(flushed) => iset{Hold(TrackMu, Write)} + iset o, h | o in flushed && h in AddNeeds(o) :: h
  }

  ghost function AddNeeds(op: Op): iset<Hold> {
    if op.Add? then iset{Hold(ShardMu(op.id % 64), Read)} + (if op.known then iset{Hold(UsageMu, Write)} else iset{}) else iset{}
  }

  lemma {:induction false} TakenAppend(p: seq<Instr>, q: seq<Instr>)
    ensures Taken(p + q) == Taken(p) + Taken(q)
  {
    if q == [] {
      assert p + q == p;
    } else {
      assert (p + q)[..|p + q| - 1] == p + q[..|q| - 1];
      TakenAppend(p, q[..|q| - 1]);
    }
  }

  lemma TakenSection(l: Lock, m: Mode)
    ensures Taken(Section(l, m)) == {Hold(l, m)}
  {
    assert Section(l, m)[..1] == [Acquire(l, m)];
    TakenOne(Acquire(l, m));
  }

  lemma TakenOne(i: Instr)
    ensures Taken([i]) == if i.Acquire? then {Hold(i.lock, i.mode)} else {}
  {
    assert [i][..0] == [];
  }

  lemma {:induction false} TakenListing(ids: seq<Int64>, h: Hold)
    ensures h in Taken(Listing(ids)) <==> exists id | id in ids :: h == Hold(ShardMu(id % 64), Write)
  {
    if ids != [] {
      var init, last := ids[..|ids| - 1], ids[|ids| - 1];
      TakenListing(init, h);
      ShardIsRemainder(last);
      TakenSection(ShardOf(last), Write);
      TakenAppend(Listing(init), Section(ShardOf(last), Write));
      assert ids == init + [last];
    }
  }

  lemma {:induction false} TakenAllShards(n: nat, h: Hold)
    ensures h in Taken(AllShards(n)) <==> exists i | 0 <= i < n :: h == Hold(ShardMu(i), Read)
  {
    if n > 0 {
      TakenAllShards(n - 1, h);
      TakenSection(ShardMu(n - 1), Read);
      TakenAppend(AllShards(n - 1), Section(ShardMu(n - 1), Read));
    }
  }

  lemma TakenAdd(id: Int64, known: bool, h: Hold)
    ensures h in Taken(AddProgram(id, known)) <==> h in AddNeeds(Add(id, known))
  {
    ShardIsRemainder(id);
    TakenSection(ShardOf(id), Read);
    TakenSection(UsageMu, Write);
    TakenAppend(Section(ShardOf(id), Read), if known then Section(UsageMu, Write) else []);
  }

  lemma {:induction false} TakenAdds(ops: seq<Op>, h: Hold)
    requires forall o | o in ops :: o.Add?
    ensures h in Taken(Adds(ops)) <==> exists o | o in ops :: h in AddNeeds(o)
  {
    if ops != [] {
      var init, last := ops[..|ops| - 1], ops[|ops| - 1];
      TakenAdds(init, h);
      TakenAdd(last.id, last.known, h);
      TakenAppend(Adds(init), AddProgram(last.id, last.known));
      assert ops == init + [last];
    }
  }

  lemma TakenSweep(flushed: seq<Op>, h: Hold)
    requires forall o | o in flushed :: o.Add?
    ensures h in Taken(Program(Sweep(flushed))) <==> h in Needs(Sweep(flushed))
  {
    TakenAdds(flushed, h);
    TakenOne(Acquire(TrackMu, Write));
    TakenOne(Unlock(TrackMu));
    TakenAppend([Acquire(TrackMu, Write)] + Adds(flushed), [Unlock(TrackMu)]);
    TakenAppend([Acquire(TrackMu, Write)], Adds(flushed));
  }

  lemma TakenOpen(id: Int64, admitted: bool, h: Hold)
    ensures h in Taken(Program(Open(id, admitted))) <==> h in Needs(Open(id, admitted))
  {
    ShardIsRemainder(id);
    TakenSection(ShardOf(id), Write);
    TakenSection(UsageMu, Write);
    TakenAppend(Section(ShardOf(id), Write), if admitted then Section(UsageMu, Write) else []);
  }

  lemma TakenSnapshot(h: Hold)
    ensures h in Taken(Program(Snapshot)) <==> h in Needs(Snapshot)
  {
    TakenAllShards(SHARD_COUNT, h);
    TakenSection(UsageMu, Read);
    TakenAppend(AllShards(SHARD_COUNT), Section(UsageMu, Read));
  }

  lemma TakenReplace(ids: seq<Int64>, h: Hold)
    ensures h in Taken(Program(ReplaceUsers(ids))) <==> h in Needs(ReplaceUsers(ids))
  {
    TakenListing(ids, h);
    TakenSection(SecretMu, Write);
    TakenAppend(Section(SecretMu, Write), Listing(ids));
  }

  /** Every call takes exactly the locks of the data it touches, for writing exactly where it writes. */
  lemma ProgramTakes(op: Op, h: Hold)
    requires IsSweepOp(op)
    ensures h in Taken(Program(op)) <==> h in Needs(op)
  {
    match op
    case Open(id, admitted) => TakenOpen(id, admitted, h);
    case Close => TakenSection(UsageMu, Write);
    case Add(id, known) => TakenAdd(id, known, h);
    case Wait(id) =>
      ShardIsRemainder(id);
      TakenSection(ShardOf(id), Read);
    case Snapshot => TakenSnapshot(h);
    case Commit => TakenSection(UsageMu, Write);
    case Metrics => TakenAllShards(SHARD_COUNT, h);
    case ReplaceUsers(ids) => TakenReplace(ids, h);
    case UserBySecret => TakenSection(SecretMu, Read);
    case Register => TakenSection(TrackMu, Write);
    case Unregister => TakenSection(TrackMu, Write);
    case Sweep(flushed) => TakenSweep(flushed, h);
  }
}
