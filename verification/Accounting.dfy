/**
 The store and its callers as concurrent steps: one step per critical section or atomic operation.
 Goroutines interleave freely; the outcome of admission, of a report and of every race is left open.
 */
module Accounting {
  import opened Wrappers

  datatype Direction = Up | Down

  datatype Bytes = Bytes(up: int, down: int) {
    function In(d: Direction): int { if d == Up then up else down }
    function Plus(b: Bytes): Bytes { Bytes(up + b.up, down + b.down) }
    function Minus(b: Bytes): Bytes { Bytes(up - b.up, down - b.down) }
    predicate NonNegative() { up >= 0 && down >= 0 }
    predicate AtMost(b: Bytes) { up <= b.up && down <= b.down }
  }

  const NONE := Bytes(0, 0)

  /** A node identifier, as configured. */
  type Node = string

  /** A user at a node. */
  datatype Key = Key(node: Node, user: int)

  datatype Use = Use(bytes: Bytes, active: int)

  type Totals = map<Key, Bytes>
  type Usage = map<Key, Use>

  function UseAt(usage: Usage, k: Key): Use {
    if k in usage then usage[k] else Use(NONE, 0)
  }

  function TotalAt(m: Totals, k: Key): Bytes {
    if k in m then m[k] else NONE
  }

  function Credit(m: Totals, k: Key, b: Bytes): Totals {
    m[k := TotalAt(m, k).Plus(b)]
  }

  function CreditAll(m: Totals, more: Totals): Totals {
    m + map k | k in more :: TotalAt(m, k).Plus(more[k])
  }

  datatype Kind = Tcp | Packet

  /**
   Where a connection stands. Opening: Admitted past the shard lock, Entered in usage, Activated
   and Totalled on the atomics; a TCP wrapper then registers, and may still have to start a flush
   loop. Closing: the closed flag won, its flush done, unregistered, released in the store.
   */
  datatype Stage = Admitted | Entered | Activated | Totalled | Starting | Live | Closing | Flushed | Unregistered | Released

  datatype Conn = Conn(key: Key, kind: Kind, stage: Stage, closed: bool, pending: Bytes, counted: Bytes)

  /** A flush loop between ticks, or holding trackMu somewhere inside a sweep. */
  datatype Loop =
    | Waiting
    | Sweeping(todo: set<nat>)
    | Loaded(conn: nat, todo: set<nat>)
    | HasUp(conn: nat, key: Key, taken: Bytes, todo: set<nat>)
    | HasBoth(conn: nat, key: Key, taken: Bytes, todo: set<nat>)
    | Checked(conn: nat, key: Key, taken: Bytes, todo: set<nat>)

  /** A node's report loop: between reports, waiting for an answer, or about to commit. */
  datatype Reporter = Idle | Sending(snap: Totals, delivered: bool) | Acked(snap: Totals)

  /** A report that came back as failed, and whether the panel applied it all the same. */
  datatype FailedReport = FailedReport(snap: Totals, applied: bool)

  datatype State = State(
    users: set<int>,
    usage: Usage,
    active: int,
    total: int,
    conns: seq<Conn>,
    trackMu: Option<nat>,
    tracked: set<nat>,
    flusherRun: bool,
    loops: seq<Loop>,
    reporters: map<Node, Reporter>,
    // what the proofs count besides
    added: Totals,
    committed: Totals,
    dropped: Totals,
    bursts: nat,
    panel: Totals,
    failed: seq<FailedReport>)

  const INITIAL := State({}, map[], 0, 0, [], None, {}, false, [], map[], map[], map[], map[], 0, map[], [])

  /** The steps of one connection: opening, transferring, closing. */
  datatype ConnAction =
    | Enter | Activate | Total | Wrap | StartLoop
    | Count(n: Bytes)
    | CloseFlag | CloseFlush | Unregister | Release

  /** The steps of one flush loop; flush itself is Load, SwapUp, SwapDown, Check and Post. */
  datatype LoopAction = Tick | Load(i: nat) | SwapUp | SwapDown | Check | Post | EndSweep

  datatype ReportAction = Snap | Deliver | Ack | Fail | Commit

  datatype Action =
    | List(user: int)
    | Admit(key: Key, kind: Kind)
    | OnConn(i: nat, conn: ConnAction)
    | OnLoop(l: nat, loop: LoopAction)
    | OnReport(node: Node, report: ReportAction)
    | DeliverLate(f: nat)

  function ReporterAt(s: State, node: Node): Reporter {
    if node in s.reporters then s.reporters[node] else Idle
  }

  /** The traffic a snapshot of a node reports, and its online entries. */
  function Traffic(usage: Usage, node: Node): Totals {
    map k | k in usage && k.node == node && (usage[k].bytes.up > 0 || usage[k].bytes.down > 0) :: usage[k].bytes
  }

  function Online(usage: Usage, node: Node): map<Key, int> {
    map k | k in usage && k.node == node && usage[k].active > 0 :: usage[k].active
  }

  function Min(a: int, b: int): int {
    if a < b then a else b
  }

  /** What a commit takes off one entry. */
  function Taken(have: Bytes, snapped: Bytes): Bytes {
    Bytes(Min(have.up, snapped.up), Min(have.down, snapped.down))
  }

  function TakenAll(usage: Usage, snap: Totals): Totals {
    map k | k in snap && k in usage :: Taken(usage[k].bytes, snap[k])
  }

  function Debited(usage: Usage, snap: Totals): Usage {
    map k | k in usage :: usage[k].(bytes := usage[k].bytes.Minus(TotalAt(TakenAll(usage, snap), k)))
  }

  /** Whether flush, called on this connection now, would return without touching its counters. */
  predicate FlushReturnsAtOnce(c: Conn) {
    c.closed
  }

  predicate InIO(c: Conn) {
    c.stage in {Live, Closing, Flushed, Unregistered, Released}
  }

  predicate ConnEnabled(s: State, i: nat, x: ConnAction) {
    i < |s.conns| &&
    var c := s.conns[i];
    match x
    case Enter => c.stage == Admitted
    case Activate => c.stage == Entered
    case Total => c.stage == Activated
    case Wrap => c.stage == Totalled && (c.kind == Tcp ==> s.trackMu == None)
    case StartLoop => c.stage == Starting
    case Count(n) => InIO(c) && n.NonNegative()
    case CloseFlag => c.stage == Live && !c.closed
    case CloseFlush => c.stage == Closing
    case Unregister => c.stage == Flushed && c.kind == Tcp && s.trackMu == None
    case Release => c.stage == (if c.kind == Tcp then Unregistered else Flushed)
  }

  /** What a step makes of its connection. */
  function NextConn(c: Conn, x: ConnAction, flusherRun: bool): Conn {
    match x
    case Enter => c.(stage := Entered)
    case Activate => c.(stage := Activated)
    case Total => c.(stage := Totalled)
    case Wrap => c.(stage := if c.kind == Packet || flusherRun then Live else Starting)
    case StartLoop => c.(stage := Live)
    case Count(n) => c.(pending := c.pending.Plus(n), counted := c.counted.Plus(n))
    case CloseFlag => c.(stage := Closing, closed := true)
    case CloseFlush => c.(stage := Flushed, pending := if FlushReturnsAtOnce(c) then c.pending else NONE)
    case Unregister => c.(stage := Unregistered)
    case Release => c.(stage := Released)
  }

  /** Bytes handed to Add for a known user. */
  function PostedTo(usage: Usage, k: Key, b: Bytes): Usage {
    usage[k := UseAt(usage, k).(bytes := UseAt(usage, k).bytes.Plus(b))]
  }

  /** Store.Close, with its guard. */
  function ReleasedFrom(usage: Usage, k: Key): Usage {
    var use := UseAt(usage, k);
    usage[k := use.(active := use.active - if use.active > 0 then 1 else 0)]
  }

  /** What a connection's step does to usage. */
  function UsageAfter(usage: Usage, c: Conn, x: ConnAction): Usage {
    match x
    case Enter => usage[c.key := UseAt(usage, c.key).(active := UseAt(usage, c.key).active + 1)]
    case CloseFlush => if FlushReturnsAtOnce(c) then usage else PostedTo(usage, c.key, c.pending)
    case Release => ReleasedFrom(usage, c.key)
    case _ => usage
  }

  function AddedAfter(added: Totals, c: Conn, x: ConnAction): Totals {
    if x.CloseFlush? && !FlushReturnsAtOnce(c) then Credit(added, c.key, c.pending) else added
  }

  /** What it adds to the atomic active counter. */
  function ActiveChange(usage: Usage, c: Conn, x: ConnAction): int {
    match x
    case Activate => 1
    case Release => if UseAt(usage, c.key).active > 0 then -1 else 0
    case _ => 0
  }

  /** Register and unregister, under trackMu. */
  function TrackedAfter(tracked: set<nat>, i: nat, c: Conn, x: ConnAction): set<nat> {
    match x
    case Wrap => if c.kind == Tcp then tracked + {i} else tracked
    case Unregister => tracked - {i}
    case _ => tracked
  }

  function FlagAfter(flag: bool, tracked: set<nat>, i: nat, c: Conn, x: ConnAction): bool {
    match x
    case Wrap => c.kind == Tcp || flag
    case Unregister => flag && tracked - {i} != {}
    case _ => flag
  }

  function LoopsAfter(loops: seq<Loop>, x: ConnAction): seq<Loop> {
    if x.StartLoop? then loops + [Waiting] else loops
  }

  /** Whether tracking begins anew: a registration that finds nothing tracked. */
  predicate Begins(tracked: set<nat>, c: Conn, x: ConnAction) {
    x.Wrap? && c.kind == Tcp && tracked == {}
  }

  /** A connection's step: the connection itself, and what it does to each part of the store. */
  function ConnStep(s: State, i: nat, x: ConnAction): State
    requires ConnEnabled(s, i, x)
  {
    var c := s.conns[i];
    s.(conns := s.conns[i := NextConn(c, x, s.flusherRun)],
       usage := UsageAfter(s.usage, c, x),
       added := AddedAfter(s.added, c, x),
       active := s.active + ActiveChange(s.usage, c, x),
       total := s.total + if x.Total? then 1 else 0,
       tracked := TrackedAfter(s.tracked, i, c, x),
       flusherRun := FlagAfter(s.flusherRun, s.tracked, i, c, x),
       loops := LoopsAfter(s.loops, x),
       bursts := s.bursts + if Begins(s.tracked, c, x) then 1 else 0)
  }

  predicate LoopEnabled(s: State, l: nat, x: LoopAction) {
    l < |s.loops| &&
    var at := s.loops[l];
    match x
    case Tick => at == Waiting && s.trackMu == None
    case Load(i) => at.Sweeping? && i in at.todo && i < |s.conns|
    case SwapUp => at.Loaded? && at.conn < |s.conns|
    case SwapDown => at.HasUp? && at.conn < |s.conns|
    case Check => at.HasBoth?
    case Post => at.Checked?
    case EndSweep => at == Sweeping({})
  }

  /** Whether flush found anything, and so calls Add. */
  predicate Nonzero(b: Bytes) {
    b.up > 0 || b.down > 0
  }

  function NextLoop(s: State, l: nat, x: LoopAction): Loop
    requires LoopEnabled(s, l, x)
  {
    var at := s.loops[l];
    match x
    case Tick => Sweeping(s.tracked)
    case Load(i) => if FlushReturnsAtOnce(s.conns[i]) then Sweeping(at.todo - {i}) else Loaded(i, at.todo - {i})
    case SwapUp => HasUp(at.conn, s.conns[at.conn].key, Bytes(s.conns[at.conn].pending.up, 0), at.todo)
    case SwapDown => HasBoth(at.conn, at.key, at.taken.(down := s.conns[at.conn].pending.down), at.todo)
    case Check => if Nonzero(at.taken) && at.key.user in s.users then Checked(at.conn, at.key, at.taken, at.todo) else Sweeping(at.todo)
    case Post => Sweeping(at.todo)
    case EndSweep => Waiting
  }

  /** A swap takes one direction's bytes out of the counters of the connection at hand. */
  function ConnsSwapped(conns: seq<Conn>, at: Loop, x: LoopAction): seq<Conn> {
    match x
    case SwapUp => if at.Loaded? && at.conn < |conns| then conns[at.conn := conns[at.conn].(pending := conns[at.conn].pending.(up := 0))] else conns
    case SwapDown => if at.HasUp? && at.conn < |conns| then conns[at.conn := conns[at.conn].(pending := conns[at.conn].pending.(down := 0))] else conns
    case _ => conns
  }

  function DroppedAfter(dropped: Totals, users: set<int>, at: Loop, x: LoopAction): Totals {
    if x.Check? && at.HasBoth? && Nonzero(at.taken) && at.key.user !in users then Credit(dropped, at.key, at.taken) else dropped
  }

  function HolderAfter(holder: Option<nat>, l: nat, x: LoopAction): Option<nat> {
    match x
    case Tick => Some(l)
    case EndSweep => None
    case _ => holder
  }

  function LoopStep(s: State, l: nat, x: LoopAction): State
    requires LoopEnabled(s, l, x)
  {
    var at := s.loops[l];
    s.(loops := s.loops[l := NextLoop(s, l, x)],
       trackMu := HolderAfter(s.trackMu, l, x),
       conns := ConnsSwapped(s.conns, at, x),
       dropped := DroppedAfter(s.dropped, s.users, at, x),
       usage := if x.Post? then PostedTo(s.usage, at.key, at.taken) else s.usage,
       added := if x.Post? then Credit(s.added, at.key, at.taken) else s.added)
  }

  predicate ReportEnabled(s: State, node: Node, x: ReportAction) {
    var at := ReporterAt(s, node);
    match x
    case Snap => at == Idle
    case Deliver => at.Sending? && !at.delivered
    case Ack => at.Sending? && at.delivered
    case Fail => at.Sending?
    case Commit => at.Acked?
  }

  function NextReporter(at: Reporter, usage: Usage, node: Node, x: ReportAction): Reporter {
    match x
    case Snap => Sending(Traffic(usage, node), false)
    case Deliver => if at.Sending? then Sending(at.snap, true) else at
    case Ack => if at.Sending? then Acked(at.snap) else at
    case Fail => Idle
    case Commit => Idle
  }

  /** doReport of one node; a report may be applied by the panel and still be seen as failed. */
  function ReportStep(s: State, node: Node, x: ReportAction): State
    requires ReportEnabled(s, node, x)
  {
    var at := ReporterAt(s, node);
    s.(reporters := s.reporters[node := NextReporter(at, s.usage, node, x)],
       panel := if x.Deliver? then CreditAll(s.panel, at.snap) else s.panel,
       failed := if x.Fail? then s.failed + [FailedReport(at.snap, at.delivered)] else s.failed,
       usage := if x.Commit? then Debited(s.usage, at.snap) else s.usage,
       committed := if x.Commit? then CreditAll(s.committed, TakenAll(s.usage, at.snap)) else s.committed)
  }

  predicate Enabled(s: State, a: Action) {
    match a
    case List(_) => true
    case Admit(k, _) => k.user in s.users
    case OnConn(i, x) => ConnEnabled(s, i, x)
    case OnLoop(l, x) => LoopEnabled(s, l, x)
    case OnReport(node, x) => ReportEnabled(s, node, x)
    case DeliverLate(f) => f < |s.failed| && !s.failed[f].applied
  }

  function Fresh(k: Key, kind: Kind): Conn {
    Conn(k, kind, Admitted, false, NONE, NONE)
  }

  function Step(s: State, a: Action): State
    requires Enabled(s, a)
  {
    match a
    case List(user) => s.(users := s.users + {user})
    case Admit(k, kind) => s.(conns := s.conns + [Fresh(k, kind)])
    case OnConn(i, x) => ConnStep(s, i, x)
    case OnLoop(l, x) => LoopStep(s, l, x)
    case OnReport(node, x) => ReportStep(s, node, x)
    case DeliverLate(f) =>
      s.(failed := s.failed[f := s.failed[f].(applied := true)], panel := CreditAll(s.panel, s.failed[f].snap))
  }

  /** The state a run of actions leads to; None if some action was not enabled when it came up. */
  function RunFrom(s: State, actions: seq<Action>): Option<State> {
    if actions == [] then Some(s)
    else
      var a := actions[|actions| - 1];
      match RunFrom(s, actions[..|actions| - 1])
      case None => None
      case Some(t) => if Enabled(t, a) then Some(Step(t, a)) else None
  }

  function Run(actions: seq<Action>): Option<State> {
    RunFrom(INITIAL, actions)
  }
}
