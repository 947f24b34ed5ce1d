/** No byte is lost, invented or added twice, whatever the interleaving. */
module Conservation {
  import opened Wrappers
  import opened Sums
  import opened Accounting
  import opened Tracking

  ghost function CountedBy(k: Key, d: Direction): Conn -> int {
    (c: Conn) => if c.key == k then c.counted.In(d) else 0
  }

  ghost function PendingIn(k: Key, d: Direction): Conn -> int {
    (c: Conn) => if c.key == k then c.pending.In(d) else 0
  }

  ghost function HeldBy(k: Key, d: Direction): Loop -> int {
    (at: Loop) =>
      match at
      case HasUp(_, key, taken, _) => if key == k then taken.In(d) else 0
      case HasBoth(_, key, taken, _) => if key == k then taken.In(d) else 0
      case Checked(_, key, taken, _) => if key == k then taken.In(d) else 0
      case _ => 0
  }

  /** Everything the wrappers of a user at a node ever counted. */
  ghost function Counted(s: State, k: Key, d: Direction): int {
    Sum(s.conns, CountedBy(k, d))
  }

  /** What still sits in the counters of wrappers, closed ones included. */
  ghost function Pending(s: State, k: Key, d: Direction): int {
    Sum(s.conns, PendingIn(k, d))
  }

  /** What flush loops have swapped out and not yet added. */
  ghost function InHands(s: State, k: Key, d: Direction): int {
    Sum(s.loops, HeldBy(k, d))
  }

  /** Bytes counted are pending, in a flusher's hands, in usage, or committed. */
  ghost predicate Conserved(s: State, k: Key, d: Direction) {
    Counted(s, k, d) == Pending(s, k, d) + InHands(s, k, d) + UseAt(s.usage, k).bytes.In(d) + TotalAt(s.committed, k).In(d)
  }

  lemma ConnSums(conns: seq<Conn>, i: nat, c: Conn, k: Key, d: Direction)
    requires i < |conns| && c.key == conns[i].key
    ensures Sum(conns[i := c], CountedBy(k, d)) - Sum(conns[i := c], PendingIn(k, d))
            == Sum(conns, CountedBy(k, d)) - Sum(conns, PendingIn(k, d))
               + if c.key == k then c.counted.In(d) - c.pending.In(d) - (conns[i].counted.In(d) - conns[i].pending.In(d)) else 0
  {
    SumUpdate(conns, i, c, CountedBy(k, d));
    SumUpdate(conns, i, c, PendingIn(k, d));
  }

  /** Counting adds the same to both sides of one connection's account. */
  lemma NextConnBalances(c: Conn, x: ConnAction, flusherRun: bool)
    requires x.CloseFlush? ==> c.closed
    ensures NextConn(c, x, flusherRun).key == c.key
    ensures NextConn(c, x, flusherRun).counted.Minus(NextConn(c, x, flusherRun).pending) == c.counted.Minus(c.pending)
  {
  }

  lemma ConnStepFrame(s: State, i: nat, x: ConnAction)
    requires ConnEnabled(s, i, x)
    ensures ConnStep(s, i, x).committed == s.committed
    ensures ConnStep(s, i, x).loops == if x.StartLoop? then s.loops + [Waiting] else s.loops
  {
    match x
    case Enter => case Activate => case Total => case Wrap => case StartLoop =>
    case Count(_) => case CloseFlag => case CloseFlush => case Unregister => case Release =>
  }

  lemma ConnStepConserves(s: State, i: nat, x: ConnAction, k: Key, d: Direction)
    requires ConnEnabled(s, i, x) && Conserved(s, k, d)
    requires x.CloseFlush? ==> s.conns[i].closed
    ensures Conserved(ConnStep(s, i, x), k, d)
  {
    var c := NextConn(s.conns[i], x, s.flusherRun);
    NextConnBalances(s.conns[i], x, s.flusherRun);
    ConnStepConns(s, i, x);
    ConnStepBytes(s, i, x, k);
    ConnStepFrame(s, i, x);
    assert c.counted.Minus(c.pending).In(d) == s.conns[i].counted.Minus(s.conns[i].pending).In(d);
    ConnSums(s.conns, i, c, k, d);
    SumAppend(s.loops, Waiting, HeldBy(k, d));
  }

  /** A swap moves bytes from one connection's counters into one pair of hands; a post moves them into usage. */
  lemma LoopStepConserves(s: State, l: nat, x: LoopAction, k: Key, d: Direction)
    requires LoopEnabled(s, l, x) && LoopLocal(s, l, x) && Conserved(s, k, d)
    ensures Conserved(LoopStep(s, l, x), k, d)
  {
    var t := LoopStep(s, l, x);
    SumUpdate(s.loops, l, t.loops[l], HeldBy(k, d));
    if x.SwapUp? || x.SwapDown? {
      ConnSums(s.conns, s.loops[l].conn, t.conns[s.loops[l].conn], k, d);
    }
  }

  /** A commit moves what it takes, truncated or not, from usage to the committed totals. */
  lemma ReportStepConserves(s: State, node: Node, x: ReportAction, k: Key, d: Direction)
    requires ReportEnabled(s, node, x) && Conserved(s, k, d)
    ensures Conserved(ReportStep(s, node, x), k, d)
  {
  }

  lemma StepConserves(s: State, a: Action, k: Key, d: Direction)
    requires Structure(s) && Enabled(s, a) && Conserved(s, k, d)
    ensures Conserved(Step(s, a), k, d)
  {
    match a
    case List(_) =>
    case Admit(key, kind) =>
      SumAppend(s.conns, Fresh(key, kind), CountedBy(k, d));
      SumAppend(s.conns, Fresh(key, kind), PendingIn(k, d));
    case OnConn(i, x) =>
      assert ConnOk(s.conns[i], s.users);
      ConnStepConserves(s, i, x, k, d);
    case OnLoop(l, x) =>
      StructureIsLoopLocal(s, l, x);
      LoopStepConserves(s, l, x, k, d);
    case OnReport(node, x) => ReportStepConserves(s, node, x, k, d);
    case DeliverLate(_) =>
  }
}
