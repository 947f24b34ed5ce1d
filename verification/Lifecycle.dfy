/** Every instance a node ever makes is closed exactly once, and few are up at the same time. */
module Lifecycle {
  import opened Wrappers
  import opened Panel
  import opened Node

  /**
   What a log of events leaves: the instances built and not closed, those started and not closed, how many
   were built, the most that were up at a time, and whether every event was in order: instances numbered as
   built, started once while unclosed, and closed only while unclosed.
   */
  datatype Lives = Lives(unclosed: set<nat>, up: set<nat>, built: nat, peak: nat, tidy: bool)

  const NOBODY := Lives({}, {}, 0, 0, true)

  function Max(a: nat, b: nat): nat {
    if a < b then b else a
  }

  function Next(l: Lives, e: LifeEvent): Lives {
    match e
    case Built(i) => Lives(l.unclosed + {i.id}, l.up, l.built + 1, Max(l.peak, |l.up|), l.tidy && i.id == l.built)
    case Started(i) =>
      Lives(l.unclosed, l.up + {i.id}, l.built, Max(l.peak, |l.up + {i.id}|), l.tidy && i.id in l.unclosed && i.id !in l.up)
    case StartFailed(id) =>
      Lives(l.unclosed, l.up, l.built, Max(l.peak, |l.up|), l.tidy && id in l.unclosed && id !in l.up)
    case Closed(id) =>
      Lives(l.unclosed - {id}, l.up - {id}, l.built, Max(l.peak, |l.up - {id}|), l.tidy && id in l.unclosed)
  }

  function Fold(l: Lives, events: Log): Lives {
    if events == [] then l else Next(Fold(l, events[..|events| - 1]), events[|events| - 1])
  }

  function After(log: Log): Lives {
    Fold(NOBODY, log)
  }

  /** The most instances up at a time while some events happen. */
  function PeakDuring(l: Lives, events: Log): nat {
    Fold(l.(peak := 0), events).peak
  }

  /** How often an instance was closed. */
  function CloseCount(log: Log, id: nat): nat {
    if log == [] then 0 else CloseCount(log[..|log| - 1], id) + if log[|log| - 1] == Closed(id) then 1 else 0
  }

  /** The only event that closes an instance. */
  ghost predicate ClosedAt(log: Log, i: nat, id: nat) {
    i < |log| && log[i] == Closed(id) && forall j | 0 <= j < |log| && j != i :: log[j] != Closed(id)
  }

  /** The count is one exactly if one event closes the instance, and zero exactly if none does. */
  lemma {:induction false} CloseCountIs(log: Log, id: nat)
    ensures CloseCount(log, id) == 0 <==> Closed(id) !in log
    ensures CloseCount(log, id) == 1 <==> exists i: nat :: ClosedAt(log, i, id)
  {
    if log != [] {
      var init, n := log[..|log| - 1], |log| - 1;
      CloseCountIs(init, id);
      assert log == init + [log[n]] && forall j | 0 <= j < n :: init[j] == log[j];
      if CloseCount(log, id) == 1 {
        if log[n] == Closed(id) {
          assert ClosedAt(log, n, id);
        } else {
          var i: nat :| ClosedAt(init, i, id);
          assert ClosedAt(log, i, id);
        }
      }
      if i: nat :| ClosedAt(log, i, id) {
        if i < n {
          assert ClosedAt(init, i, id);
        }
      }
    }
  }

  /** In a tidy log an instance is closed once if it was built and is not unclosed, and never otherwise. */
  lemma {:induction false} ClosedOnceIff(log: Log, id: nat)
    requires After(log).tidy
    ensures CloseCount(log, id) == if id < After(log).built && id !in After(log).unclosed then 1 else 0
    ensures id in After(log).unclosed ==> id < After(log).built
  {
    if log != [] {
      ClosedOnceIff(log[..|log| - 1], id);
    }
  }

  lemma {:induction false} FoldAppend(l: Lives, a: Log, b: Log)
    ensures Fold(l, a + b) == Fold(Fold(l, a), b)
  {
    if b == [] {
      assert a + b == a;
    } else {
      assert (a + b)[..|a + b| - 1] == a + b[..|b| - 1];
      FoldAppend(l, a, b[..|b| - 1]);
    }
  }

  lemma NextPeak(l: Lives, p: nat, e: LifeEvent)
    ensures Next(l.(peak := Max(p, l.peak)), e) == Next(l, e).(peak := Max(p, Next(l, e).peak))
  {
  }

  /** The peak so far only matters for the peak. */
  lemma {:induction false} FoldPeak(l: Lives, p: nat, events: Log)
    ensures Fold(l.(peak := p), events) == Fold(l.(peak := 0), events).(peak := Max(p, Fold(l.(peak := 0), events).peak))
  {
    if events != [] {
      var init := events[..|events| - 1];
      FoldPeak(l, p, init);
      NextPeak(Fold(l.(peak := 0), init), p, events[|events| - 1]);
    }
  }

  lemma FoldTwo(l: Lives, a: LifeEvent, b: LifeEvent)
    ensures Fold(l, [a, b]) == Next(Next(l, a), b)
  {
    assert [a][..0] == [];
    assert Fold(l, [a]) == Next(l, a);
    assert [a, b][..1] == [a];
  }

  lemma FoldThree(l: Lives, a: LifeEvent, b: LifeEvent, c: LifeEvent)
    ensures Fold(l, [a, b, c]) == Next(Next(Next(l, a), b), c)
  {
    FoldTwo(l, a, b);
    assert [a, b, c][..2] == [a, b];
  }

  lemma FoldFour(l: Lives, a: LifeEvent, b: LifeEvent, c: LifeEvent, d: LifeEvent)
    ensures Fold(l, [a, b, c, d]) == Next(Next(Next(Next(l, a), b), c), d)
  {
    FoldThree(l, a, b, c);
    assert [a, b, c, d][..3] == [a, b, c];
  }

  /** An instance was built, or started, by some event and closed by none after it. */
  ghost predicate LeftOpen(log: Log, id: nat) {
    exists i :: 0 <= i < |log| && log[i].Built? && log[i].instance.id == id && forall j | i < j < |log| :: log[j] != Closed(id)
  }

  ghost predicate LeftUp(log: Log, id: nat) {
    exists i :: 0 <= i < |log| && log[i].Started? && log[i].instance.id == id && forall j | i < j < |log| :: log[j] != Closed(id)
  }

  /** The two sets hold exactly the instances built, or started, and not closed since. */
  lemma {:induction false} LivesAre(log: Log, id: nat)
    ensures id in After(log).unclosed <==> LeftOpen(log, id)
    ensures id in After(log).up <==> LeftUp(log, id)
  {
    if log != [] {
      var init, n := log[..|log| - 1], |log| - 1;
      LivesAre(init, id);
      OpenSnoc(init, log[n], id);
      UpSnoc(init, log[n], id);
      assert log == init + [log[n]];
    }
  }

  lemma OpenSnoc(log: Log, e: LifeEvent, id: nat)
    ensures LeftOpen(log + [e], id) <==> e != Closed(id) && ((e.Built? && e.instance.id == id) || LeftOpen(log, id))
  {
    var longer := log + [e];
    assert longer[|log|] == e && forall i | 0 <= i < |log| :: longer[i] == log[i];
  }

  lemma UpSnoc(log: Log, e: LifeEvent, id: nat)
    ensures LeftUp(log + [e], id) <==> e != Closed(id) && ((e.Started? && e.instance.id == id) || LeftUp(log, id))
  {
    var longer := log + [e];
    assert longer[|log|] == e && forall i | 0 <= i < |log| :: longer[i] == log[i];
  }

  lemma PeakSnoc(l: Lives, init: Log, e: LifeEvent)
    ensures PeakDuring(l, init + [e]) == Max(PeakDuring(l, init), |Fold(l, init + [e]).up|)
  {
    assert (init + [e])[..|init|] == init;
    PeakForgets(l, init + [e]);
  }

  ghost predicate NeverMore(l: Lives, events: Log, n: nat) {
    forall j | 0 < j <= |events| :: |Fold(l, events[..j]).up| <= n
  }

  lemma NeverMoreSnoc(l: Lives, init: Log, e: LifeEvent, n: nat)
    ensures NeverMore(l, init + [e], n) <==> NeverMore(l, init, n) && |Fold(l, init + [e]).up| <= n
  {
    var longer := init + [e];
    assert longer[..|longer|] == longer && forall j | 0 < j <= |init| :: longer[..j] == init[..j];
  }

  /** The peak is a bound on the instances up after each event. */
  lemma {:induction false} PeakIs(l: Lives, events: Log, n: nat)
    ensures PeakDuring(l, events) <= n <==> NeverMore(l, events, n)
  {
    if events != [] {
      var init, e := events[..|events| - 1], events[|events| - 1];
      PeakIs(l, init, n);
      assert events == init + [e];
      PeakSnoc(l, init, e);
      NeverMoreSnoc(l, init, e, n);
    }
  }

  lemma PeakForgets(l: Lives, events: Log)
    ensures Fold(l.(peak := 0), events).up == Fold(l, events).up
  {
    FoldPeak(l, l.peak, events);
    assert l.(peak := l.peak) == l;
  }

  function Current(r: Option<Runtime>): set<nat> {
    if r.Some? then {r.value.instance.id} else {}
  }

  /** Exactly the current instance is unclosed, and it is up. */
  predicate Kept(l: Lives, current: set<nat>) {
    l.tidy && l.unclosed == current && l.up == current && forall id | id in current :: id < l.built
  }

  /** Between applies the unclosed instances are exactly the current one, and it is up. */
  predicate Housekept(s: State) {
    Kept(After(s.log), Current(s.runtime)) && s.made == After(s.log).built
  }

  /** A rebuild with nothing running. */
  lemma FirstBuild(l: Lives, next: Instance, starts: bool)
    requires Kept(l, {}) && next.id == l.built && l.peak == 0
    ensures var t := Fold(l, RebuildEvents(None, next, starts));
            Kept(t, if starts then {next.id} else {}) && t.built == l.built + 1 && t.peak <= 1
  {
    if starts {
      assert RebuildEvents(None, next, true) == [Built(next), Started(next)];
      FoldTwo(l, Built(next), Started(next));
    } else {
      assert RebuildEvents(None, next, false) == [Built(next), StartFailed(next.id), Closed(next.id)];
      FoldThree(l, Built(next), StartFailed(next.id), Closed(next.id));
    }
  }

  /** A rebuild closes the running instance before it starts the next. */
  lemma Replacement(l: Lives, r: Runtime, next: Instance, starts: bool)
    requires Kept(l, {r.instance.id}) && next.id == l.built && l.peak == 0
    ensures var t := Fold(l, RebuildEvents(Some(r), next, starts));
            Kept(t, if starts then {next.id} else {}) && t.built == l.built + 1 && t.peak <= 1
  {
    var prior := r.instance.id;
    assert {prior} + {next.id} - {prior} == {next.id} && {prior} - {prior} == {} && {} + {next.id} == {next.id};
    if starts {
      assert RebuildEvents(Some(r), next, true) == [Built(next), Closed(prior), Started(next)];
      FoldThree(l, Built(next), Closed(prior), Started(next));
    } else {
      assert RebuildEvents(Some(r), next, false) == [Built(next), Closed(prior), StartFailed(next.id), Closed(next.id)];
      FoldFour(l, Built(next), Closed(prior), StartFailed(next.id), Closed(next.id));
    }
  }

  /** A reload that starts has the next instance up before it closes the old one. */
  lemma Swap(l: Lives, r: Runtime, next: Instance)
    requires Kept(l, {r.instance.id}) && next.id == l.built && l.peak == 0
    ensures var t := Fold(l, ReloadEvents(r, next, true));
            Kept(t, {next.id}) && t.built == l.built + 1 && t.peak == 2
  {
    var prior := r.instance.id;
    assert {prior} + {next.id} == {prior, next.id} && {prior, next.id} - {prior} == {next.id};
    assert ReloadEvents(r, next, true) == [Built(next), Started(next), Closed(prior)];
    FoldThree(l, Built(next), Started(next), Closed(prior));
  }

  /** A reload that does not start leaves the old one as it was. */
  lemma FailedReload(l: Lives, r: Runtime, next: Instance)
    requires Kept(l, {r.instance.id}) && next.id == l.built && l.peak == 0
    ensures var t := Fold(l, ReloadEvents(r, next, false));
            Kept(t, {r.instance.id}) && t.built == l.built + 1 && t.peak == 1
  {
    var prior := r.instance.id;
    assert {prior} + {next.id} - {next.id} == {prior} && {prior} - {next.id} == {prior};
    assert ReloadEvents(r, next, false) == [Built(next), StartFailed(next.id), Closed(next.id)];
    FoldThree(l, Built(next), StartFailed(next.id), Closed(next.id));
  }

  /** What some events appended to a log did, and how many instances they had up. */
  lemma Appended(log: Log, events: Log)
    ensures var t := Fold(After(log).(peak := 0), events);
            After(log + events) == t.(peak := Max(After(log).peak, t.peak))
  {
    FoldAppend(NOBODY, log, events);
    FoldPeak(After(log), After(log).peak, events);
    assert After(log).(peak := After(log).peak) == After(log);
  }

  /** The events between two states. */
  predicate Grows(s: State, t: State, events: Log) {
    t.log == s.log + events
  }

  lemma RebuildHousekeeps(s: State, o: Outcomes) returns (events: Log)
    requires Housekept(s) && s.currentCfg.Some?
    ensures Housekept(Rebuild(s, o).0) && Grows(s, Rebuild(s, o).0, events) && PeakDuring(After(s.log), events) <= 1
  {
    events := [];
    if o.builds {
      var next := Instance(s.made, s.currentCfg.value, s.currentUsr);
      events := RebuildEvents(s.runtime, next, o.starts);
      Appended(s.log, events);
      if s.runtime.Some? {
        Replacement(After(s.log).(peak := 0), s.runtime.value, next, o.starts);
      } else {
        FirstBuild(After(s.log).(peak := 0), next, o.starts);
      }
    } else {
      assert s.log + events == s.log;
    }
  }

  lemma ReloadHousekeeps(s: State, o: Outcomes) returns (events: Log)
    requires Housekept(s) && s.runtime.Some?
    ensures Housekept(Reload(s, o).0) && Grows(s, Reload(s, o).0, events)
    ensures PeakDuring(After(s.log), events) <= if Reload(s, o).1 then 2 else 1
  {
    events := [];
    if o.reloadBuilds {
      var next := Instance(s.made, s.runtime.value.cfg, s.currentUsr);
      events := ReloadEvents(s.runtime.value, next, o.reloadStarts);
      Appended(s.log, events);
      if o.reloadStarts {
        Swap(After(s.log).(peak := 0), s.runtime.value, next);
      } else {
        FailedReload(After(s.log).(peak := 0), s.runtime.value, next);
      }
    } else {
      assert s.log + events == s.log;
    }
  }

  /** The peak of two stretches of events is that of the higher. */
  lemma PeakJoins(log: Log, a: Log, b: Log)
    ensures PeakDuring(After(log), a + b) == Max(PeakDuring(After(log), a), PeakDuring(After(log + a), b))
  {
    var l := After(log).(peak := 0);
    FoldAppend(l, a, b);
    Appended(log, a);
    FoldPeak(Fold(l, a), Fold(l, a).peak, b);
    assert Fold(l, a).(peak := Fold(l, a).peak) == Fold(l, a);
    assert After(log + a).(peak := 0) == Fold(l, a).(peak := 0);
  }

  lemma Joined(log: Log, mid: Log, end: Log, a: Log, b: Log)
    requires mid == log + a && end == mid + b
    requires PeakDuring(After(log), a) <= 1 && PeakDuring(After(mid), b) <= 1
    ensures end == log + (a + b) && PeakDuring(After(log), a + b) <= 1
  {
    PeakJoins(log, a, b);
  }

  /** A failed reload, and the rebuild it falls back to. */
  lemma FallBack(s: State, o: Outcomes) returns (events: Log)
    requires Housekept(s) && s.runtime.Some? && s.currentCfg.Some? && !Reload(s, o).1
    ensures var t := Rebuild(Reload(s, o).0, o).0;
            Housekept(t) && Grows(s, t, events) && PeakDuring(After(s.log), events) <= 1
  {
    var first := ReloadHousekeeps(s, o);
    var s2 := Reload(s, o).0;
    var second := RebuildHousekeeps(s2, o);
    events := first + second;
    Joined(s.log, s2.log, Rebuild(s2, o).0.log, first, second);
  }

  lemma AnnouncedHousekept(s: State)
    requires Housekept(s) && s.currentCfg.Some?
    ensures Housekept(Announce(s)) && Announce(s).log == s.log && (HotPath(Announce(s)) <==> HotPath(s))
  {
  }

  /** An apply never has more than one instance up if it rebuilds, and never more than two if it reloads. */
  lemma ApplyHousekeeps(s: State, o: Outcomes) returns (events: Log)
    requires Housekept(s)
    ensures Housekept(Apply(s, o).0) && Grows(s, Apply(s, o).0, events)
    ensures PeakDuring(After(s.log), events) <= 2
    ensures !(HotPath(s) && o.reloadBuilds && o.reloadStarts) ==> PeakDuring(After(s.log), events) <= 1
  {
    if s.currentCfg.Some? && s.usersReady {
      var s1 := Announce(s);
      AnnouncedHousekept(s);
      if HotPath(s1) && Reload(s1, o).1 {
        events := ReloadHousekeeps(s1, o);
      } else if HotPath(s1) {
        events := FallBack(s1, o);
      } else {
        events := RebuildHousekeeps(s1, o);
      }
    } else {
      events := [];
      assert s.log + events == s.log;
    }
  }

  lemma RefreshHousekeeps(s: State, round: Round)
    requires Housekept(s)
    ensures Housekept(Refresh(s, round).0)
  {
    match TakeConfig(s, round.config)
    case None =>
    case Some(s1) =>
      match TakeUsers(s1, round.users)
      case None =>
      case Some(s2) =>
        if Changed(round) {
          var events := ApplyHousekeeps(s2, round.outcomes);
        }
  }

  /** In every run, between refreshes, the current instance is the only one not closed. */
  lemma {:induction false} RunHousekeeps(rounds: seq<Round>)
    ensures Housekept(Rounds(rounds))
  {
    if rounds != [] {
      RunHousekeeps(rounds[..|rounds| - 1]);
      RefreshHousekeeps(Rounds(rounds[..|rounds| - 1]), rounds[|rounds| - 1]);
    }
  }

  /** The log once the deferred close of runNode has run. */
  function Shutdown(s: State): Log {
    if s.runtime.Some? then s.log + [Closed(s.runtime.value.instance.id)] else s.log
  }

  /** When a worker returns, every instance it ever built has been closed exactly once. */
  lemma EveryInstanceClosedOnce(s: State, id: nat)
    requires Housekept(s)
    ensures CloseCount(Shutdown(s), id) == if id < s.made then 1 else 0
    ensures if id < s.made then exists i: nat :: ClosedAt(Shutdown(s), i, id) else Closed(id) !in Shutdown(s)
  {
    CloseCountIs(Shutdown(s), id);
    if s.runtime.Some? {
      var last := Closed(s.runtime.value.instance.id);
      assert (s.log + [last])[..|s.log|] == s.log;
      assert After(s.log + [last]) == Next(After(s.log), last);
    }
    ClosedOnceIff(Shutdown(s), id);
  }
}
