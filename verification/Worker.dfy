/** runNode as the source runs it: captured variables updated step by step by apply and refresh. */
module Worker {
  import opened Wrappers
  import opened Panel
  import opened Poller
  import opened Node
  import opened Sync
  import opened Lifecycle

  /** What the select loop is woken by; the end of the sequence is the context being cancelled. */
  datatype Tick = Pull(round: Round) | ReportTick

  function ReportTicks(ticks: seq<Tick>): nat {
    if ticks == [] then 0 else ReportTicks(ticks[..|ticks| - 1]) + if ticks[|ticks| - 1].ReportTick? then 1 else 0
  }

  /** How a worker ends: cancelled while still retrying, on a nil config, or stopped in its loop. */
  datatype Ending = GaveUp | NilConfig | Stopped

  /** The rounds among the ticks. */
  function Pulls(ticks: seq<Tick>): seq<Round> {
    if ticks == [] then []
    else
      var last := ticks[|ticks| - 1];
      Pulls(ticks[..|ticks| - 1]) + if last.Pull? then [last.round] else []
  }

  lemma TickExtends(done: seq<Round>, ticks: seq<Tick>, i: nat)
    requires i < |ticks|
    ensures ReportTicks(ticks[..i + 1]) == ReportTicks(ticks[..i]) + if ticks[i].ReportTick? then 1 else 0
    ensures Rounds(done + Pulls(ticks[..i + 1]))
            == if ticks[i].Pull? then Refresh(Rounds(done + Pulls(ticks[..i])), ticks[i].round).0 else Rounds(done + Pulls(ticks[..i]))
  {
    assert ticks[..i + 1][..i] == ticks[..i];
    var before := done + Pulls(ticks[..i]);
    if ticks[i].Pull? {
      assert done + Pulls(ticks[..i + 1]) == before + [ticks[i].round];
      assert (before + [ticks[i].round])[..|before|] == before;
    } else {
      assert done + Pulls(ticks[..i + 1]) == before;
    }
  }

  class NodeWorker {
    var configETag: string
    var usersETag: string
    var currentCfg: Option<NodeConfig>
    var currentUsr: seq<User>
    var usersReady: bool
    var runtime: Option<Runtime>
    var nodeType: string
    var configDirty: bool
    var usersDirty: bool
    var listed: Option<seq<User>>
    var made: nat
    var log: Log
    // the runtime there was at each report
    var reports: seq<Option<Runtime>>

    constructor ()
      ensures Value() == Node.INITIAL && reports == []
    {
      reports := [];
      configETag, usersETag, currentCfg, currentUsr, usersReady := "", "", None, [], false;
      runtime, nodeType, configDirty, usersDirty, listed, made, log := None, "", false, false, None, 0, [];
    }

    function Value(): State
      reads this
    {
      State(configETag, usersETag, currentCfg, currentUsr, usersReady, runtime, nodeType, configDirty, usersDirty, listed, made, log)
    }

    /** Runtime.ReloadUsers. */
    method ReloadUsers(o: Outcomes) returns (ok: bool)
      requires runtime.Some?
      modifies this`runtime, this`made, this`log
      ensures (Value(), ok) == Reload(old(Value()), o)
    {
      if !o.reloadBuilds {
        return false;
      }
      var next := Instance(made, runtime.value.cfg, currentUsr);
      made := made + 1;
      log := log + [Built(next)];
      if !o.reloadStarts {
        log := log + [StartFailed(next.id)];
        log := log + [Closed(next.id)];
        assert log == old(log) + ReloadEvents(runtime.value, next, false);
        return false;
      }
      log := log + [Started(next)];
      var previous := runtime.value.instance;
      runtime := Some(runtime.value.(instance := next));
      log := log + [Closed(previous.id)];
      assert log == old(log) + ReloadEvents(old(runtime).value, next, true);
      return true;
    }

    /** The second half of apply. */
    method FullRebuild(o: Outcomes) returns (ok: bool)
      requires currentCfg.Some?
      modifies this`runtime, this`configDirty, this`usersDirty, this`made, this`log
      ensures (Value(), ok) == Rebuild(old(Value()), o)
    {
      if !o.builds {
        return false;
      }
      var next := Instance(made, currentCfg.value, currentUsr);
      made := made + 1;
      log := log + [Built(next)];
      if runtime.Some? {
        log := log + [Closed(runtime.value.instance.id)];
        runtime := None;
      }
      assert log == old(log) + ([Built(next)] + ClosingOld(old(runtime)));
      if !o.starts {
        log := log + [StartFailed(next.id)];
        log := log + [Closed(next.id)];
        assert log == old(log) + RebuildEvents(old(runtime), next, false);
        return false;
      }
      log := log + [Started(next)];
      assert log == old(log) + RebuildEvents(old(runtime), next, true);
      runtime := Some(Runtime(KindOf(currentCfg.value), currentCfg.value, next));
      configDirty := false;
      usersDirty := false;
      return true;
    }

    method DoApply(o: Outcomes) returns (ok: bool)
      modifies this`runtime, this`nodeType, this`listed, this`configDirty, this`usersDirty, this`made, this`log
      ensures (Value(), ok) == Apply(old(Value()), o)
    {
      if currentCfg.None? || !usersReady {
        return true;
      }
      nodeType := NodeType(currentCfg.value);
      listed := Some(currentUsr);
      if usersDirty && !configDirty && runtime.Some? {
        if runtime.value.kind == SingBox {
          var reloaded := ReloadUsers(o);
          if reloaded {
            usersDirty := false;
            return true;
          }
        }
      }
      ok := FullRebuild(o);
    }

    /** The first half of refresh: fetch the config and store what came. */
    method PullConfig(resp: Response<NodeConfig>) returns (ok: bool, changed: bool)
      modifies this`configETag, this`currentCfg, this`configDirty
      ensures ok == TakeConfig(old(Value()), resp).Some? && changed == (ok && resp.Document?)
      ensures Value() == if ok then TakeConfig(old(Value()), resp).value else old(Value())
    {
      var config := Get(configETag, resp);
      if config.failed {
        return false, false;
      }
      configETag := config.tag;
      if config.body.Some? {
        currentCfg, configDirty := config.body, true;
      }
      return true, config.body.Some?;
    }

    /** The second half: the users. */
    method PullUsers(resp: Response<seq<User>>) returns (ok: bool, changed: bool)
      modifies this`usersETag, this`currentUsr, this`usersReady, this`usersDirty
      ensures ok == TakeUsers(old(Value()), resp).Some? && changed == (ok && resp.Document?)
      ensures Value() == if ok then TakeUsers(old(Value()), resp).value else old(Value())
    {
      var users := Get(usersETag, resp);
      if users.failed {
        return false, false;
      }
      usersETag := users.tag;
      if users.body.Some? {
        currentUsr, usersReady, usersDirty := users.body.value, true, true;
      }
      return true, users.body.Some?;
    }

    method DoRefresh(round: Round) returns (ok: bool)
      modifies this
      ensures reports == old(reports)
      ensures (Value(), ok) == Refresh(old(Value()), round)
    {
      var newConfig, newUsers;
      ok, newConfig := PullConfig(round.config);
      if !ok {
        return;
      }
      ok, newUsers := PullUsers(round.users);
      if !ok {
        return;
      }
      if newConfig || newUsers {
        ok := DoApply(round.outcomes);
      }
    }

    /** The retry loop: refresh until one succeeds or the context is cancelled. */
    method Retry(initial: seq<Round>) returns (ok: bool, n: nat)
      requires Value() == Node.INITIAL
      modifies this
      ensures n <= |initial| && Value() == Rounds(initial[..n]) && reports == old(reports)
      ensures forall k | 0 <= k < n :: Refresh(Rounds(initial[..k]), initial[k]).1 <==> ok && k == n - 1
      ensures ok ==> n > 0
      ensures !ok ==> n == |initial|
    {
      n, ok := 0, false;
      while n < |initial| && !ok
        invariant n <= |initial| && Value() == Rounds(initial[..n]) && reports == old(reports)
        invariant forall k | 0 <= k < n :: Refresh(Rounds(initial[..k]), initial[k]).1 <==> ok && k == n - 1
        invariant ok ==> n > 0
      {
        ok := DoRefresh(initial[n]);
        assert initial[..n + 1][..n] == initial[..n];
        n := n + 1;
      }
    }

    /** One turn of the select loop. */
    method OnTick(tick: Tick)
      modifies this
      ensures Value() == if tick.Pull? then Refresh(old(Value()), tick.round).0 else old(Value())
      ensures reports == if tick.Pull? then old(reports) else old(reports) + [runtime]
    {
      match tick
      case Pull(round) => var ok := DoRefresh(round);
      case ReportTick => reports := reports + [runtime];
    }

    /** The select loop: pull and report until cancelled. */
    method Serve(ticks: seq<Tick>, ghost done: seq<Round>)
      requires Value() == Rounds(done)
      modifies this
      ensures Value() == Rounds(done + Pulls(ticks)) && |reports| == |old(reports)| + ReportTicks(ticks)
    {
      assert done + Pulls(ticks[..0]) == done;
      for i := 0 to |ticks|
        invariant Value() == Rounds(done + Pulls(ticks[..i]))
        invariant |reports| == |old(reports)| + ReportTicks(ticks[..i])
      {
        OnTick(ticks[i]);
        TickExtends(done, ticks, i);
      }
      assert ticks[..|ticks|] == ticks;
    }

    /** The select loop, then the deferred last report. */
    method ServeAndReport(ticks: seq<Tick>, ghost done: seq<Round>)
      requires Value() == Rounds(done)
      modifies this
      ensures Value() == Rounds(done + Pulls(ticks))
      ensures |reports| == |old(reports)| + ReportTicks(ticks) + 1 && reports[|reports| - 1] == Rounds(done + Pulls(ticks)).runtime
    {
      Serve(ticks, done);
      reports := reports + [runtime];
    }

    /** The deferred close, which runs last of all. */
    method CloseRuntime()
      modifies this`runtime, this`log
      ensures runtime == None && log == Shutdown(old(Value())) && made == old(made) && reports == old(reports)
    {
      if runtime.Some? {
        log := log + [Closed(runtime.value.instance.id)];
        runtime := None;
      }
    }

    /**
     The whole worker. It retries until a refresh succeeds, pulls and reports until cancelled, reports a
     last time with the runtime still open, and then closes it. However it ends, every instance it ever
     built has been closed exactly once. It meets a nil config exactly if its first successful refresh
     comes before any config document; some 304 then answered a request that carried no tag.
     */
    method RunNode(initial: seq<Round>, ticks: seq<Tick>) returns (ending: Ending, ghost rounds: seq<Round>, ghost n: nat)
      requires Value() == Node.INITIAL && reports == []
      modifies this
      ensures n <= |initial| && forall k | 0 <= k < n :: Refresh(Rounds(initial[..k]), initial[k]).1 <==> ending != GaveUp && k == n - 1
      ensures ending == GaveUp ==> n == |initial| && rounds == initial && reports == []
      ensures ending != GaveUp ==> n > 0
      ensures ending == NilConfig <==> ending != GaveUp && forall r | r in initial[..n] :: !r.config.Document?
      ensures ending == NilConfig ==> rounds == initial[..n] && rounds[n - 1].config.NotModified? && !Answered(rounds)
      ensures ending == Stopped ==>
                && rounds == initial[..n] + Pulls(ticks)
                && |reports| == ReportTicks(ticks) + 1 && reports[|reports| - 1] == Rounds(rounds).runtime
      ensures log == Shutdown(Rounds(rounds)) && made == Rounds(rounds).made && runtime == None
      ensures forall id: nat :: CloseCount(log, id) == if id < made then 1 else 0
    {
      var ok, tries := Retry(initial);
      n, rounds := tries, initial[..tries];
      InputsKnownIff(rounds);
      if !ok {
        assert rounds == initial;
        ending := GaveUp;
      } else if currentCfg.None? {
        ending := NilConfig;
        NilConfigAnswer(initial, n);
      } else {
        ServeAndReport(ticks, rounds);
        rounds := rounds + Pulls(ticks);
        ending := Stopped;
      }
      WorkerHousekept(rounds);
      CloseRuntime();
    }
  }

  /** However a run of refreshes ends, closing the runtime there is leaves every instance closed once. */
  lemma WorkerHousekept(rounds: seq<Round>)
    ensures var s := Rounds(rounds); forall id: nat :: CloseCount(Shutdown(s), id) == if id < s.made then 1 else 0
  {
    RunHousekeeps(rounds);
    forall id: nat ensures CloseCount(Shutdown(Rounds(rounds)), id) == if id < Rounds(rounds).made then 1 else 0 {
      EveryInstanceClosedOnce(Rounds(rounds), id);
    }
  }

  /** A first success without any config document comes of a 304 to a request without a tag. */
  lemma NilConfigAnswer(initial: seq<Round>, n: nat)
    requires 0 < n <= |initial| && Refresh(Rounds(initial[..n - 1]), initial[n - 1]).1
    requires Rounds(initial[..n]).currentCfg.None?
    ensures initial[n - 1].config.NotModified? && !Answered(initial[..n])
  {
    var rounds := initial[..n];
    assert rounds[..n - 1] == initial[..n - 1] && rounds[n - 1] == initial[n - 1];
    SucceedsOnAnswers(Rounds(initial[..n - 1]), initial[n - 1]);
    InputsKnownIff(rounds);
    if Answered(rounds) {
      RetryLeavesInputs(initial[..n - 1], initial[n - 1]);
    }
  }
}
