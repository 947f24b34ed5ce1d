/** What holds of a node's synchronisation in every run, through every failure exit. */
module Sync {
  import opened Wrappers
  import opened Panel
  import opened Poller
  import opened Node
  import opened Text

  lemma {:induction false} NoneStarted(log: Log)
    requires forall e | e in log :: !e.Started?
    ensures LastStarted(log).None?
  {
    if log != [] {
      NoneStarted(log[..|log| - 1]);
    }
  }

  /** After the events of a rebuild or a reload, the next instance is the last started one if it started at all. */
  lemma RebuildLastStarted(log: Log, runtime: Option<Runtime>, next: Instance, starts: bool)
    ensures LastStarted(log + RebuildEvents(runtime, next, starts)) == if starts then Some(next) else LastStarted(log)
  {
    var more := RebuildEvents(runtime, next, starts);
    LastStartedAppend(log, more);
    if !starts {
      NoneStarted(more);
    }
  }

  lemma ReloadLastStarted(log: Log, r: Runtime, next: Instance, starts: bool)
    ensures LastStarted(log + ReloadEvents(r, next, starts)) == if starts then Some(next) else LastStarted(log)
  {
    var more := ReloadEvents(r, next, starts);
    LastStartedAppend(log, more);
    if starts {
      assert more[..|more| - 1] == [Built(next), Started(next)];
    } else {
      NoneStarted(more);
    }
  }

  lemma RebuildKeepsFlags(s: State, o: Outcomes)
    requires FlagsHonest(s) && s.currentCfg.Some? && s.usersReady
    ensures FlagsHonest(Rebuild(s, o).0)
    ensures Rebuild(s, o).1 ==> InSync(Rebuild(s, o).0) && !Rebuild(s, o).0.configDirty && !Rebuild(s, o).0.usersDirty
    ensures !Rebuild(s, o).1 ==> Rebuild(s, o).0.configDirty == s.configDirty && Rebuild(s, o).0.usersDirty == s.usersDirty
  {
    if o.builds {
      RebuildLastStarted(s.log, s.runtime, Instance(s.made, s.currentCfg.value, s.currentUsr), o.starts);
    }
  }

  lemma ReloadKeepsFlags(s: State, o: Outcomes)
    requires FlagsHonest(s) && HotPath(s)
    ensures !Reload(s, o).1 ==> FlagsHonest(Reload(s, o).0)
    ensures !Reload(s, o).1 ==> Reload(s, o).0 == s.(made := Reload(s, o).0.made, log := Reload(s, o).0.log)
    ensures Reload(s, o).1 ==> FlagsHonest(Reload(s, o).0.(usersDirty := false)) && InSync(Reload(s, o).0)
  {
    if o.reloadBuilds {
      ReloadLastStarted(s.log, s.runtime.value, Instance(s.made, s.runtime.value.cfg, s.currentUsr), o.reloadStarts);
    }
  }

  lemma ApplyKeepsFlags(s: State, o: Outcomes)
    requires FlagsHonest(s)
    ensures FlagsHonest(Apply(s, o).0)
    ensures Apply(s, o).1 && s.currentCfg.Some? && s.usersReady ==> InSync(Apply(s, o).0)
  {
    if s.currentCfg.Some? && s.usersReady {
      var s1 := Announce(s);
      assert FlagsHonest(s1);
      if HotPath(s1) {
        ReloadKeepsFlags(s1, o);
        if !Reload(s1, o).1 {
          RebuildKeepsFlags(Reload(s1, o).0, o);
        }
      } else {
        RebuildKeepsFlags(s1, o);
      }
    }
  }

  lemma TakeConfigKeepsFlags(s: State, resp: Response<NodeConfig>)
    requires FlagsHonest(s) && TakeConfig(s, resp).Some?
    ensures FlagsHonest(TakeConfig(s, resp).value)
  {
  }

  lemma TakeUsersKeepsFlags(s: State, resp: Response<seq<User>>)
    requires FlagsHonest(s) && TakeUsers(s, resp).Some?
    ensures FlagsHonest(TakeUsers(s, resp).value)
  {
  }

  lemma RefreshKeepsFlags(s: State, round: Round)
    requires FlagsHonest(s)
    ensures FlagsHonest(Refresh(s, round).0)
  {
    match TakeConfig(s, round.config)
    case None =>
    case Some(s1) =>
      TakeConfigKeepsFlags(s, round.config);
      match TakeUsers(s1, round.users)
      case None =>
      case Some(s2) =>
        TakeUsersKeepsFlags(s1, round.users);
        ApplyKeepsFlags(s2, round.outcomes);
  }

  /**
   The dirty flags, over all runs and failure exits: a clear flag means the last instance that started,
   and the one running if there is one, was built from what the node holds now.
   */
  lemma {:induction false} DirtyFlagsHonest(rounds: seq<Round>)
    ensures FlagsHonest(Rounds(rounds))
  {
    if rounds != [] {
      DirtyFlagsHonest(rounds[..|rounds| - 1]);
      RefreshKeepsFlags(Rounds(rounds[..|rounds| - 1]), rounds[|rounds| - 1]);
    }
  }

  /** The state a refresh hands to apply, if both fetches succeed. */
  function Pulled(s: State, round: Round): Option<State> {
    match TakeConfig(s, round.config)
    case None => None
    case Some(s1) => TakeUsers(s1, round.users)
  }

  /** Whether a refresh gets as far as an apply that is not let off by its guard. */
  predicate Applies(s: State, round: Round) {
    (round.config.Document? || round.users.Document?) && Pulled(s, round).Some? && Pulled(s, round).value.currentCfg.Some? && Pulled(s, round).value.usersReady
  }

  lemma PulledHonest(rounds: seq<Round>, round: Round)
    requires Pulled(Rounds(rounds), round).Some?
    ensures FlagsHonest(Pulled(Rounds(rounds), round).value)
  {
    DirtyFlagsHonest(rounds);
    TakeConfigKeepsFlags(Rounds(rounds), round.config);
    TakeUsersKeepsFlags(TakeConfig(Rounds(rounds), round.config).value, round.users);
  }

  /** A refresh that applies and succeeds leaves the instance built from the current pair running. */
  lemma ApplySyncs(rounds: seq<Round>, round: Round)
    requires Applies(Rounds(rounds), round) && Refresh(Rounds(rounds), round).1
    ensures InSync(Refresh(Rounds(rounds), round).0)
  {
    PulledHonest(rounds, round);
    ApplyKeepsFlags(Pulled(Rounds(rounds), round).value, round.outcomes);
  }

  /**
   A hot reload installs what a full rebuild would: same kind, same config, same users. It is only
   reached when the runtime's own copy of the config is the current one.
   */
  lemma HotReloadRefinesRebuild(rounds: seq<Round>, round: Round, rebuild: Outcomes)
    requires Applies(Rounds(rounds), round) && HotPath(Pulled(Rounds(rounds), round).value)
    requires round.outcomes.reloadBuilds && round.outcomes.reloadStarts && rebuild.builds && rebuild.starts
    ensures var p := Pulled(Rounds(rounds), round).value;
            && p.currentCfg == Some(p.runtime.value.cfg)
            && Refresh(Rounds(rounds), round).1
            && var hot, full := Refresh(Rounds(rounds), round).0, Rebuild(p, rebuild).0;
               && hot.runtime == full.runtime
               && hot.configDirty == full.configDirty && hot.usersDirty == full.usersDirty
  {
    PulledHonest(rounds, round);
  }

  /**
   A config left unapplied, by whatever failure, forces the rebuild path: if the last instance that started
   was not built from the current config, a refresh that applies does nothing but rebuild.
   */
  lemma UnappliedConfigForcesRebuild(rounds: seq<Round>, round: Round)
    requires Applies(Rounds(rounds), round)
    requires var p := Pulled(Rounds(rounds), round).value;
             LastStarted(p.log).None? || LastStarted(p.log).value.cfg != p.currentCfg.value
    ensures var p := Pulled(Rounds(rounds), round).value;
            p.configDirty && Refresh(Rounds(rounds), round) == Rebuild(Announce(p), round.outcomes)
  {
    PulledHonest(rounds, round);
  }

  /** In every run the running instance is a mieru server exactly if its config's protocol is "mieru". */
  lemma KindIsProtocol(rounds: seq<Round>)
    ensures var r := Rounds(rounds).runtime; r.Some? ==> (r.value.kind == Mieru <==> r.value.instance.cfg.protocol == "mieru")
  {
    DirtyFlagsHonest(rounds);
  }

  /** A round that brings a user list and no config. */
  predicate UsersOnly(round: Round) {
    round.config.NotModified? && round.users.Document?
  }

  /**
   A users-only refresh of a running node with no config outstanding. A sing-box node starts the next instance,
   built from the same config and the new users, before it closes the previous one; a mieru node closes the
   previous one first; and a sing-box node whose reload does not start falls back to a rebuild.
   */
  lemma UsersOnlyRefresh(rounds: seq<Round>, round: Round)
    requires UsersOnly(round) && Rounds(rounds).runtime.Some? && !Rounds(rounds).configDirty
    ensures var s, t, o := Rounds(rounds), Refresh(Rounds(rounds), round).0, round.outcomes;
            var r := s.runtime.value;
            var cfg, previous := r.instance.cfg, r.instance.id;
            var next, later := Instance(s.made, cfg, round.users.body), Instance(s.made + 1, cfg, round.users.body);
            && (cfg.protocol != "mieru" && o.reloadBuilds && o.reloadStarts ==>
                  t.log == s.log + [Built(next), Started(next), Closed(previous)])
            && ((cfg.protocol == "mieru" || !o.reloadBuilds) && o.builds && o.starts ==>
                  t.log == s.log + [Built(next), Closed(previous), Started(next)])
            && (cfg.protocol != "mieru" && o.reloadBuilds && !o.reloadStarts && o.builds && o.starts ==>
                  t.log == s.log + [Built(next), StartFailed(next.id), Closed(next.id)] + [Built(later), Closed(previous), Started(later)])
  {
    DirtyFlagsHonest(rounds);
    UsersOnlyPulls(Rounds(rounds), round);
    var p := Pulled(Rounds(rounds), round).value;
    if p.runtime.value.instance.cfg.protocol == "mieru" {
      if round.outcomes.builds && round.outcomes.starts {
        MieruUsers(p, round.outcomes);
      }
    } else if round.outcomes.reloadBuilds {
      SingBoxUsers(p, round.outcomes);
    } else if round.outcomes.builds && round.outcomes.starts {
      SingBoxRebuild(p, round.outcomes);
    }
  }

  /** A running node whose users alone are outstanding. */
  predicate UsersAlone(p: State) {
    && FlagsHonest(p) && p.runtime.Some? && p.usersReady && p.usersDirty && !p.configDirty
    && p.currentCfg == Some(p.runtime.value.instance.cfg)
  }

  lemma MieruUsers(p: State, o: Outcomes)
    requires UsersAlone(p) && p.runtime.value.instance.cfg.protocol == "mieru" && o.builds && o.starts
    ensures var next := Instance(p.made, p.currentCfg.value, p.currentUsr);
            Apply(p, o).0.log == p.log + [Built(next), Closed(p.runtime.value.instance.id), Started(next)]
  {
    RebuildList(p.runtime.value, Instance(p.made, p.currentCfg.value, p.currentUsr));
  }

  lemma SingBoxRebuild(p: State, o: Outcomes)
    requires UsersAlone(p) && p.runtime.value.instance.cfg.protocol != "mieru" && !o.reloadBuilds && o.builds && o.starts
    ensures var next := Instance(p.made, p.currentCfg.value, p.currentUsr);
            Apply(p, o).0.log == p.log + [Built(next), Closed(p.runtime.value.instance.id), Started(next)]
  {
    RebuildList(p.runtime.value, Instance(p.made, p.currentCfg.value, p.currentUsr));
  }

  lemma SingBoxUsers(p: State, o: Outcomes)
    requires UsersAlone(p) && p.runtime.value.instance.cfg.protocol != "mieru" && o.reloadBuilds
    ensures var cfg, previous := p.currentCfg.value, p.runtime.value.instance.id;
            var next, later := Instance(p.made, cfg, p.currentUsr), Instance(p.made + 1, cfg, p.currentUsr);
            && (o.reloadStarts ==> Apply(p, o).0.log == p.log + [Built(next), Started(next), Closed(previous)])
            && (!o.reloadStarts && o.builds && o.starts ==>
                  Apply(p, o).0.log
                  == p.log + [Built(next), StartFailed(next.id), Closed(next.id)] + [Built(later), Closed(previous), Started(later)])
  {
    ReloadList(p.runtime.value, Instance(p.made, p.currentCfg.value, p.currentUsr));
    RebuildList(p.runtime.value, Instance(p.made + 1, p.currentCfg.value, p.currentUsr));
  }

  lemma UsersOnlyPulls(s: State, round: Round)
    requires FlagsHonest(s) && UsersOnly(round) && s.runtime.Some? && !s.configDirty
    ensures var p := Pulled(s, round).value;
            && Pulled(s, round).Some? && p.currentCfg == Some(s.runtime.value.instance.cfg) && p.usersReady
            && p.currentUsr == round.users.body && p.usersDirty && !p.configDirty
            && p.runtime == s.runtime && p.made == s.made && p.log == s.log
            && Refresh(s, round) == Apply(p, round.outcomes)
  {
  }

  lemma ReloadList(r: Runtime, next: Instance)
    ensures ReloadEvents(r, next, true) == [Built(next), Started(next), Closed(r.instance.id)]
    ensures ReloadEvents(r, next, false) == [Built(next), StartFailed(next.id), Closed(next.id)]
  {
  }

  lemma RebuildList(r: Runtime, next: Instance)
    ensures RebuildEvents(Some(r), next, true) == [Built(next), Closed(r.instance.id), Started(next)]
  {
  }

  /** A round that brings nothing new does nothing. */
  lemma NothingNewNothingDone(rounds: seq<Round>, round: Round)
    requires !round.config.Document? && !round.users.Document?
    ensures var s, t := Rounds(rounds), Refresh(Rounds(rounds), round).0;
            && t.log == s.log && t.runtime == s.runtime && t.made == s.made && t.listed == s.listed
            && t.currentCfg == s.currentCfg && t.currentUsr == s.currentUsr
            && t.configDirty == s.configDirty && t.usersDirty == s.usersDirty
  {
  }

  /**
   Whether a refresh that applies succeeds: exactly if the rebuild builds and starts, or users alone are
   outstanding at a running sing-box node and its reload builds and starts.
   */
  lemma ApplySucceedsIff(rounds: seq<Round>, round: Round)
    requires Applies(Rounds(rounds), round)
    ensures var p, o := Pulled(Rounds(rounds), round).value, round.outcomes;
            Refresh(Rounds(rounds), round).1
            <==> || (o.builds && o.starts)
                 || (&& p.runtime.Some? && p.runtime.value.instance.cfg.protocol != "mieru"
                     && p.usersDirty && !p.configDirty && o.reloadBuilds && o.reloadStarts)
  {
    PulledHonest(rounds, round);
  }

  /** What a refresh whose apply fails leaves: the old instance if the next could not be built, none if it did not start. */
  lemma FailedApplyLeaves(rounds: seq<Round>, round: Round)
    requires Applies(Rounds(rounds), round) && !Refresh(Rounds(rounds), round).1
    ensures var s, t := Rounds(rounds), Refresh(Rounds(rounds), round).0;
            && t.runtime == (if round.outcomes.builds then None else s.runtime)
            && (t.configDirty <==> s.configDirty || round.config.Document?)
            && (t.usersDirty <==> s.usersDirty || round.users.Document?)
  {
    PulledHonest(rounds, round);
  }

  /** A rebuild completed between two states: its start is the last thing that happened. */
  predicate RebuiltSince(s: State, t: State) {
    |t.log| > |s.log| && t.log[|t.log| - 1].Started?
  }

  /** A config document has arrived and no rebuild has completed since. */
  predicate ConfigOutstanding(rounds: seq<Round>) {
    rounds != [] &&
    var init, round := rounds[..|rounds| - 1], rounds[|rounds| - 1];
    !RebuiltSince(Rounds(init), Rounds(rounds)) && (round.config.Document? || ConfigOutstanding(init))
  }

  lemma RebuildSince(s: State, o: Outcomes)
    requires s.currentCfg.Some?
    ensures Rebuild(s, o).0.configDirty <==> s.configDirty && !(|Rebuild(s, o).0.log| > |s.log| && o.starts)
    ensures |Rebuild(s, o).0.log| >= |s.log|
    ensures |Rebuild(s, o).0.log| > |s.log| ==> (RebuiltSince(s, Rebuild(s, o).0) <==> o.starts)
  {
  }

  lemma ReloadSince(s: State, o: Outcomes)
    requires s.runtime.Some?
    ensures Reload(s, o).0.configDirty == s.configDirty
    ensures |Reload(s, o).0.log| >= |s.log| && !RebuiltSince(s, Reload(s, o).0)
    ensures |Reload(s, o).0.log| > |s.log| ==> !Reload(s, o).0.log[|Reload(s, o).0.log| - 1].Started?
  {
  }

  lemma ApplySince(s: State, o: Outcomes)
    ensures Apply(s, o).0.configDirty <==> s.configDirty && !RebuiltSince(s, Apply(s, o).0)
  {
    if s.currentCfg.Some? && s.usersReady {
      var s1 := Announce(s);
      if HotPath(s1) {
        ReloadSince(s1, o);
        RebuildSince(Reload(s1, o).0, o);
      } else {
        RebuildSince(s1, o);
      }
    }
  }

  lemma RefreshSince(s: State, round: Round)
    ensures var t := Refresh(s, round).0;
            t.configDirty <==> !RebuiltSince(s, t) && (round.config.Document? || s.configDirty)
  {
    match TakeConfig(s, round.config)
    case None =>
    case Some(s1) =>
      match TakeUsers(s1, round.users)
      case None =>
      case Some(s2) => ApplySince(s2, round.outcomes);
  }

  /** In every run the config is dirty exactly while a config document has come that no completed rebuild has taken up. */
  lemma {:induction false} ConfigDirtyExact(rounds: seq<Round>)
    ensures Rounds(rounds).configDirty <==> ConfigOutstanding(rounds)
  {
    if rounds != [] {
      ConfigDirtyExact(rounds[..|rounds| - 1]);
      RefreshSince(Rounds(rounds[..|rounds| - 1]), rounds[|rounds| - 1]);
    }
  }

  /** An instance started between two states, or one did and then the one before it was closed. */
  predicate StartedSince(s: State, t: State) {
    && |t.log| > |s.log|
    && (t.log[|t.log| - 1].Started? || (|t.log| > |s.log| + 1 && t.log[|t.log| - 2].Started?))
  }

  /** A user list has arrived and no instance has started since. */
  predicate UsersOutstanding(rounds: seq<Round>) {
    rounds != [] &&
    var init, round := rounds[..|rounds| - 1], rounds[|rounds| - 1];
    && !StartedSince(Rounds(init), Rounds(rounds))
    && ((GetsConfig(round) && round.users.Document?) || UsersOutstanding(init))
  }

  lemma EventsEnd(s: State, o: Outcomes)
    ensures s.currentCfg.Some? ==>
              var t := Rebuild(s, o).0;
              && |t.log| >= |s.log|
              && (|t.log| > |s.log| ==> |t.log| > |s.log| + 1 && (t.log[|t.log| - 1].Started? <==> o.starts) && !t.log[|t.log| - 2].Started?)
              && (|t.log| > |s.log| <==> o.builds)
    ensures s.runtime.Some? ==>
              var t := Reload(s, o).0;
              && |t.log| >= |s.log|
              && (|t.log| > |s.log| ==> |t.log| > |s.log| + 2 && !t.log[|t.log| - 1].Started? && (t.log[|t.log| - 2].Started? <==> o.reloadStarts))
              && (|t.log| > |s.log| <==> o.reloadBuilds)
  {
  }

  lemma ApplyUsersSince(s: State, o: Outcomes)
    ensures Apply(s, o).0.usersDirty <==> s.usersDirty && !StartedSince(s, Apply(s, o).0)
  {
    if s.currentCfg.Some? && s.usersReady {
      var s1 := Announce(s);
      EventsEnd(s1, o);
      if HotPath(s1) {
        EventsEnd(Reload(s1, o).0, o);
      }
    }
  }

  lemma RefreshUsersSince(s: State, round: Round)
    ensures var t := Refresh(s, round).0;
            t.usersDirty <==> !StartedSince(s, t)
                              && ((GetsConfig(round) && round.users.Document?) || s.usersDirty)
  {
    match TakeConfig(s, round.config)
    case None =>
    case Some(s1) =>
      match TakeUsers(s1, round.users)
      case None =>
      case Some(s2) => ApplyUsersSince(s2, round.outcomes);
  }

  /** In every run the users are dirty exactly while a user list has come that no started instance has taken up. */
  lemma {:induction false} UsersDirtyExact(rounds: seq<Round>)
    ensures Rounds(rounds).usersDirty <==> UsersOutstanding(rounds)
  {
    if rounds != [] {
      UsersDirtyExact(rounds[..|rounds| - 1]);
      RefreshUsersSince(Rounds(rounds[..|rounds| - 1]), rounds[|rounds| - 1]);
    }
  }

  /** What the store and the request header have heard of the running instance. */
  predicate Announced(s: State) {
    s.runtime.Some? ==>
      && s.listed.Some?
      && (!s.usersDirty ==> s.listed == Some(s.runtime.value.instance.users))
      && (!s.configDirty ==> IsTypeOf(s.nodeType, s.runtime.value.instance.cfg))
  }

  /** The node type the panel is told: the protocol in small letters, and hysteria of version 2 by its own name. */
  predicate IsTypeOf(name: string, cfg: NodeConfig) {
    if ToLower(cfg.protocol) == "hysteria" && cfg.version == 2 then name == "hysteria2" else name == ToLower(cfg.protocol)
  }

  lemma ApplyAnnounces(s: State, o: Outcomes)
    requires FlagsHonest(s) && Announced(s)
    ensures Announced(Apply(s, o).0)
  {
    ApplyKeepsFlags(s, o);
    if s.currentCfg.Some? && s.usersReady && HotPath(s) {
      ReloadKeepsFlags(Announce(s), o);
    }
  }

  /**
   In every run, while the users are not dirty the store lists exactly the users the running instance was
   built with, and while the config is not dirty the panel is told that instance's node type.
   */
  lemma {:induction false} RunningIsAnnounced(rounds: seq<Round>)
    ensures Announced(Rounds(rounds))
  {
    if rounds != [] {
      var init, round := rounds[..|rounds| - 1], rounds[|rounds| - 1];
      RunningIsAnnounced(init);
      if Pulled(Rounds(init), round).Some? {
        PulledHonest(init, round);
        ApplyAnnounces(Pulled(Rounds(init), round).value, round.outcomes);
      }
    }
  }

  /** A 304 only ever answers a request that carried a tag; a conforming panel sends no other. */
  predicate Answers<T>(etag: string, resp: Response<T>) {
    resp.NotModified? ==> etag != ""
  }

  /** The config fetch gets an answer the client accepts, so the users are fetched too. */
  predicate GetsConfig(round: Round) {
    round.config.Document? || round.config.NotModified?
  }

  predicate RoundAnswers(s: State, round: Round) {
    Answers(s.configETag, round.config) && (GetsConfig(round) ==> Answers(s.usersETag, round.users))
  }

  predicate Answered(rounds: seq<Round>) {
    rounds != [] ==> Answered(rounds[..|rounds| - 1]) && RoundAnswers(Rounds(rounds[..|rounds| - 1]), rounds[|rounds| - 1])
  }

  predicate TagsHaveBodies(s: State) {
    (s.configETag != "" ==> s.currentCfg.Some?) && (s.usersETag != "" ==> s.usersReady)
  }

  lemma ApplyKeepsInputs(s: State, o: Outcomes)
    ensures var t := Apply(s, o).0;
            && t.configETag == s.configETag && t.usersETag == s.usersETag
            && t.currentCfg == s.currentCfg && t.currentUsr == s.currentUsr && t.usersReady == s.usersReady
  {
  }

  lemma RefreshKeepsTags(s: State, round: Round)
    requires TagsHaveBodies(s) && RoundAnswers(s, round)
    ensures TagsHaveBodies(Refresh(s, round).0)
    ensures Refresh(s, round).1 ==> Refresh(s, round).0.currentCfg.Some? && Refresh(s, round).0.usersReady
  {
    match TakeConfig(s, round.config)
    case None =>
    case Some(s1) =>
      match TakeUsers(s1, round.users)
      case None =>
      case Some(s2) => ApplyKeepsInputs(s2, round.outcomes);
  }

  lemma {:induction false} RunKeepsTags(rounds: seq<Round>)
    requires Answered(rounds)
    ensures TagsHaveBodies(Rounds(rounds))
  {
    if rounds != [] {
      RunKeepsTags(rounds[..|rounds| - 1]);
      RefreshKeepsTags(Rounds(rounds[..|rounds| - 1]), rounds[|rounds| - 1]);
    }
  }

  /** A config is known exactly if some answer brought one; users, if one did after a config fetch that worked. */
  lemma {:induction false} InputsKnownIff(rounds: seq<Round>)
    ensures Rounds(rounds).currentCfg.Some? <==> exists r | r in rounds :: r.config.Document?
    ensures Rounds(rounds).usersReady <==> exists r | r in rounds :: GetsConfig(r) && r.users.Document?
  {
    if rounds != [] {
      var init, round := rounds[..|rounds| - 1], rounds[|rounds| - 1];
      InputsKnownIff(init);
      RefreshInputs(Rounds(init), round);
      assert forall r :: r in rounds <==> r in init || r == round by {
        assert rounds == init + [round];
      }
    }
  }

  lemma RefreshInputs(s: State, round: Round)
    ensures Refresh(s, round).0.currentCfg.Some? <==> s.currentCfg.Some? || round.config.Document?
    ensures Refresh(s, round).0.usersReady
            <==> s.usersReady || (GetsConfig(round) && round.users.Document?)
  {
    match TakeConfig(s, round.config)
    case None =>
    case Some(s1) =>
      match TakeUsers(s1, round.users)
      case None =>
      case Some(s2) => ApplyKeepsInputs(s2, round.outcomes);
  }

  /** The initial retry ends with a config and a user list, so what follows it never meets a nil config. */
  lemma RetryLeavesInputs(rounds: seq<Round>, round: Round)
    requires Answered(rounds) && RoundAnswers(Rounds(rounds), round) && Refresh(Rounds(rounds), round).1
    ensures var t := Refresh(Rounds(rounds), round).0; t.currentCfg.Some? && t.usersReady
  {
    RunKeepsTags(rounds);
    RefreshKeepsTags(Rounds(rounds), round);
  }

  /**
   A refresh that reports success leaves the node in sync exactly if it got something new or the node
   was in sync before: `changed` is local, so an update whose apply failed is not tried again by itself.
   */
  lemma RefreshSyncsIff(rounds: seq<Round>, round: Round)
    requires Answered(rounds) && RoundAnswers(Rounds(rounds), round) && Refresh(Rounds(rounds), round).1
    ensures InSync(Refresh(Rounds(rounds), round).0)
            <==> round.config.Document? || round.users.Document? || InSync(Rounds(rounds))
  {
    DirtyFlagsHonest(rounds);
    RetryLeavesInputs(rounds, round);
    if Changed(round) {
      ApplyKeepsInputs(Pulled(Rounds(rounds), round).value, round.outcomes);
      ApplySyncs(rounds, round);
    } else {
      UnchangedKeepsSync(Rounds(rounds), round);
    }
  }

  lemma UnchangedKeepsSync(s: State, round: Round)
    requires !Changed(round)
    ensures InSync(Refresh(s, round).0) <==> InSync(s)
  {
  }

  /** So the initial retry can end in success with nothing running. */
  lemma RetryCanEndEmptyHanded(cfg: NodeConfig, users: seq<User>)
    ensures exists rounds: seq<Round> ::
              && |rounds| == 2 && Answered(rounds)
              && Refresh(Rounds(rounds[..1]), rounds[1]).1 && Rounds(rounds).runtime.None?
  {
    var fails := Outcomes(false, false, false, false);
    var r1 := [Round(Document("a", cfg), Document("b", users), fails)];
    var r2 := r1 + [Round(NotModified(""), NotModified(""), fails)];
    assert r1[..0] == [] && r2[..1] == r1;
    assert Rounds(r1) == INITIAL.(configETag := "a", usersETag := "b", currentCfg := Some(cfg), currentUsr := users,
                                  usersReady := true, configDirty := true, usersDirty := true, nodeType := NodeType(cfg), listed := Some(users));
    assert Answered(r1);
    assert Answered(r2);
  }

  function ConfigClient(s: State): Client<NodeConfig> {
    Client(s.configETag, s.currentCfg)
  }

  function UsersClient(s: State): Client<seq<User>> {
    Client(s.usersETag, if s.usersReady then Some(s.currentUsr) else None)
  }

  /** The node's config follows the ETag poller; its users do whenever the config fetch got that far. */
  lemma RefreshPolls(s: State, round: Round)
    ensures ConfigClient(Refresh(s, round).0) == Poll(ConfigClient(s), round.config)
    ensures UsersClient(Refresh(s, round).0)
            == if GetsConfig(round) then Poll(UsersClient(s), round.users) else UsersClient(s)
  {
    match TakeConfig(s, round.config)
    case None =>
    case Some(s1) =>
      match TakeUsers(s1, round.users)
      case None =>
      case Some(s2) => ApplyKeepsInputs(s2, round.outcomes);
  }

  /** A round, with what the panel served when it answered. */
  datatype Service = Service(round: Round, config: Resource<NodeConfig>, users: Resource<seq<User>>)

  function RoundsOf(services: seq<Service>): seq<Round> {
    if services == [] then [] else RoundsOf(services[..|services| - 1]) + [services[|services| - 1].round]
  }

  function ConfigPolls(services: seq<Service>): seq<Exchange<NodeConfig>> {
    if services == [] then []
    else
      var last := services[|services| - 1];
      ConfigPolls(services[..|services| - 1]) + [Exchange(last.round.config, last.config)]
  }

  /** The users are polled only in rounds whose config fetch worked. */
  function UsersPolls(services: seq<Service>): seq<Exchange<seq<User>>> {
    if services == [] then []
    else
      var last := services[|services| - 1];
      UsersPolls(services[..|services| - 1])
      + if GetsConfig(last.round) then [Exchange(last.round.users, last.users)] else []
  }

  lemma RoundsOfLast(services: seq<Service>)
    requires services != []
    ensures var init, last := services[..|services| - 1], services[|services| - 1];
            Rounds(RoundsOf(services)) == Refresh(Rounds(RoundsOf(init)), last.round).0
  {
    var init, last := services[..|services| - 1], services[|services| - 1];
    assert (RoundsOf(init) + [last.round])[..|RoundsOf(init)|] == RoundsOf(init);
  }

  lemma AfterLast<T>(polls: seq<Exchange<T>>, e: Exchange<T>)
    ensures After(polls + [e]) == Poll(After(polls), e.resp)
  {
    assert (polls + [e])[..|polls|] == polls;
  }

  lemma PollsLast(services: seq<Service>)
    requires services != []
    ensures var init, last := services[..|services| - 1], services[|services| - 1];
            && After(ConfigPolls(services)) == Poll(After(ConfigPolls(init)), last.round.config)
            && After(UsersPolls(services))
               == if GetsConfig(last.round) then Poll(After(UsersPolls(init)), last.round.users) else After(UsersPolls(init))
  {
    var init, last := services[..|services| - 1], services[|services| - 1];
    AfterLast(ConfigPolls(init), Exchange(last.round.config, last.config));
    if GetsConfig(last.round) {
      AfterLast(UsersPolls(init), Exchange(last.round.users, last.users));
    } else {
      assert UsersPolls(services) == UsersPolls(init);
    }
  }

  /** The node is where the two pollers are. */
  predicate AtPolls(s: State, config: Client<NodeConfig>, users: Client<seq<User>>) {
    ConfigClient(s) == config && UsersClient(s) == users
  }

  lemma AtPollsStep(s: State, round: Round, config: Client<NodeConfig>, users: Client<seq<User>>)
    requires AtPolls(s, config, users)
    ensures AtPolls(Refresh(s, round).0, Poll(config, round.config), if GetsConfig(round) then Poll(users, round.users) else users)
  {
    RefreshPolls(s, round);
  }

  /** Over a whole run the node is two ETag pollers. */
  lemma {:induction false} NodePolls(services: seq<Service>)
    ensures AtPolls(Rounds(RoundsOf(services)), After(ConfigPolls(services)), After(UsersPolls(services)))
  {
    if services != [] {
      var init, last := services[..|services| - 1], services[|services| - 1];
      NodePolls(init);
      RoundsOfLast(services);
      PollsLast(services);
      AtPollsStep(Rounds(RoundsOf(init)), last.round, After(ConfigPolls(init)), After(UsersPolls(init)));
    }
  }

  /** A panel that conforms for both documents. */
  predicate Conform(services: seq<Service>, cfgOf: string -> NodeConfig, usersOf: string -> seq<User>) {
    Conforming(cfgOf, ConfigPolls(services)) && Conforming(usersOf, UsersPolls(services))
  }

  lemma ConformingLast<T>(bodyOf: string -> T, polls: seq<Exchange<T>>, e: Exchange<T>)
    requires Conforming(bodyOf, polls + [e])
    ensures Conforming(bodyOf, polls) && Conforms(After(polls).tag, e.resp, e.served)
  {
    assert (polls + [e])[..|polls|] == polls;
  }

  lemma ConformInit(services: seq<Service>, cfgOf: string -> NodeConfig, usersOf: string -> seq<User>)
    requires services != [] && Conform(services, cfgOf, usersOf)
    ensures var init, last := services[..|services| - 1], services[|services| - 1];
            Conform(init, cfgOf, usersOf) && RoundAnswers(Rounds(RoundsOf(init)), last.round)
  {
    var init, last := services[..|services| - 1], services[|services| - 1];
    NodePolls(init);
    ConformingLast(cfgOf, ConfigPolls(init), Exchange(last.round.config, last.config));
    if GetsConfig(last.round) {
      ConformingLast(usersOf, UsersPolls(init), Exchange(last.round.users, last.users));
    } else {
      assert UsersPolls(services) == UsersPolls(init);
    }
  }

  lemma {:induction false} ConformAnswered(services: seq<Service>, cfgOf: string -> NodeConfig, usersOf: string -> seq<User>)
    requires Conform(services, cfgOf, usersOf)
    ensures Answered(RoundsOf(services))
  {
    if services != [] {
      var init, last := services[..|services| - 1], services[|services| - 1];
      ConformInit(services, cfgOf, usersOf);
      ConformAnswered(init, cfgOf, usersOf);
      assert (RoundsOf(init) + [last.round])[..|RoundsOf(init)|] == RoundsOf(init);
    }
  }

  /** A poll of a run that succeeds stores what was served, exactly unless a 304 answers a misled poller. */
  lemma StoredIff<T>(bodyOf: string -> T, polls: seq<Exchange<T>>, e: Exchange<T>)
    requires Conforming(bodyOf, polls + [e]) && (e.resp.Document? || e.resp.NotModified?)
    ensures After(polls + [e]).stored == Some(e.served.body) <==> e.resp.Document? || !Misled(bodyOf, polls)
  {
    assert (polls + [e])[..|polls|] == polls;
    RunAgreesIff(bodyOf, polls + [e]);
  }

  /**
   From the panel to the running instance. Against a conforming panel, a refresh that succeeds, and that got
   something new or started in sync, leaves an instance running with the very config the panel served in that
   refresh, and with the very users, each exactly unless a 304 answered a poller misled by an untagged change.
   */
  lemma RunningIsServed(services: seq<Service>, cfgOf: string -> NodeConfig, usersOf: string -> seq<User>)
    requires services != [] && Conform(services, cfgOf, usersOf)
    requires var init, last := services[..|services| - 1], services[|services| - 1];
             && Refresh(Rounds(RoundsOf(init)), last.round).1
             && (last.round.config.Document? || last.round.users.Document? || InSync(Rounds(RoundsOf(init))))
    ensures var init, last, t := services[..|services| - 1], services[|services| - 1], Rounds(RoundsOf(services));
            && InSync(t)
            && (t.runtime.value.instance.cfg == last.config.body
                <==> last.round.config.Document? || !Misled(cfgOf, ConfigPolls(init)))
            && (t.runtime.value.instance.users == last.users.body
                <==> last.round.users.Document? || !Misled(usersOf, UsersPolls(init)))
  {
    var init, last := services[..|services| - 1], services[|services| - 1];
    ConformInit(services, cfgOf, usersOf);
    ConformAnswered(init, cfgOf, usersOf);
    RoundsOfLast(services);
    RefreshSyncsIff(RoundsOf(init), last.round);
    RetryLeavesInputs(RoundsOf(init), last.round);
    SucceedsOnAnswers(Rounds(RoundsOf(init)), last.round);
    NodePolls(services);
    StoredIff(cfgOf, ConfigPolls(init), Exchange(last.round.config, last.config));
    StoredIff(usersOf, UsersPolls(init), Exchange(last.round.users, last.users));
  }

  lemma SucceedsOnAnswers(s: State, round: Round)
    requires Refresh(s, round).1
    ensures GetsConfig(round) && (round.users.Document? || round.users.NotModified?)
  {
  }
}
