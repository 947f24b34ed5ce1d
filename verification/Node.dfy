/**
 One node's synchronisation with the panel, as values: what apply, refresh and a whole worker run do,
 with panel answers, build failures and start failures as inputs. The class in Worker.dfy runs this
 step by step.
 */
module Node {
  import opened Wrappers
  import opened Panel
  import opened Poller
  import opened Text

  datatype Kind = SingBox | Mieru

  /** A kernel instance: a value recording what it was built from. */
  datatype Instance = Instance(id: nat, cfg: NodeConfig, users: seq<User>)

  /** A runtime around an instance; `cfg` is the copy ReloadUsers builds from. */
  datatype Runtime = Runtime(kind: Kind, cfg: NodeConfig, instance: Instance)

  datatype LifeEvent = Built(instance: Instance) | Started(instance: Instance) | StartFailed(id: nat) | Closed(id: nat)

  type Log = seq<LifeEvent>

  /** How the fallible calls inside an apply turn out. */
  datatype Outcomes = Outcomes(reloadBuilds: bool, reloadStarts: bool, builds: bool, starts: bool)

  /** One refresh: the panel's two answers, and the outcomes should an apply follow. */
  datatype Round = Round(config: Response<NodeConfig>, users: Response<seq<User>>, outcomes: Outcomes)

  datatype State = State(
    configETag: string,
    usersETag: string,
    currentCfg: Option<NodeConfig>,
    currentUsr: seq<User>,
    usersReady: bool,
    runtime: Option<Runtime>,
    nodeType: string,
    configDirty: bool,
    usersDirty: bool,
    // what this node last handed to the store's ReplaceUsers
    listed: Option<seq<User>>,
    // instances made so far, and what happened to them
    made: nat,
    log: Log)

  const INITIAL := State("", "", None, [], false, None, "", false, false, None, 0, [])

  function NodeType(cfg: NodeConfig): string {
    var p := ToLower(cfg.protocol);
    if p == "hysteria" && cfg.version == 2 then "hysteria2" else p
  }

  function KindOf(cfg: NodeConfig): Kind {
    if cfg.protocol == "mieru" then Mieru else SingBox
  }

  function ClosingOld(runtime: Option<Runtime>): Log {
    if runtime.Some? then [Closed(runtime.value.instance.id)] else []
  }

  function RebuildEvents(runtime: Option<Runtime>, next: Instance, starts: bool): Log {
    [Built(next)] + ClosingOld(runtime) + if starts then [Started(next)] else [StartFailed(next.id), Closed(next.id)]
  }

  /** The part of an apply that rebuilds: make the next instance, close the old one, start the next. */
  function Rebuild(s: State, o: Outcomes): (State, bool)
    requires s.currentCfg.Some?
  {
    if !o.builds then (s, false)
    else
      var cfg := s.currentCfg.value;
      var next := Instance(s.made, cfg, s.currentUsr);
      (s.(made := s.made + 1,
          runtime := if o.starts then Some(Runtime(KindOf(cfg), cfg, next)) else None,
          configDirty := s.configDirty && !o.starts,
          usersDirty := s.usersDirty && !o.starts,
          log := s.log + RebuildEvents(s.runtime, next, o.starts)),
       o.starts)
  }

  /** Whether an apply tries to reload users into the runtime it has. */
  predicate HotPath(s: State) {
    s.usersDirty && !s.configDirty && s.runtime.Some? && s.runtime.value.kind == SingBox
  }

  function ReloadEvents(r: Runtime, next: Instance, starts: bool): Log {
    [Built(next)] + if starts then [Started(next), Closed(r.instance.id)] else [StartFailed(next.id), Closed(next.id)]
  }

  /** ReloadUsers: the next instance is built from the runtime's own config and swapped in once started. */
  function Reload(s: State, o: Outcomes): (State, bool)
    requires s.runtime.Some?
  {
    if !o.reloadBuilds then (s, false)
    else
      var r := s.runtime.value;
      var next := Instance(s.made, r.cfg, s.currentUsr);
      (s.(made := s.made + 1,
          runtime := Some(if o.reloadStarts then r.(instance := next) else r),
          log := s.log + ReloadEvents(r, next, o.reloadStarts)),
       o.reloadStarts)
  }

  /** The first steps of an apply: note the node type and list the users in the store. */
  function Announce(s: State): State
    requires s.currentCfg.Some?
  {
    s.(nodeType := NodeType(s.currentCfg.value), listed := Some(s.currentUsr))
  }

  function Apply(s: State, o: Outcomes): (State, bool) {
    if s.currentCfg.None? || !s.usersReady then (s, true)
    else
      var s1 := Announce(s);
      if HotPath(s1) then
        var (s2, reloaded) := Reload(s1, o);
        if reloaded then (s2.(usersDirty := false), true) else Rebuild(s2, o)
      else Rebuild(s1, o)
  }

  /** Storing a config answer; None if the fetch failed. */
  function TakeConfig(s: State, resp: Response<NodeConfig>): Option<State> {
    var f := Fetch(s.configETag, resp);
    if f.failed then None
    else Some(s.(configETag := f.tag,
                 currentCfg := if f.body.Some? then f.body else s.currentCfg,
                 configDirty := f.body.Some? || s.configDirty))
  }

  function TakeUsers(s: State, resp: Response<seq<User>>): Option<State> {
    var f := Fetch(s.usersETag, resp);
    if f.failed then None
    else Some(s.(usersETag := f.tag,
                 currentUsr := if f.body.Some? then f.body.value else s.currentUsr,
                 usersReady := f.body.Some? || s.usersReady,
                 usersDirty := f.body.Some? || s.usersDirty))
  }

  /** Whether a refresh got anything new: the source's local flag. */
  predicate Changed(round: Round) {
    round.config.Document? || round.users.Document?
  }

  function Refresh(s: State, round: Round): (State, bool) {
    match TakeConfig(s, round.config)
    case None => (s, false)
    case Some(s1) =>
      match TakeUsers(s1, round.users)
      case None => (s1, false)
      case Some(s2) => if Changed(round) then Apply(s2, round.outcomes) else (s2, true)
  }

  function Rounds(rounds: seq<Round>): State {
    if rounds == [] then INITIAL else Refresh(Rounds(rounds[..|rounds| - 1]), rounds[|rounds| - 1]).0
  }

  /** The running instance was built from the pair the node now holds. */
  predicate InSync(s: State) {
    && s.runtime.Some? && s.currentCfg.Some?
    && s.runtime.value.instance.cfg == s.currentCfg.value
    && s.runtime.value.instance.users == s.currentUsr
  }

  function LastStarted(log: Log): Option<Instance> {
    if log == [] then None
    else if log[|log| - 1].Started? then Some(log[|log| - 1].instance)
    else LastStarted(log[..|log| - 1])
  }

  /** What the dirty flags promise. */
  predicate FlagsHonest(s: State) {
    && (s.runtime.Some? ==>
          && s.currentCfg.Some? && s.usersReady
          && s.runtime.value.instance.cfg == s.runtime.value.cfg
          && s.runtime.value.kind == KindOf(s.runtime.value.cfg)
          && (!s.configDirty ==> s.runtime.value.cfg == s.currentCfg.value)
          && (!s.usersDirty ==> s.runtime.value.instance.users == s.currentUsr)
          && LastStarted(s.log) == Some(s.runtime.value.instance))
    && (s.currentCfg.Some? && !s.configDirty ==>
          LastStarted(s.log).Some? && LastStarted(s.log).value.cfg == s.currentCfg.value)
    && (s.usersReady && !s.usersDirty ==>
          LastStarted(s.log).Some? && LastStarted(s.log).value.users == s.currentUsr)
  }

  lemma LastStartedAppend(log: Log, more: Log)
    ensures LastStarted(log + more) == if LastStarted(more).Some? then LastStarted(more) else LastStarted(log)
  {
    if more == [] {
      assert log + more == log;
    } else {
      assert (log + more)[..|log + more| - 1] == log + more[..|more| - 1];
      if !more[|more| - 1].Started? {
        LastStartedAppend(log, more[..|more| - 1]);
      }
    }
  }
}
