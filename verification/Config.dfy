/** The checks on the configured nodes, on which "one report loop per node identifier" rests. */
module Config {
  import opened Wrappers
  import opened Panel
  import opened Text
  import opened Decimal

  datatype NodeEntry = NodeEntry(id: string, enabled: Option<bool>)

  datatype Configuration = Configuration(url: string, token: string, nodes: seq<NodeEntry>, pullInterval: int, reportInterval: int)

  datatype ConfigError = BadUrl | NoToken | EmptyId | DuplicateId(id: string) | NoNode | NegativeInterval

  predicate IsEnabled(n: NodeEntry) {
    n.enabled.None? || n.enabled.value
  }

  predicate IsNumeric(s: string) {
    |s| > 0 && forall i | 0 <= i < |s| :: '0' <= s[i] <= '9'
  }

  /** The identifiers runNode is started for, in order: App.Run starts one worker per enabled node. */
  function Workers(nodes: seq<NodeEntry>): seq<string> {
    if nodes == [] then []
    else Workers(nodes[..|nodes| - 1]) + if IsEnabled(nodes[|nodes| - 1]) then [nodes[|nodes| - 1].id] else []
  }

  function NumericOnes(ids: seq<string>): seq<string> {
    if ids == [] then []
    else NumericOnes(ids[..|ids| - 1]) + if IsNumeric(ids[|ids| - 1]) then [ids[|ids| - 1]] else []
  }

  predicate AllDistinct(ids: seq<string>) {
    forall i, j | 0 <= i < j < |ids| :: ids[i] != ids[j]
  }

  /** What a valid configuration is. */
  predicate Acceptable(c: Configuration) {
    && (HasPrefix(c.url, "http://") || HasPrefix(c.url, "https://"))
    && c.token != ""
    && Workers(c.nodes) != [] && "" !in Workers(c.nodes) && AllDistinct(Workers(c.nodes))
    && c.pullInterval >= 0 && c.reportInterval >= 0
  }

  lemma {:induction false} WorkersPrefix(nodes: seq<NodeEntry>, n: nat)
    requires n <= |nodes|
    ensures Workers(nodes[..n]) <= Workers(nodes)
    decreases |nodes|
  {
    if n < |nodes| {
      assert nodes[..|nodes| - 1][..n] == nodes[..n];
      WorkersPrefix(nodes[..|nodes| - 1], n);
    } else {
      assert nodes[..n] == nodes;
    }
  }

  /** An identifier seen twice, or an empty one, among the first nodes spoils the whole list. */
  lemma Spoiled(nodes: seq<NodeEntry>, n: nat)
    requires n < |nodes| && IsEnabled(nodes[n])
    ensures nodes[n].id == "" ==> "" in Workers(nodes)
    ensures nodes[n].id in Workers(nodes[..n]) ==> !AllDistinct(Workers(nodes))
  {
    assert nodes[..n + 1][..n] == nodes[..n];
    WorkersPrefix(nodes, n + 1);
    var head := Workers(nodes[..n]);
    assert Workers(nodes[..n + 1]) == head + [nodes[n].id];
    assert Workers(nodes)[|head|] == nodes[n].id;
    if nodes[n].id in head {
      var i :| 0 <= i < |head| && head[i] == nodes[n].id;
      assert Workers(nodes)[i] == nodes[n].id;
    }
  }

  lemma WorkersStep(nodes: seq<NodeEntry>, n: nat)
    requires n < |nodes|
    ensures IsEnabled(nodes[n]) ==> Workers(nodes[..n + 1]) == Workers(nodes[..n]) + [nodes[n].id]
    ensures !IsEnabled(nodes[n]) ==> Workers(nodes[..n + 1]) == Workers(nodes[..n])
  {
    assert nodes[..n + 1][..n] == nodes[..n];
  }

  lemma NumericStep(ids: seq<string>, id: string)
    ensures NumericOnes(ids + [id]) == NumericOnes(ids) + if IsNumeric(id) then [id] else []
  {
    assert (ids + [id])[..|ids|] == ids;
  }

  lemma NumericIs(s: string)
    ensures IsNumeric(s) <==> s != "" && AllDigits(s)
  {
    forall i | 0 <= i < |s| ensures '0' <= s[i] <= '9' <==> s[i] in DIGITS {
      DigitsAreDecimal(s[i]);
    }
    assert forall i | 0 <= i < |s| :: s[i] in s;
  }

  /** The identifiers warned of: those of workers that are all digits. */
  lemma {:induction false} NumericOnesAre(ids: seq<string>, id: string)
    ensures id in NumericOnes(ids) <==> id in ids && id != "" && AllDigits(id)
  {
    if ids != [] {
      var init, last := ids[..|ids| - 1], ids[|ids| - 1];
      NumericOnesAre(init, id);
      NumericIs(last);
      assert ids == init + [last];
    }
  }

  /** Node n is run: its flag says so, or there is no flag. */
  predicate Runs(nodes: seq<NodeEntry>, n: nat) {
    n < |nodes| && nodes[n].enabled != Some(false)
  }

  ghost predicate HasWorker(nodes: seq<NodeEntry>, id: string) {
    exists n: nat :: Runs(nodes, n) && nodes[n].id == id
  }

  lemma HasWorkerSnoc(init: seq<NodeEntry>, node: NodeEntry, id: string)
    ensures HasWorker(init + [node], id) <==> HasWorker(init, id) || (node.enabled != Some(false) && node.id == id)
  {
    var nodes := init + [node];
    assert forall m: nat | m < |init| :: nodes[m] == init[m] && (Runs(init, m) <==> Runs(nodes, m));
    assert nodes[|init|] == node && (Runs(nodes, |init|) <==> node.enabled != Some(false));
    if m: nat :| Runs(init, m) && init[m].id == id {
      assert Runs(nodes, m);
    }
  }

  /** The workers are the nodes that run and no others. */
  lemma {:induction false} WorkersAre(nodes: seq<NodeEntry>, id: string)
    ensures id in Workers(nodes) <==> HasWorker(nodes, id)
  {
    if nodes != [] {
      var init, last := nodes[..|nodes| - 1], nodes[|nodes| - 1];
      assert nodes == init + [last];
      WorkersAre(init, id);
      HasWorkerSnoc(init, last, id);
    }
  }

  lemma DistinctSnoc(ids: seq<string>, id: string)
    ensures AllDistinct(ids + [id]) <==> AllDistinct(ids) && id !in ids
  {
    var longer := ids + [id];
    assert longer[|ids|] == id && forall i | 0 <= i < |ids| :: longer[i] == ids[i];
  }

  /** No two nodes that run share an identifier. */
  ghost predicate NoneShared(nodes: seq<NodeEntry>) {
    forall m: nat, n: nat | m < n && Runs(nodes, m) && Runs(nodes, n) :: nodes[m].id != nodes[n].id
  }

  lemma NoneSharedSnoc(init: seq<NodeEntry>, node: NodeEntry)
    ensures NoneShared(init + [node])
            <==> NoneShared(init) && (node.enabled != Some(false) ==> forall m: nat | Runs(init, m) :: init[m].id != node.id)
  {
    var nodes := init + [node];
    assert forall m: nat | m < |init| :: nodes[m] == init[m] && (Runs(init, m) <==> Runs(nodes, m));
    assert nodes[|init|] == node && (Runs(nodes, |init|) <==> node.enabled != Some(false));
    if NoneShared(nodes) && node.enabled != Some(false) {
      forall m: nat | Runs(init, m) ensures init[m].id != node.id {
        assert Runs(nodes, m) && Runs(nodes, |init|);
      }
    }
  }

  /** No identifier has two workers exactly if no two nodes that run share one. */
  lemma {:induction false} DistinctIff(nodes: seq<NodeEntry>)
    ensures AllDistinct(Workers(nodes)) <==> NoneShared(nodes)
  {
    if nodes != [] {
      var init, last := nodes[..|nodes| - 1], nodes[|nodes| - 1];
      assert nodes == init + [last];
      DistinctIff(init);
      NoneSharedSnoc(init, last);
      WorkersAre(init, last.id);
      if last.enabled != Some(false) {
        DistinctSnoc(Workers(init), last.id);
      } else {
        assert Workers(nodes) == Workers(init) + [] == Workers(init);
      }
    }
  }

  /** What Validate asks of the nodes, in the configuration's own terms. */
  lemma AcceptableIff(c: Configuration)
    ensures Acceptable(c)
            <==> && (HasPrefix(c.url, "http://") || HasPrefix(c.url, "https://")) && c.token != ""
                 && (exists n: nat :: Runs(c.nodes, n))
                 && (forall n: nat | Runs(c.nodes, n) :: c.nodes[n].id != "")
                 && NoneShared(c.nodes)
                 && c.pullInterval >= 0 && c.reportInterval >= 0
  {
    WorkersAre(c.nodes, "");
    DistinctIff(c.nodes);
    if n: nat :| Runs(c.nodes, n) {
      WorkersAre(c.nodes, c.nodes[n].id);
    }
    if Workers(c.nodes) != [] {
      WorkersAre(c.nodes, Workers(c.nodes)[0]);
      assert Workers(c.nodes)[0] in Workers(c.nodes);
    }
  }

  /** Validate accepts exactly the acceptable configurations, warning of the numeric identifiers. */
  method Validate(c: Configuration) returns (r: Result<seq<string>, ConfigError>)
    ensures r.Success? <==> Acceptable(c)
    ensures r.Success? ==> r.value == NumericOnes(Workers(c.nodes))
    ensures r.Failure? && r.error.DuplicateId? ==> !AllDistinct(Workers(c.nodes)) && r.error.id in Workers(c.nodes)
  {
    if !HasPrefix(c.url, "http://") && !HasPrefix(c.url, "https://") {
      return Failure(BadUrl);
    }
    if c.token == "" {
      return Failure(NoToken);
    }
    var warnings: seq<string> := [];
    var seen: set<string> := {};
    var enabled := 0;
    for i := 0 to |c.nodes|
      invariant forall id :: id in seen <==> id in Workers(c.nodes[..i])
      invariant enabled == |Workers(c.nodes[..i])| && "" !in seen
      invariant AllDistinct(Workers(c.nodes[..i]))
      invariant warnings == NumericOnes(Workers(c.nodes[..i]))
    {
      var node := c.nodes[i];
      WorkersStep(c.nodes, i);
      if !IsEnabled(node) {
        continue;
      }
      Spoiled(c.nodes, i);
      NumericStep(Workers(c.nodes[..i]), node.id);
      enabled := enabled + 1;
      if node.id == "" {
        return Failure(EmptyId);
      }
      if IsNumeric(node.id) {
        warnings := warnings + [node.id];
      }
      if node.id in seen {
        WorkersPrefix(c.nodes, i);
        return Failure(DuplicateId(node.id));
      }
      seen := seen + {node.id};
    }
    assert c.nodes[..|c.nodes|] == c.nodes;
    if enabled == 0 {
      return Failure(NoNode);
    }
    if c.pullInterval < 0 || c.reportInterval < 0 {
      return Failure(NegativeInterval);
    }
    return Success(warnings);
  }
}
