/** The mieru back end's blocking rules, and how its decisions compare with sing-box's. */
module MieruRoutes {
  import opened Wrappers
  import opened Panel
  import opened Text
  import opened Routes

  datatype BlockRule = BlockRule(domains: seq<string>, cidrs: seq<string>)

  datatype MieruError = Unsupported(id: Int64, action: string) | BadCidr(id: Int64, cidr: string)

  /** A destination: a host name, and an address if one is given and valid. */
  datatype Destination = Destination(fqdn: string, ip: Option<string>)

  /** Which texts netip.ParsePrefix accepts, and which prefixes contain which addresses. */
  datatype Network = Network(parses: string -> bool, contains: (string, string) -> bool)

  predicate IsDirect(route: Route) {
    ToLower(route.action) == "direct"
  }

  predicate IsBlock(route: Route) {
    ToLower(route.action) == "block" || ToLower(route.action) == "reject"
  }

  /** The first CIDR of a match list that does not parse. */
  function FirstBadCidr(raws: seq<string>, net: Network): Option<string> {
    if raws == [] then None
    else
      var before := FirstBadCidr(raws[..|raws| - 1], net);
      var item := ItemOf(raws[|raws| - 1]);
      if before.Some? then before
      else if item.Some? && item.value.Cidr? && !net.parses(item.value.prefix) then Some(item.value.prefix)
      else None
  }

  function Lowered(names: seq<string>): seq<string> {
    seq(|names|, i requires 0 <= i < |names| => ToLower(names[i]))
  }

  function BlockRuleOf(route: Route): BlockRule {
    BlockRule(Lowered(Domains(route.items)), Cidrs(route.items))
  }

  function CompileBlocks(routes: seq<Route>, net: Network): Result<seq<BlockRule>, MieruError> {
    if routes == [] then Success([])
    else
      var last := routes[|routes| - 1];
      match CompileBlocks(routes[..|routes| - 1], net)
      case Failure(e) => Failure(e)
      case Success(rules) =>
        if IsDirect(last) then Success(rules)
        else if !IsBlock(last) then Failure(Unsupported(last.id, last.action))
        else
          var bad := FirstBadCidr(last.items, net);
          if bad.Some? then Failure(BadCidr(last.id, bad.value))
          else
            var rule := BlockRuleOf(last);
            Success(if rule.domains == [] && rule.cidrs == [] then rules else rules + [rule])
  }

  lemma {:induction false} CompileBlocksFailsEarly(routes: seq<Route>, n: nat, net: Network)
    requires n <= |routes| && CompileBlocks(routes[..n], net).Failure?
    ensures CompileBlocks(routes, net) == CompileBlocks(routes[..n], net)
    decreases |routes|
  {
    if n < |routes| {
      assert routes[..|routes| - 1][..n] == routes[..n];
      CompileBlocksFailsEarly(routes[..|routes| - 1], n, net);
    } else {
      assert routes[..n] == routes;
    }
  }

  lemma {:induction false} BadCidrStays(raws: seq<string>, n: nat, net: Network)
    requires n <= |raws| && FirstBadCidr(raws[..n], net).Some?
    ensures FirstBadCidr(raws, net) == FirstBadCidr(raws[..n], net)
    decreases |raws|
  {
    if n < |raws| {
      assert raws[..|raws| - 1][..n] == raws[..n];
      BadCidrStays(raws[..|raws| - 1], n, net);
    } else {
      assert raws[..n] == raws;
    }
  }

  /** What one more item adds to the compiled rule. */
  lemma ItemStep(raws: seq<string>, j: nat, net: Network)
    requires j < |raws| && FirstBadCidr(raws[..j], net).None?
    ensures var value, d, c := Clean(raws[j]), Lowered(Domains(raws[..j])), Cidrs(raws[..j]);
            && Lowered(Domains(raws[..j + 1])) == (if value == "" || '/' in value then d else d + [ToLower(value)])
            && Cidrs(raws[..j + 1]) == (if value != "" && '/' in value then c + [value] else c)
            && FirstBadCidr(raws[..j + 1], net)
               == if value != "" && '/' in value && !net.parses(value) then Some(value) else None
  {
    assert raws[..j + 1][..j] == raws[..j];
  }

  /** The inner loop of compileRoutes over one match list. */
  method CompileItems(raws: seq<string>, net: Network) returns (bad: Option<string>, rule: BlockRule)
    ensures bad == FirstBadCidr(raws, net)
    ensures bad.None? ==> rule == BlockRule(Lowered(Domains(raws)), Cidrs(raws))
  {
    var domains, cidrs := [], [];
    for j := 0 to |raws|
      invariant FirstBadCidr(raws[..j], net).None?
      invariant domains == Lowered(Domains(raws[..j])) && cidrs == Cidrs(raws[..j])
    {
      ItemStep(raws, j, net);
      var value := Clean(raws[j]);
      if value == "" {
      } else if '/' in value {
        if !net.parses(value) {
          BadCidrStays(raws, j + 1, net);
          return Some(value), BlockRule(domains, cidrs);
        }
        cidrs := cidrs + [value];
      } else {
        domains := domains + [ToLower(value)];
      }
    }
    assert raws[..|raws|] == raws;
    return None, BlockRule(domains, cidrs);
  }

  /** compileRoutes. */
  method CompileRoutes(routes: seq<Route>, net: Network) returns (r: Result<seq<BlockRule>, MieruError>)
    ensures r == CompileBlocks(routes, net)
  {
    var result: seq<BlockRule> := [];
    for i := 0 to |routes|
      invariant CompileBlocks(routes[..i], net) == Success(result)
    {
      var route := routes[i];
      assert routes[..i + 1][..i] == routes[..i];
      if IsDirect(route) {
        continue;
      }
      if !IsBlock(route) {
        CompileBlocksFailsEarly(routes, i + 1, net);
        return Failure(Unsupported(route.id, route.action));
      }
      var bad, rule := CompileItems(route.items, net);
      if bad.Some? {
        CompileBlocksFailsEarly(routes, i + 1, net);
        return Failure(BadCidr(route.id, bad.value));
      }
      if |rule.domains| > 0 || |rule.cidrs| > 0 {
        result := result + [rule];
      }
    }
    assert routes[..|routes|] == routes;
    return Success(result);
  }

  /** The source's domain test, on a host already lowered. */
  predicate NameMatches(host: string, domain: string) {
    host == domain || HasSuffix(host, "." + domain)
  }

  predicate RuleMatches(rule: BlockRule, dst: Destination, net: Network) {
    || (exists d | d in rule.domains :: NameMatches(ToLower(dst.fqdn), d))
    || (dst.ip.Some? && exists c | c in rule.cidrs :: net.contains(c, dst.ip.value))
  }

  predicate IsBlocked(rules: seq<BlockRule>, dst: Destination, net: Network) {
    exists r | r in rules :: RuleMatches(r, dst, net)
  }

  /** blocked: nested loops that stop at the first match. */
  method Blocked(rules: seq<BlockRule>, dst: Destination, net: Network) returns (yes: bool)
    ensures yes <==> IsBlocked(rules, dst, net)
  {
    var host := ToLower(dst.fqdn);
    for i := 0 to |rules|
      invariant forall k | 0 <= k < i :: !RuleMatches(rules[k], dst, net)
    {
      var rule := rules[i];
      for j := 0 to |rule.domains|
        invariant forall k | 0 <= k < j :: !NameMatches(host, rule.domains[k])
      {
        if host == rule.domains[j] || HasSuffix(host, "." + rule.domains[j]) {
          assert NameMatches(host, rule.domains[j]) && rule in rules;
          return true;
        }
      }
      for j := 0 to |rule.cidrs|
        invariant dst.ip.Some? ==> forall k | 0 <= k < j :: !net.contains(rule.cidrs[k], dst.ip.value)
      {
        if dst.ip.Some? && net.contains(rule.cidrs[j], dst.ip.value) {
          assert rule in rules;
          return true;
        }
      }
    }
    return false;
  }

  /** What it means for an item to match a destination: label suffix for names, containment for prefixes. */
  predicate ItemHits(item: Item, dst: Destination, net: Network) {
    match item
    case Domain(name) => IsLabelSuffix(Labels(ToLower(dst.fqdn)), Labels(ToLower(name)))
    case Cidr(prefix) => dst.ip.Some? && net.contains(prefix, dst.ip.value)
  }

  function Hits(dst: Destination, net: Network): Item -> bool {
    (item: Item) => ItemHits(item, dst, net)
  }

  lemma LoweredMember(names: seq<string>, n: string)
    ensures n in Lowered(names) <==> exists d | d in names :: ToLower(d) == n
  {
    if n in Lowered(names) {
      var i :| 0 <= i < |Lowered(names)| && Lowered(names)[i] == n;
      assert ToLower(names[i]) == n && names[i] in names;
    }
    if d :| d in names && ToLower(d) == n {
      var i :| 0 <= i < |names| && names[i] == d;
      assert Lowered(names)[i] == n;
    }
  }

  lemma DomainsMeaning(raws: seq<string>, dst: Destination, net: Network)
    ensures (exists d | d in Lowered(Domains(raws)) :: NameMatches(ToLower(dst.fqdn), d))
            <==> exists name | name in Domains(raws) :: Hits(dst, net)(Domain(name))
  {
    var host, hit := ToLower(dst.fqdn), Hits(dst, net);
    if d :| d in Lowered(Domains(raws)) && NameMatches(host, d) {
      LoweredMember(Domains(raws), d);
      var name :| name in Domains(raws) && ToLower(name) == d;
      SuffixTestIsLabelSuffix(host, d);
      assert hit(Domain(name));
    }
    if name :| name in Domains(raws) && hit(Domain(name)) {
      LoweredMember(Domains(raws), ToLower(name));
      SuffixTestIsLabelSuffix(host, ToLower(name));
      assert NameMatches(host, ToLower(name));
    }
  }

  lemma CidrsMeaning(raws: seq<string>, dst: Destination, net: Network)
    ensures (dst.ip.Some? && exists c | c in Cidrs(raws) :: net.contains(c, dst.ip.value))
            <==> exists c | c in Cidrs(raws) :: Hits(dst, net)(Cidr(c))
  {
    var hit := Hits(dst, net);
    if dst.ip.Some? {
      forall c | c in Cidrs(raws) ensures hit(Cidr(c)) <==> net.contains(c, dst.ip.value) {
      }
    }
  }

  /** One block route: its rule matches exactly if some item of the route matches. */
  lemma BlockRuleMeaning(route: Route, dst: Destination, net: Network)
    ensures RuleMatches(BlockRuleOf(route), dst, net) <==> AnyItem(route.items, Hits(dst, net))
  {
    AnyItemSplit(route.items, Hits(dst, net));
    DomainsMeaning(route.items, dst, net);
    CidrsMeaning(route.items, dst, net);
  }

  /** Some block route of a list has a matching item. */
  ghost predicate SomeBlockMatches(routes: seq<Route>, hit: Item -> bool) {
    exists i :: 0 <= i < |routes| && ToLower(routes[i].action) in {"block", "reject"} && AnyItem(routes[i].items, hit)
  }

  lemma SomeBlockMatchesInit(routes: seq<Route>, hit: Item -> bool)
    requires routes != []
    ensures SomeBlockMatches(routes, hit)
            <==> SomeBlockMatches(routes[..|routes| - 1], hit)
                 || (IsBlock(routes[|routes| - 1]) && AnyItem(routes[|routes| - 1].items, hit))
  {
    var init := routes[..|routes| - 1];
    if SomeBlockMatches(routes, hit) {
      var i :| 0 <= i < |routes| && IsBlock(routes[i]) && AnyItem(routes[i].items, hit);
      if i < |init| {
        assert IsBlock(init[i]) && AnyItem(init[i].items, hit);
      }
    }
    if SomeBlockMatches(init, hit) {
      var i :| 0 <= i < |init| && IsBlock(init[i]) && AnyItem(init[i].items, hit);
      assert IsBlock(routes[i]) && AnyItem(routes[i].items, hit);
    }
  }

  lemma EmptyRuleMatchesNothing(rule: BlockRule, dst: Destination, net: Network)
    requires rule.domains == [] && rule.cidrs == []
    ensures !RuleMatches(rule, dst, net)
  {
  }

  lemma IsBlockedAppend(rules: seq<BlockRule>, rule: BlockRule, dst: Destination, net: Network)
    ensures IsBlocked(rules + [rule], dst, net) <==> IsBlocked(rules, dst, net) || RuleMatches(rule, dst, net)
  {
    assert rule in rules + [rule];
    assert forall r | r in rules :: r in rules + [rule];
  }

  /**
   Blocking is sound and complete: a destination is blocked exactly if some block or reject route has an
   item that matches it, where a domain matches the names its labels are a suffix of.
   */
  lemma {:induction false} BlockingExact(routes: seq<Route>, dst: Destination, net: Network)
    requires CompileBlocks(routes, net).Success?
    ensures IsBlocked(CompileBlocks(routes, net).value, dst, net) <==> SomeBlockMatches(routes, Hits(dst, net))
  {
    if routes != [] {
      var init, last := routes[..|routes| - 1], routes[|routes| - 1];
      BlockingExact(init, dst, net);
      SomeBlockMatchesInit(routes, Hits(dst, net));
      BlockRuleMeaning(last, dst, net);
      IsBlockedAppend(CompileBlocks(init, net).value, BlockRuleOf(last), dst, net);
      if BlockRuleOf(last).domains == [] && BlockRuleOf(last).cidrs == [] {
        EmptyRuleMatchesNothing(BlockRuleOf(last), dst, net);
      }
    }
  }

  /** mieru accepts direct and block routes only, so sing-box accepts whatever it accepts. */
  lemma {:induction false} AcceptedByBoth(routes: seq<Route>, net: Network)
    requires CompileBlocks(routes, net).Success?
    ensures Compile(routes).Success?
    ensures forall i | 0 <= i < |routes| :: IsDirect(routes[i]) || IsBlock(routes[i])
  {
    if routes != [] {
      AcceptedByBoth(routes[..|routes| - 1], net);
      assert forall i | 0 <= i < |routes| - 1 :: routes[..|routes| - 1][i] == routes[i];
    }
  }

  /** No block route among the first ones has a matching item. */
  ghost predicate NoBlockBefore(routes: seq<Route>, i: nat, hit: Item -> bool)
    requires i <= |routes|
  {
    forall j | 0 <= j < i :: IsBlock(routes[j]) ==> !AnyItem(routes[j].items, hit)
  }

  ghost predicate DirectAt(routes: seq<Route>, i: nat, hit: Item -> bool) {
    i < |routes| && IsDirect(routes[i]) && AnyItem(routes[i].items, hit) && NoBlockBefore(routes, i, hit)
  }

  /** A direct route matches before any block route does. */
  ghost predicate DirectFirst(routes: seq<Route>, hit: Item -> bool) {
    exists i: nat :: DirectAt(routes, i, hit)
  }

  lemma {:induction false} FirstRouteBlocksIff(routes: seq<Route>, hit: Item -> bool)
    requires forall i | 0 <= i < |routes| :: IsDirect(routes[i]) || IsBlock(routes[i])
    ensures AllUsable(routes)
    ensures FirstRoute(routes, hit) == Some("block") <==> SomeBlockMatches(routes, hit) && !DirectFirst(routes, hit)
  {
    if routes != [] {
      var rest := routes[1..];
      FirstRouteBlocksIff(rest, hit);
      assert forall i | 0 <= i < |rest| :: rest[i] == routes[i + 1];
      assert forall i | 0 < i < |routes| :: routes[i] == rest[i - 1];
      if AnyItem(routes[0].items, hit) {
        FirstDecides(routes, hit);
      } else {
        SkipFirst(routes, hit);
      }
    }
  }

  lemma FirstDecides(routes: seq<Route>, hit: Item -> bool)
    requires routes != [] && AnyItem(routes[0].items, hit) && (IsDirect(routes[0]) || IsBlock(routes[0]))
    ensures IsDirect(routes[0]) ==> DirectFirst(routes, hit)
    ensures IsBlock(routes[0]) ==> SomeBlockMatches(routes, hit) && !DirectFirst(routes, hit)
  {
    if IsDirect(routes[0]) {
      assert DirectAt(routes, 0, hit);
    }
  }

  lemma ShiftDirect(routes: seq<Route>, i: nat, hit: Item -> bool)
    requires routes != [] && !AnyItem(routes[0].items, hit) && i < |routes| - 1
    ensures DirectAt(routes, i + 1, hit) <==> DirectAt(routes[1..], i, hit)
  {
    var rest := routes[1..];
    if NoBlockBefore(routes, i + 1, hit) {
      forall j | 0 <= j < i && IsBlock(rest[j])
        ensures !AnyItem(rest[j].items, hit)
      {
        assert rest[j] == routes[j + 1];
      }
    }
    if NoBlockBefore(rest, i, hit) {
      forall j | 0 <= j < i + 1 && IsBlock(routes[j])
        ensures !AnyItem(routes[j].items, hit)
      {
        if j > 0 {
          assert routes[j] == rest[j - 1];
        }
      }
    }
  }

  lemma SkipFirst(routes: seq<Route>, hit: Item -> bool)
    requires routes != [] && !AnyItem(routes[0].items, hit)
    ensures SomeBlockMatches(routes, hit) <==> SomeBlockMatches(routes[1..], hit)
    ensures DirectFirst(routes, hit) <==> DirectFirst(routes[1..], hit)
  {
    var rest := routes[1..];
    if SomeBlockMatches(routes, hit) {
      var i :| 0 <= i < |routes| && IsBlock(routes[i]) && AnyItem(routes[i].items, hit);
      assert IsBlock(rest[i - 1]) && AnyItem(rest[i - 1].items, hit);
    }
    if SomeBlockMatches(rest, hit) {
      var i :| 0 <= i < |rest| && IsBlock(rest[i]) && AnyItem(rest[i].items, hit);
      assert IsBlock(routes[i + 1]) && AnyItem(routes[i + 1].items, hit);
    }
    if DirectFirst(routes, hit) {
      var i: nat :| DirectAt(routes, i, hit);
      ShiftDirect(routes, i - 1, hit);
    }
    if DirectFirst(rest, hit) {
      var i: nat :| DirectAt(rest, i, hit);
      ShiftDirect(routes, i, hit);
    }
  }

  /**
   The two back ends on one route list and one notion of matching. What sing-box blocks mieru blocks, and
   sing-box blocks what mieru blocks exactly unless a direct route matches before any block route does.
   */
  lemma BackEndsCompared(routes: seq<Route>, dst: Destination, net: Network, decide: string -> Option<string>)
    requires CompileBlocks(routes, net).Success?
    ensures Compile(routes).Success?
    ensures Send(Compile(routes).value, Hits(dst, net), decide) == "block"
            <==> IsBlocked(CompileBlocks(routes, net).value, dst, net) && !DirectFirst(routes, Hits(dst, net))
  {
    AcceptedByBoth(routes, net);
    BlockingExact(routes, dst, net);
    CompiledMeaning(routes, Hits(dst, net), decide);
    FirstRouteBlocksIff(routes, Hits(dst, net));
  }

  /** An entry whose CIDR does not parse. */
  predicate BadEntry(raw: string, net: Network) {
    ItemOf(raw).Some? && ItemOf(raw).value.Cidr? && !net.parses(ItemOf(raw).value.prefix)
  }

  predicate FirstBad(raws: seq<string>, i: nat, cidr: string, net: Network) {
    && i < |raws| && BadEntry(raws[i], net) && ItemOf(raws[i]).value.prefix == cidr
    && forall j | 0 <= j < i :: !BadEntry(raws[j], net)
  }

  lemma FirstBadCidrSnoc(init: seq<string>, raw: string, net: Network)
    ensures FirstBadCidr(init + [raw], net)
            == if FirstBadCidr(init, net).Some? then FirstBadCidr(init, net)
               else if BadEntry(raw, net) then Some(ItemOf(raw).value.prefix) else None
  {
    assert (init + [raw])[..|init|] == init;
  }

  lemma {:induction false} FirstBadCidrIs(raws: seq<string>, net: Network)
    ensures FirstBadCidr(raws, net).None? <==> forall i | 0 <= i < |raws| :: !BadEntry(raws[i], net)
    ensures FirstBadCidr(raws, net).Some? ==> exists i: nat :: FirstBad(raws, i, FirstBadCidr(raws, net).value, net)
  {
    if raws != [] {
      var init, n := raws[..|raws| - 1], |raws| - 1;
      FirstBadCidrIs(init, net);
      assert raws == init + [raws[n]] && forall j | 0 <= j < n :: raws[j] == init[j];
      FirstBadCidrSnoc(init, raws[n], net);
      if FirstBadCidr(init, net).Some? {
        var i: nat :| FirstBad(init, i, FirstBadCidr(init, net).value, net);
        assert FirstBad(raws, i, FirstBadCidr(raws, net).value, net);
      } else if BadEntry(raws[n], net) {
        assert FirstBad(raws, n, FirstBadCidr(raws, net).value, net);
      }
    }
  }

  /** The routes mieru takes: direct ones, and block or reject ones whose CIDRs all parse. */
  predicate Takes(route: Route, net: Network) {
    || ToLower(route.action) == "direct"
    || (ToLower(route.action) in {"block", "reject"} && forall i | 0 <= i < |route.items| :: !BadEntry(route.items[i], net))
  }

  ghost predicate Refuses(route: Route, e: MieruError, net: Network) {
    match e
    case Unsupported(id, action) => id == route.id && action == route.action && ToLower(action) !in {"direct", "block", "reject"}
    case BadCidr(id, cidr) =>
      && id == route.id && ToLower(route.action) in {"block", "reject"}
      && exists i: nat :: FirstBad(route.items, i, cidr, net)
  }

  ghost predicate FirstRefused(routes: seq<Route>, i: nat, e: MieruError, net: Network) {
    i < |routes| && Refuses(routes[i], e, net) && forall j | 0 <= j < i :: Takes(routes[j], net)
  }

  lemma TakesIs(init: seq<Route>, last: Route, net: Network)
    requires CompileBlocks(init, net).Success?
    ensures var r := CompileBlocks(init + [last], net);
            && (r.Success? <==> Takes(last, net))
            && (r.Failure? ==> Refuses(last, r.error, net))
  {
    assert (init + [last])[..|init|] == init;
    FirstBadCidrIs(last.items, net);
  }

  /** A list is accepted exactly if every route is one mieru takes; otherwise the error is that of the first it does not. */
  lemma {:induction false} AcceptsIff(routes: seq<Route>, net: Network)
    ensures CompileBlocks(routes, net).Success? <==> forall i | 0 <= i < |routes| :: Takes(routes[i], net)
    ensures CompileBlocks(routes, net).Failure? ==> exists i: nat :: FirstRefused(routes, i, CompileBlocks(routes, net).error, net)
  {
    if routes != [] {
      var init, n := routes[..|routes| - 1], |routes| - 1;
      AcceptsIff(init, net);
      assert routes == init + [routes[n]] && forall j | 0 <= j < n :: routes[j] == init[j];
      if CompileBlocks(init, net).Failure? {
        CompileBlocksFailsEarly(routes, n, net);
        var i: nat :| FirstRefused(init, i, CompileBlocks(init, net).error, net);
        assert FirstRefused(routes, i, CompileBlocks(routes, net).error, net);
      } else {
        TakesIs(init, routes[n], net);
        if CompileBlocks(routes, net).Failure? {
          assert FirstRefused(routes, n, CompileBlocks(routes, net).error, net);
        }
      }
    }
  }

  /**
   A block route with one domain, however its entry is spelled, blocks exactly the hosts whose labels end in the
   domain's, letter case aside; one whose entry spells nothing blocks no destination at all.
   */
  lemma DomainEntryBlocks(route: Route, raw: string, d: string, dst: Destination, net: Network)
    requires route.items == [raw] && ToLower(route.action) in {"block", "reject"}
    requires Spells(raw, d) && Trimmed(d) && '/' !in d
    ensures CompileBlocks([route], net).Success?
    ensures d != "" ==> (IsBlocked(CompileBlocks([route], net).value, dst, net)
                         <==> IsLabelSuffix(Labels(ToLower(dst.fqdn)), Labels(ToLower(d))))
    ensures d == "" ==> !IsBlocked(CompileBlocks([route], net).value, dst, net)
  {
    ItemSpelled(raw, d);
    AcceptsIff([route], net);
    BlockingExact([route], dst, net);
    OneRouteBlocks(route, Hits(dst, net));
  }

  /** One with a CIDR blocks exactly the destinations whose address is given and lies in it, if the CIDR parses. */
  lemma CidrEntryBlocks(route: Route, raw: string, cidr: string, dst: Destination, net: Network)
    requires route.items == [raw] && ToLower(route.action) in {"block", "reject"}
    requires Spells(raw, cidr) && Trimmed(cidr) && '/' in cidr
    ensures CompileBlocks([route], net).Success? <==> net.parses(cidr)
    ensures net.parses(cidr) ==> (IsBlocked(CompileBlocks([route], net).value, dst, net)
                                  <==> dst.ip.Some? && net.contains(cidr, dst.ip.value))
  {
    ItemSpelled(raw, cidr);
    AcceptsIff([route], net);
    if net.parses(cidr) {
      BlockingExact([route], dst, net);
      OneRouteBlocks(route, Hits(dst, net));
    }
  }

  lemma OneRouteBlocks(route: Route, hit: Item -> bool)
    requires |route.items| == 1 && ToLower(route.action) in {"block", "reject"}
    ensures SomeBlockMatches([route], hit) <==> ItemOf(route.items[0]).Some? && hit(ItemOf(route.items[0]).value)
  {
    assert AnyItem(route.items, hit) <==> ItemOf(route.items[0]).Some? && hit(ItemOf(route.items[0]).value);
    if AnyItem(route.items, hit) {
      assert AnyItem([route][0].items, hit);
    }
  }

  /** The spellings of a domain that is free of white space around it and has no leading wildcard. */
  lemma Spellings(d: string, blanks: string)
    requires Blank(blanks)
    ensures Spells("*." + d, d) && Spells("*." + d + blanks, d)
    ensures !HasPrefix(d + blanks, "*.") ==> Spells(d + blanks, d)
    ensures !HasPrefix(blanks + d, "*.") ==> Spells(blanks + d, d)
  {
    assert "" + d + "" == d && "" + d + blanks == d + blanks && blanks + d + "" == blanks + d;
    assert "*." + d + blanks == "*." + ("" + d + blanks);
    assert SpelledWith("*." + d, d, "", "") && SpelledWith("*." + d + blanks, d, "", blanks);
    if !HasPrefix(d + blanks, "*.") {
      assert SpelledWith(d + blanks, d, "", blanks);
    }
    if !HasPrefix(blanks + d, "*.") {
      assert SpelledWith(blanks + d, d, blanks, "");
    }
  }
}
