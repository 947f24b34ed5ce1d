/** The panel's routes compiled to sing-box rules, and what first-match evaluation makes of both. */
module Routes {
  import opened Wrappers
  import opened Panel
  import opened Text

  datatype RouteError = MissingTag(id: Int64) | BadAction(id: Int64, action: string)

  /** The outbound a route's action names. */
  function Outbound(route: Route): Result<string, RouteError> {
    var action := ToLower(route.action);
    if action == "direct" then Success("direct")
    else if action == "block" || action == "reject" then Success("block")
    else if action == "proxy" then
      if route.actionValue == "" then Failure(MissingTag(route.id)) else Success(route.actionValue)
    else Failure(BadAction(route.id, route.action))
  }

  /** One entry of a route's match list, cleaned; blank entries are dropped. */
  datatype Item = Domain(name: string) | Cidr(prefix: string)

  function Clean(raw: string): string {
    TrimSpace(TrimPrefix(raw, "*."))
  }

  function ItemOf(raw: string): Option<Item> {
    var item := Clean(raw);
    if item == "" then None
    else if '/' in item then Some(Cidr(item))
    else Some(Domain(item))
  }

  predicate SpelledWith(raw: string, d: string, pre: string, post: string) {
    Blank(pre) && Blank(post) && (raw == "*." + (pre + d + post) || (raw == pre + d + post && !HasPrefix(raw, "*.")))
  }

  /** A match list entry that means d: d itself, or "*." and d, with any white space around d. */
  ghost predicate Spells(raw: string, d: string) {
    exists pre, post :: SpelledWith(raw, d, pre, post)
  }

  /** Entries are read for what they spell; those that spell nothing, "*." alone included, are dropped. */
  lemma ItemSpelled(raw: string, d: string)
    requires Spells(raw, d) && Trimmed(d)
    ensures ItemOf(raw) == if d == "" then None else if '/' in d then Some(Cidr(d)) else Some(Domain(d))
  {
    var pre, post :| SpelledWith(raw, d, pre, post);
    TrimSpaceIs(pre, d, post);
    assert raw == "*." + (pre + d + post) ==> TrimPrefix(raw, "*.") == pre + d + post;
  }

  function Domains(raws: seq<string>): seq<string> {
    if raws == [] then []
    else
      var item := ItemOf(raws[|raws| - 1]);
      Domains(raws[..|raws| - 1]) + if item.Some? && item.value.Domain? then [item.value.name] else []
  }

  function Cidrs(raws: seq<string>): seq<string> {
    if raws == [] then []
    else
      var item := ItemOf(raws[|raws| - 1]);
      Cidrs(raws[..|raws| - 1]) + if item.Some? && item.value.Cidr? then [item.value.prefix] else []
  }

  /** A compiled rule, or one of the panel's custom rules, kept as its text. */
  datatype Rule = DomainRule(domains: seq<string>, outbound: string) | CidrRule(cidrs: seq<string>, outbound: string) | CustomRule(text: string)

  function RulesOf(route: Route, outbound: string): seq<Rule> {
    (if Domains(route.items) == [] then [] else [DomainRule(Domains(route.items), outbound)])
    + (if Cidrs(route.items) == [] then [] else [CidrRule(Cidrs(route.items), outbound)])
  }

  function Compile(routes: seq<Route>): Result<seq<Rule>, RouteError> {
    if routes == [] then Success([])
    else
      var last := routes[|routes| - 1];
      match Compile(routes[..|routes| - 1])
      case Failure(e) => Failure(e)
      case Success(rules) =>
        match Outbound(last)
        case Failure(e) => Failure(e)
        case Success(outbound) => Success(rules + RulesOf(last, outbound))
  }

  lemma CompileSnoc(routes: seq<Route>, last: Route)
    ensures Compile(routes + [last]).Success? <==> Compile(routes).Success? && Outbound(last).Success?
    ensures Compile(routes + [last]).Success?
            ==> Compile(routes + [last]).value == Compile(routes).value + RulesOf(last, Outbound(last).value)
  {
    assert (routes + [last])[..|routes|] == routes;
  }

  /** The inner loop of compilePanelRoutes over one match list. */
  method SplitItems(raws: seq<string>) returns (domains: seq<string>, cidrs: seq<string>)
    ensures domains == Domains(raws) && cidrs == Cidrs(raws)
  {
    domains, cidrs := [], [];
    for j := 0 to |raws|
      invariant domains == Domains(raws[..j]) && cidrs == Cidrs(raws[..j])
    {
      assert raws[..j + 1][..j] == raws[..j];
      var item := Clean(raws[j]);
      if item == "" {
      } else if '/' in item {
        cidrs := cidrs + [item];
      } else {
        domains := domains + [item];
      }
    }
    assert raws[..|raws|] == raws;
  }

  /** compilePanelRoutes. */
  method CompilePanelRoutes(routes: seq<Route>) returns (r: Result<seq<Rule>, RouteError>)
    ensures r == Compile(routes)
  {
    var result: seq<Rule> := [];
    for i := 0 to |routes|
      invariant Compile(routes[..i]) == Success(result)
    {
      var route := routes[i];
      assert routes[..i + 1] == routes[..i] + [route];
      CompileSnoc(routes[..i], route);
      var outbound := Outbound(route);
      if outbound.Failure? {
        CompileErrorSnoc(routes[..i], route);
        CompileFailsEarly(routes, i + 1);
        return Failure(outbound.error);
      }
      var domains, cidrs := SplitItems(route.items);
      ghost var before := result;
      if |domains| > 0 {
        result := result + [DomainRule(domains, outbound.value)];
      }
      if |cidrs| > 0 {
        result := result + [CidrRule(cidrs, outbound.value)];
      }
      assert result == before + RulesOf(route, outbound.value);
    }
    assert routes[..|routes|] == routes;
    return Success(result);
  }

  lemma CompileErrorSnoc(routes: seq<Route>, last: Route)
    requires Compile(routes).Success? && Outbound(last).Failure?
    ensures Compile(routes + [last]) == Failure(Outbound(last).error)
  {
    assert (routes + [last])[..|routes|] == routes;
  }

  lemma {:induction false} CompileFailsEarly(routes: seq<Route>, n: nat)
    requires n <= |routes| && Compile(routes[..n]).Failure?
    ensures Compile(routes) == Compile(routes[..n])
    decreases |routes|
  {
    if n < |routes| {
      assert routes[..|routes| - 1][..n] == routes[..n];
      CompileFailsEarly(routes[..|routes| - 1], n);
    } else {
      assert routes[..n] == routes;
    }
  }

  /** The actions a route may have, and what is wrong with one that does not. */
  predicate Accepts(route: Route) {
    || ToLower(route.action) in {"direct", "block", "reject"}
    || (ToLower(route.action) == "proxy" && route.actionValue != "")
  }

  predicate Offends(route: Route, e: RouteError) {
    || (e == MissingTag(route.id) && ToLower(route.action) == "proxy" && route.actionValue == "")
    || (e == BadAction(route.id, route.action) && ToLower(route.action) !in {"direct", "block", "reject", "proxy"})
  }

  lemma OutboundIs(route: Route)
    ensures Outbound(route).Success? <==> Accepts(route)
    ensures Outbound(route).Failure? ==> Offends(route, Outbound(route).error)
  {
  }

  predicate FirstUnusable(routes: seq<Route>, i: nat, e: RouteError) {
    i < |routes| && Offends(routes[i], e) && forall j | 0 <= j < i :: Accepts(routes[j])
  }

  predicate AllUsable(routes: seq<Route>) {
    forall i | 0 <= i < |routes| :: Outbound(routes[i]).Success?
  }

  lemma AllUsableInit(routes: seq<Route>)
    requires routes != []
    ensures AllUsable(routes) <==> AllUsable(routes[..|routes| - 1]) && Outbound(routes[|routes| - 1]).Success?
  {
    var init := routes[..|routes| - 1];
    assert forall i | 0 <= i < |init| :: init[i] == routes[i];
  }

  /** A route list compiles exactly if every action is usable. */
  lemma {:induction false} CompilesIff(routes: seq<Route>)
    ensures Compile(routes).Success? <==> AllUsable(routes)
    ensures Compile(routes).Success? <==> forall r | r in routes :: Accepts(r)
  {
    forall i | 0 <= i < |routes| ensures Outbound(routes[i]).Success? <==> Accepts(routes[i]) {
      OutboundIs(routes[i]);
    }
    if routes != [] {
      CompilesIff(routes[..|routes| - 1]);
      AllUsableInit(routes);
    }
  }

  /** Otherwise the error names the first route that is not. */
  lemma {:induction false} CompileErrorIsFirst(routes: seq<Route>)
    requires Compile(routes).Failure?
    ensures exists i: nat :: FirstUnusable(routes, i, Compile(routes).error)
  {
    var init, n := routes[..|routes| - 1], |routes| - 1;
    var i: nat := n;
    assert forall j | 0 <= j < n :: init[j] == routes[j];
    if Compile(init).Failure? {
      CompileErrorIsFirst(init);
      i :| FirstUnusable(init, i, Compile(init).error);
    } else {
      CompilesIff(init);
      OutboundIs(routes[n]);
      assert forall j | 0 <= j < n :: init[j] in init;
    }
    assert FirstUnusable(routes, i, Compile(routes).error);
  }

  /** Whether some entry of a match list matches, for any notion of an item matching. */
  predicate AnyItem(raws: seq<string>, hit: Item -> bool) {
    exists i :: 0 <= i < |raws| && ItemOf(raws[i]).Some? && hit(ItemOf(raws[i]).value)
  }

  /** What a rule decides about a destination; custom rules decide as they please. */
  function Decide(rule: Rule, hit: Item -> bool, custom: string -> Option<string>): Option<string> {
    match rule
    case DomainRule(domains, outbound) => if exists d | d in domains :: hit(Domain(d)) then Some(outbound) else None
    case CidrRule(cidrs, outbound) => if exists c | c in cidrs :: hit(Cidr(c)) then Some(outbound) else None
    case CustomRule(text) => custom(text)
  }

  function FirstMatch(rules: seq<Rule>, hit: Item -> bool, custom: string -> Option<string>): Option<string> {
    if rules == [] then None
    else
      var first := Decide(rules[0], hit, custom);
      if first.Some? then first else FirstMatch(rules[1..], hit, custom)
  }

  /** The rule list `build` installs, and how it sends a destination; "direct" is the final outbound. */
  function Installed(custom: seq<string>, rules: seq<Rule>): seq<Rule> {
    seq(|custom|, i requires 0 <= i < |custom| => CustomRule(custom[i])) + rules
  }

  function Send(rules: seq<Rule>, hit: Item -> bool, custom: string -> Option<string>): string {
    var decision := FirstMatch(rules, hit, custom);
    if decision.Some? then decision.value else "direct"
  }

  /** The panel's routes read directly: the first route with a matching item decides. */
  ghost function FirstRoute(routes: seq<Route>, hit: Item -> bool): Option<string>
    requires AllUsable(routes)
  {
    if routes == [] then None
    else if AnyItem(routes[0].items, hit) then Some(Outbound(routes[0]).value)
    else FirstRoute(routes[1..], hit)
  }

  function FirstCustom(custom: seq<string>, decide: string -> Option<string>): Option<string> {
    if custom == [] then None
    else if decide(custom[0]).Some? then decide(custom[0])
    else FirstCustom(custom[1..], decide)
  }

  lemma {:induction false} FirstMatchAppend(a: seq<Rule>, b: seq<Rule>, hit: Item -> bool, custom: string -> Option<string>)
    ensures FirstMatch(a + b, hit, custom)
            == if FirstMatch(a, hit, custom).Some? then FirstMatch(a, hit, custom) else FirstMatch(b, hit, custom)
  {
    if a == [] {
      assert a + b == b;
    } else {
      assert (a + b)[1..] == a[1..] + b;
      FirstMatchAppend(a[1..], b, hit, custom);
    }
  }

  ghost predicate HasItem(raws: seq<string>, item: Item) {
    exists i :: 0 <= i < |raws| && ItemOf(raws[i]) == Some(item)
  }

  lemma HasItemInit(raws: seq<string>, item: Item)
    requires raws != []
    ensures HasItem(raws, item) <==> HasItem(raws[..|raws| - 1], item) || ItemOf(raws[|raws| - 1]) == Some(item)
  {
    var init := raws[..|raws| - 1];
    if HasItem(raws, item) {
      var i :| 0 <= i < |raws| && ItemOf(raws[i]) == Some(item);
      if i < |raws| - 1 {
        assert ItemOf(init[i]) == Some(item);
      }
    }
    if HasItem(init, item) {
      var i :| 0 <= i < |init| && ItemOf(init[i]) == Some(item);
      assert ItemOf(raws[i]) == Some(item);
    }
  }

  lemma {:induction false} DomainListed(raws: seq<string>, d: string)
    ensures d in Domains(raws) <==> HasItem(raws, Domain(d))
  {
    if raws != [] {
      DomainListed(raws[..|raws| - 1], d);
      HasItemInit(raws, Domain(d));
    }
  }

  lemma {:induction false} CidrListed(raws: seq<string>, c: string)
    ensures c in Cidrs(raws) <==> HasItem(raws, Cidr(c))
  {
    if raws != [] {
      CidrListed(raws[..|raws| - 1], c);
      HasItemInit(raws, Cidr(c));
    }
  }

  lemma AnyItemSplit(raws: seq<string>, hit: Item -> bool)
    ensures AnyItem(raws, hit) <==> (exists d | d in Domains(raws) :: hit(Domain(d))) || (exists c | c in Cidrs(raws) :: hit(Cidr(c)))
  {
    if AnyItem(raws, hit) {
      var i :| 0 <= i < |raws| && ItemOf(raws[i]).Some? && hit(ItemOf(raws[i]).value);
      match ItemOf(raws[i]).value
      case Domain(d) => DomainListed(raws, d);
      case Cidr(c) => CidrListed(raws, c);
    }
    if d :| d in Domains(raws) && hit(Domain(d)) {
      DomainListed(raws, d);
    }
    if c :| c in Cidrs(raws) && hit(Cidr(c)) {
      CidrListed(raws, c);
    }
  }

  /** Splitting one route into a domain rule and a CIDR rule changes nothing, blanks included. */
  lemma RouteMeaning(route: Route, outbound: string, hit: Item -> bool, custom: string -> Option<string>)
    ensures FirstMatch(RulesOf(route, outbound), hit, custom) == if AnyItem(route.items, hit) then Some(outbound) else None
  {
    AnyItemSplit(route.items, hit);
    var domains, cidrs := Domains(route.items), Cidrs(route.items);
    var first: seq<Rule> := if domains == [] then [] else [DomainRule(domains, outbound)];
    var second: seq<Rule> := if cidrs == [] then [] else [CidrRule(cidrs, outbound)];
    FirstMatchAppend(first, second, hit, custom);
    assert domains != [] ==> first[1..] == [];
    assert cidrs != [] ==> second[1..] == [];
  }

  lemma Associates(a: seq<Rule>, b: seq<Rule>, c: seq<Rule>)
    ensures (a + b) + c == a + (b + c)
  {
  }

  lemma CompileOne(route: Route)
    requires Compile([route]).Success?
    ensures Outbound(route).Success? && Compile([route]).value == RulesOf(route, Outbound(route).value)
  {
    var none: seq<Route> := [];
    assert none + [route] == [route];
    CompileSnoc(none, route);
  }

  /** The rules of a list are those of its first route, then those of the rest. */
  ghost predicate StartsWithFirst(routes: seq<Route>)
    requires routes != []
  {
    && Compile(routes).Success? && Outbound(routes[0]).Success? && Compile(routes[1..]).Success?
    && Compile(routes).value == RulesOf(routes[0], Outbound(routes[0]).value) + Compile(routes[1..]).value
  }

  lemma StartsWithFirstSnoc(init: seq<Route>, last: Route)
    requires init != [] && StartsWithFirst(init) && Compile(init + [last]).Success?
    ensures StartsWithFirst(init + [last])
  {
    assert (init + [last])[1..] == init[1..] + [last];
    CompileSnoc(init, last);
    CompileSnoc(init[1..], last);
    Associates(RulesOf(init[0], Outbound(init[0]).value), Compile(init[1..]).value, RulesOf(last, Outbound(last).value));
  }

  lemma {:induction false} CompileCons(routes: seq<Route>)
    requires routes != [] && Compile(routes).Success?
    ensures StartsWithFirst(routes)
  {
    var init, last := routes[..|routes| - 1], routes[|routes| - 1];
    assert routes == init + [last];
    if init == [] {
      assert routes == [last] && routes[1..] == [];
      CompileOne(last);
    } else {
      CompileSnoc(init, last);
      CompileCons(init);
      StartsWithFirstSnoc(init, last);
    }
  }

  lemma {:induction false} CompiledMeaning(routes: seq<Route>, hit: Item -> bool, custom: string -> Option<string>)
    requires Compile(routes).Success?
    ensures AllUsable(routes)
    ensures FirstMatch(Compile(routes).value, hit, custom) == FirstRoute(routes, hit)
  {
    CompilesIff(routes);
    if routes != [] {
      CompileCons(routes);
      CompiledMeaning(routes[1..], hit, custom);
      var rules := RulesOf(routes[0], Outbound(routes[0]).value);
      FirstMatchAppend(rules, Compile(routes[1..]).value, hit, custom);
      RouteMeaning(routes[0], Outbound(routes[0]).value, hit, custom);
    }
  }

  lemma {:induction false} CustomMeaning(custom: seq<string>, rules: seq<Rule>, hit: Item -> bool, decide: string -> Option<string>)
    ensures FirstMatch(Installed(custom, rules), hit, decide)
            == if FirstCustom(custom, decide).Some? then FirstCustom(custom, decide) else FirstMatch(rules, hit, decide)
  {
    if custom == [] {
      assert Installed(custom, rules) == rules;
    } else {
      assert Installed(custom, rules)[1..] == Installed(custom[1..], rules);
      CustomMeaning(custom[1..], rules, hit, decide);
    }
  }

  /**
   Compilation preserves meaning: for every route list that compiles, every custom rule list and every
   item-matching predicate, first-match over the installed rules is first-match over the custom rules,
   then over the panel's own routes, then "direct".
   */
  lemma CompilationPreservesMeaning(routes: seq<Route>, custom: seq<string>, hit: Item -> bool, decide: string -> Option<string>)
    requires Compile(routes).Success?
    ensures AllUsable(routes)
    ensures Send(Installed(custom, Compile(routes).value), hit, decide)
            == (if FirstCustom(custom, decide).Some? then FirstCustom(custom, decide).value
                else if FirstRoute(routes, hit).Some? then FirstRoute(routes, hit).value
                else "direct")
  {
    CompiledMeaning(routes, hit, decide);
    CustomMeaning(custom, Compile(routes).value, hit, decide);
  }

  /** The first route with a matching item. */
  ghost predicate FirstHit(routes: seq<Route>, i: nat, hit: Item -> bool) {
    i < |routes| && AnyItem(routes[i].items, hit) && forall j | 0 <= j < i :: !AnyItem(routes[j].items, hit)
  }

  lemma {:induction false} FirstRouteIsFirstHit(routes: seq<Route>, hit: Item -> bool, i: nat)
    requires AllUsable(routes) && FirstHit(routes, i, hit)
    ensures FirstRoute(routes, hit) == Some(Outbound(routes[i]).value)
  {
    if i > 0 {
      assert routes[1..][i - 1] == routes[i] && forall j | 0 <= j < i - 1 :: routes[1..][j] == routes[j + 1];
      FirstRouteIsFirstHit(routes[1..], hit, i - 1);
    }
  }

  lemma {:induction false} NoHitNoRoute(routes: seq<Route>, hit: Item -> bool)
    requires AllUsable(routes) && forall r | r in routes :: !AnyItem(r.items, hit)
    ensures FirstRoute(routes, hit) == None
  {
    if routes != [] {
      assert routes[0] in routes;
      NoHitNoRoute(routes[1..], hit);
    }
  }

  lemma FirstHitDecides(routes: seq<Route>, i: nat, hit: Item -> bool)
    requires AllUsable(routes) && FirstHit(routes, i, hit)
    ensures var action, to := ToLower(routes[i].action), FirstRoute(routes, hit);
            && action in {"proxy", "direct", "block", "reject"}
            && (action == "proxy" ==> to == Some(routes[i].actionValue))
            && (action == "direct" ==> to == Some("direct"))
            && (action in {"block", "reject"} ==> to == Some("block"))
  {
    FirstRouteIsFirstHit(routes, hit, i);
    OutboundIs(routes[i]);
  }

  /** With no custom rule deciding, the installed rules send a destination where the routes say. */
  lemma SentByRoutes(routes: seq<Route>, custom: seq<string>, hit: Item -> bool, decide: string -> Option<string>)
    requires Compile(routes).Success? && forall t | t in custom :: decide(t).None?
    ensures AllUsable(routes)
    ensures Send(Installed(custom, Compile(routes).value), hit, decide)
            == if FirstRoute(routes, hit).Some? then FirstRoute(routes, hit).value else "direct"
  {
    NoCustom(custom, decide);
    CompilationPreservesMeaning(routes, custom, hit, decide);
  }

  /**
   Where a destination goes that no custom rule decides, by the text of the routes: the first route with a matching
   item decides, a proxy route for the outbound it names, a direct route for "direct", a block or reject route for
   "block"; a destination no route matches goes "direct".
   */
  lemma SentByAction(routes: seq<Route>, custom: seq<string>, hit: Item -> bool, decide: string -> Option<string>)
    requires Compile(routes).Success? && forall t | t in custom :: decide(t).None?
    ensures forall i: nat | FirstHit(routes, i, hit) ::
              var to, action := Send(Installed(custom, Compile(routes).value), hit, decide), ToLower(routes[i].action);
              && (action == "proxy" ==> to == routes[i].actionValue)
              && (action == "direct" ==> to == "direct")
              && (action in {"block", "reject"} ==> to == "block")
              && action in {"proxy", "direct", "block", "reject"}
    ensures (forall r | r in routes :: !AnyItem(r.items, hit))
            ==> Send(Installed(custom, Compile(routes).value), hit, decide) == "direct"
  {
    SentByRoutes(routes, custom, hit, decide);
    forall i: nat | FirstHit(routes, i, hit)
      ensures var to, action := Send(Installed(custom, Compile(routes).value), hit, decide), ToLower(routes[i].action);
              && (action == "proxy" ==> to == routes[i].actionValue)
              && (action == "direct" ==> to == "direct")
              && (action in {"block", "reject"} ==> to == "block")
              && action in {"proxy", "direct", "block", "reject"}
    {
      FirstHitDecides(routes, i, hit);
    }
    if forall r | r in routes :: !AnyItem(r.items, hit) {
      NoHitNoRoute(routes, hit);
    }
  }

  lemma {:induction false} NoCustom(custom: seq<string>, decide: string -> Option<string>)
    requires forall t | t in custom :: decide(t).None?
    ensures FirstCustom(custom, decide) == None
  {
    if custom != [] {
      assert custom[0] in custom;
      NoCustom(custom[1..], decide);
    }
  }

  /** A custom rule that decides, none before it doing so, decides before any route. */
  lemma {:induction false} SentByCustom(routes: seq<Route>, custom: seq<string>, i: nat, hit: Item -> bool, decide: string -> Option<string>)
    requires Compile(routes).Success? && i < |custom| && decide(custom[i]).Some? && forall j | 0 <= j < i :: decide(custom[j]).None?
    ensures Some(Send(Installed(custom, Compile(routes).value), hit, decide)) == decide(custom[i])
  {
    FirstCustomIs(custom, i, decide);
    CompilationPreservesMeaning(routes, custom, hit, decide);
  }

  lemma {:induction false} FirstCustomIs(custom: seq<string>, i: nat, decide: string -> Option<string>)
    requires i < |custom| && decide(custom[i]).Some? && forall j | 0 <= j < i :: decide(custom[j]).None?
    ensures FirstCustom(custom, decide) == decide(custom[i])
  {
    if i > 0 {
      assert custom[1..][i - 1] == custom[i] && forall j | 0 <= j < i - 1 :: custom[1..][j] == custom[j + 1];
      FirstCustomIs(custom[1..], i - 1, decide);
    }
  }
}
