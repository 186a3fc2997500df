/**
  DNS rule options and the static analysis that picks the rule mode: which
  rules need the legacy mode, which rule it out, which force it by a strategy;
  and the validator of the new mode.
 */
module DnsRules {
  import opened Wrappers

  datatype Result<+T> = Ok(value: T) | Err(error: Error)

  datatype Error =
    | RouterMissing
    | RuleSetMissing(tag: string)
    | StrategyConflict
    | ResponseFieldsNeedMatchResponse
    | PureAddressRuleSet(tag: string)
    | AcceptEmptyUnsupported
    | NoPrecedingEvaluate(index: nat)
    | AddressFilterUnsupported
    | EvaluateOnFakeIP(index: nat)

  // C.DomainStrategy
  datatype Strategy = AsIs | PreferIPv4 | PreferIPv6 | IPv4Only | IPv6Only

  // The action type; Unset is the empty string, which acts as Route.
  datatype ActionType = Unset | Route | RouteOptions | Evaluate | Respond | Reject | Predefined

  datatype RouteSettings = RouteSettings(
    server: string,
    strategy: Strategy,
    disableCache: bool,
    disableOptimisticCache: bool,
    rewriteTTL: Option<nat>,
    timeout: int,
    clientSubnet: Option<string>)

  datatype RejectMethod = RejectDefault | RejectDrop

  // The action part of a rule: each action type reads its own group of settings.
  datatype RuleAction = RuleAction(
    action: ActionType,
    routeOptions: RouteSettings,
    routeOptionsOptions: RouteSettings,
    rejectMethod: RejectMethod)

  // The rule items that the analysis looks at.
  datatype DefaultRule = DefaultRule(
    matchResponse: bool,
    responseRcode: bool,
    responseAnswer: nat,
    responseNs: nat,
    responseExtra: nat,
    ipCIDR: nat,
    ipIsPrivate: bool,
    ipAcceptAny: bool,
    ipVersion: int,
    queryType: nat,
    ruleSet: seq<string>,
    ruleSetIPCIDRMatchSource: bool,
    ruleSetIPCIDRAcceptEmpty: bool,
    action: RuleAction)

  // Unknown is any other rule type.
  datatype Rule =
    | Default(options: DefaultRule)
    | Logical(rules: seq<Rule>, action: RuleAction)
    | Unknown

  datatype Metadata = Metadata(
    containsIPCIDRRule: bool,
    containsDNSQueryTypeRule: bool,
    containsNonIPCIDRRule: bool)

  // The router service, if any, with the metadata of its rule-sets.
  type Router = Option<map<string, Metadata>>

  type Overrides = map<string, Metadata>

  datatype Flags = Flags(disabled: bool, needed: bool, neededFromStrategy: bool)

  const NO_FLAGS := Flags(false, false, false)

  // ----- one rule

  predicate HasResponseMatchFields(rule: DefaultRule) {
    rule.responseRcode || rule.responseAnswer > 0 || rule.responseNs > 0 || rule.responseExtra > 0
  }

  predicate NeedsFromAddressFilter(rule: DefaultRule) {
    rule.ruleSetIPCIDRAcceptEmpty
    || (!rule.matchResponse && (rule.ipAcceptAny || rule.ipCIDR > 0 || rule.ipIsPrivate))
  }

  predicate DefaultRuleDisables(rule: DefaultRule) {
    rule.matchResponse || HasResponseMatchFields(rule)
    || rule.action.action == Evaluate || rule.action.action == Respond
    || rule.ipVersion > 0 || rule.queryType > 0
  }

  predicate ActionDisables(action: RuleAction) {
    match action.action
    case Unset | Route | Evaluate => action.routeOptions.disableOptimisticCache
    case RouteOptions => action.routeOptionsOptions.disableOptimisticCache
    case _ => false
  }

  predicate HasStrategy(action: RuleAction) {
    match action.action
    case Unset | Route | Evaluate => action.routeOptions.strategy != AsIs
    case RouteOptions => action.routeOptionsOptions.strategy != AsIs
    case _ => false
  }

  /** The effective action type: an unset action is a route. */
  function ActionOf(rule: Rule): Option<ActionType> {
    match rule
    case Default(options) => Some(if options.action.action == Unset then Route else options.action.action)
    case Logical(_, action) => Some(if action.action == Unset then Route else action.action)
    case Unknown => None
  }

  function ServerOf(rule: Rule): string {
    match rule
    case Default(options) => options.action.routeOptions.server
    case Logical(_, action) => action.routeOptions.server
    case Unknown => ""
  }

  function LookupMetadata(router: map<string, Metadata>, tag: string, overrides: Overrides): Result<Metadata> {
    if tag in overrides then Ok(overrides[tag])
    else if tag in router then Ok(router[tag])
    else Err(RuleSetMissing(tag))
  }

  // ----- the mode flags

  function Merge(f: Flags, g: Flags): Flags {
    Flags(f.disabled || g.disabled, f.needed || g.needed, f.neededFromStrategy || g.neededFromStrategy)
  }

  function RuleSetFlags(router: map<string, Metadata>, tags: seq<string>, matchSource: bool, overrides: Overrides,
                        flags: Flags): Result<Flags>
    decreases |tags|
  {
    if tags == [] then Ok(flags)
    else
      match LookupMetadata(router, tags[0], overrides)
      case Err(e) => Err(e)
      case Ok(metadata) =>
        RuleSetFlags(router, tags[1..], matchSource, overrides,
                     flags.(disabled := flags.disabled || metadata.containsDNSQueryTypeRule,
                            needed := flags.needed || (!matchSource && metadata.containsIPCIDRRule)))
  }

  function DefaultRuleFlags(router: Router, rule: DefaultRule, overrides: Overrides): Result<Flags> {
    var flags := Flags(DefaultRuleDisables(rule) || ActionDisables(rule.action),
                       NeedsFromAddressFilter(rule) || HasStrategy(rule.action),
                       HasStrategy(rule.action));
    if rule.ruleSet == [] then Ok(flags)
    else if router.None? then Err(RouterMissing)
    else RuleSetFlags(router.value, rule.ruleSet, rule.ruleSetIPCIDRMatchSource, overrides, flags)
  }

  function RuleFlags(router: Router, rule: Rule, overrides: Overrides): Result<Flags>
    decreases rule, 1
  {
    match rule
    case Default(options) => DefaultRuleFlags(router, options, overrides)
    case Logical(rules, action) =>
      var own := Flags(action.action == Evaluate || action.action == Respond || ActionDisables(action),
                       HasStrategy(action), HasStrategy(action));
      MergeAll(router, rules, overrides, own)
    case Unknown => Ok(NO_FLAGS)
  }

  /** The accumulator loop over a list of rules. */
  function MergeAll(router: Router, rules: seq<Rule>, overrides: Overrides, flags: Flags): Result<Flags>
    decreases rules, 0
  {
    if rules == [] then Ok(flags)
    else
      match RuleFlags(router, rules[0], overrides)
      case Err(e) => Err(e)
      case Ok(f) => MergeAll(router, rules[1..], overrides, Merge(flags, f))
  }

  function Requirements(router: Router, rules: seq<Rule>, overrides: Overrides): Result<Flags> {
    MergeAll(router, rules, overrides, NO_FLAGS)
  }

  /** The mode, with the flags it was read from. */
  function ResolveMode(router: Router, rules: seq<Rule>, overrides: Overrides): Result<(bool, Flags)> {
    match Requirements(router, rules, overrides)
    case Err(e) => Err(e)
    case Ok(flags) =>
      if flags.disabled && flags.neededFromStrategy then Err(StrategyConflict)
      else if flags.disabled then Ok((false, flags))
      else Ok((flags.needed, flags))
  }

  // ----- the nodes of the rule trees

  /** `n` is the rule or one of the rules nested in it. */
  predicate NodeIn(rule: Rule, n: Rule)
    decreases rule
  {
    n == rule || (rule.Logical? && exists i :: 0 <= i < |rule.rules| && NodeIn(rule.rules[i], n))
  }

  ghost predicate Node(rules: seq<Rule>, n: Rule) {
    exists i :: 0 <= i < |rules| && NodeIn(rules[i], n)
  }

  function NodeAction(n: Rule): Option<RuleAction> {
    match n
    case Default(options) => Some(options.action)
    case Logical(_, action) => Some(action)
    case Unknown => None
  }

  /** Every rule-set a node names can be looked up. */
  ghost predicate NodeResolves(router: Router, overrides: Overrides, n: Rule) {
    n.Default? && n.options.ruleSet != [] ==>
      router.Some? && forall t :: t in n.options.ruleSet ==> LookupMetadata(router.value, t, overrides).Ok?
  }

  /** The settings that the action of a node reads: its route group, its route-options group, or none. */
  ghost predicate Reads(n: Rule, s: RouteSettings) {
    && NodeAction(n).Some?
    && var a := NodeAction(n).value;
       || (a.action in {Unset, Route, Evaluate} && s == a.routeOptions)
       || (a.action == RouteOptions && s == a.routeOptionsOptions)
  }

  ghost predicate NodeHasStrategy(n: Rule) {
    exists s :: Reads(n, s) && s.strategy != AsIs
  }

  /** Some rule-set of the node has metadata satisfying a property. */
  ghost predicate RuleSetHas(router: Router, overrides: Overrides, n: Rule, p: Metadata -> bool) {
    && n.Default? && router.Some?
    && exists t :: t in n.options.ruleSet && LookupMetadata(router.value, t, overrides).Ok?
                   && p(LookupMetadata(router.value, t, overrides).value)
  }

  /** A node that only the new mode can run: by its action, its fields, or the query types of a rule-set. */
  ghost predicate NodeDisables(router: Router, overrides: Overrides, n: Rule) {
    || (NodeAction(n).Some? && NodeAction(n).value.action in {Evaluate, Respond})
    || (exists s :: Reads(n, s) && s.disableOptimisticCache)
    || (n.Default?
        && var o := n.options;
           || o.matchResponse || o.responseRcode || o.responseAnswer + o.responseNs + o.responseExtra > 0
           || o.ipVersion > 0 || o.queryType > 0)
    || RuleSetHas(router, overrides, n, (m: Metadata) => m.containsDNSQueryTypeRule)
  }

  /** A node that only the legacy mode runs as meant: by a strategy, or by addresses to be checked in the response. */
  ghost predicate NodeNeeds(router: Router, overrides: Overrides, n: Rule) {
    || NodeHasStrategy(n)
    || (n.Default? && n.options.ruleSetIPCIDRAcceptEmpty)
    || (n.Default? && !n.options.matchResponse
        && (n.options.ipCIDR > 0 || n.options.ipIsPrivate || n.options.ipAcceptAny))
    || (n.Default? && !n.options.ruleSetIPCIDRMatchSource
        && RuleSetHas(router, overrides, n, (m: Metadata) => m.containsIPCIDRRule))
  }

  /** The flags are the disjunction of a property over nodes, added to what was there before. */
  ghost predicate Collects(router: Router, overrides: Overrides, nodes: iset<Rule>, before: Flags, after: Flags) {
    && (after.disabled <==> before.disabled || exists n :: n in nodes && NodeDisables(router, overrides, n))
    && (after.needed <==> before.needed || exists n :: n in nodes && NodeNeeds(router, overrides, n))
    && (after.neededFromStrategy <==> before.neededFromStrategy || exists n :: n in nodes && NodeHasStrategy(n))
  }

  ghost function NodesIn(rule: Rule): iset<Rule> {
    iset n | NodeIn(rule, n)
  }

  ghost function Nodes(rules: seq<Rule>): iset<Rule> {
    iset n | Node(rules, n)
  }

  lemma {:induction false} RuleSetFlagsCollect(router: map<string, Metadata>, tags: seq<string>, matchSource: bool,
                                               overrides: Overrides, flags: Flags)
    ensures var r := RuleSetFlags(router, tags, matchSource, overrides, flags);
            && (r.Ok? <==> forall t :: t in tags ==> LookupMetadata(router, t, overrides).Ok?)
            && (r.Ok? ==>
                  && (r.value.disabled <==> flags.disabled || exists t :: (
                        t in tags && LookupMetadata(router, t, overrides).value.containsDNSQueryTypeRule))
                  && (r.value.needed <==> flags.needed || (!matchSource && exists t :: (
                        t in tags && LookupMetadata(router, t, overrides).value.containsIPCIDRRule)))
                  && r.value.neededFromStrategy == flags.neededFromStrategy)
    decreases |tags|
  {
    if tags != [] {
      var first := LookupMetadata(router, tags[0], overrides);
      assert tags[0] in tags && forall t :: t in tags <==> t == tags[0] || t in tags[1..];
      if first.Ok? {
        RuleSetFlagsCollect(router, tags[1..], matchSource, overrides,
                            flags.(disabled := flags.disabled || first.value.containsDNSQueryTypeRule,
                                   needed := flags.needed || (!matchSource && first.value.containsIPCIDRRule)));
      }
    }
  }

  /** The recursive flags of one rule are the disjunction over its nodes, when every rule-set is known. */
  lemma {:induction false} RuleFlagsCollect(router: Router, rule: Rule, overrides: Overrides)
    ensures RuleFlags(router, rule, overrides).Ok?
            <==> forall n :: n in NodesIn(rule) ==> NodeResolves(router, overrides, n)
    ensures RuleFlags(router, rule, overrides).Ok? ==>
              Collects(router, overrides, NodesIn(rule), NO_FLAGS, RuleFlags(router, rule, overrides).value)
    decreases rule, 1
  {
    match rule
    case Default(options) =>
      assert NodesIn(rule) == iset{rule};
      DefaultRuleCollect(router, options, overrides);
    case Logical(rules, action) =>
      var own := Flags(action.action == Evaluate || action.action == Respond || ActionDisables(action),
                       HasStrategy(action), HasStrategy(action));
      MergeAllCollects(router, rules, overrides, own);
      LogicalCollects(router, rule, overrides, own);
    case Unknown =>
      assert NodesIn(rule) == iset{rule};
  }

  /** A logical rule adds its own flags to those of the rules nested in it. */
  lemma LogicalCollects(router: Router, rule: Rule, overrides: Overrides, own: Flags)
    requires rule.Logical?
    requires own.disabled <==> NodeDisables(router, overrides, rule)
    requires own.needed <==> NodeNeeds(router, overrides, rule)
    requires own.neededFromStrategy <==> NodeHasStrategy(rule)
    ensures NodesIn(rule) == iset{rule} + Nodes(rule.rules)
    ensures forall after :: Collects(router, overrides, Nodes(rule.rules), own, after) ==>
              Collects(router, overrides, NodesIn(rule), NO_FLAGS, after)
  {
  }

  /** What the code reads off the rule itself, in terms of the node. */
  lemma OwnFlags(router: Router, options: DefaultRule, overrides: Overrides)
    requires options.ruleSet == []
    ensures var n := Default(options);
            && (NodeDisables(router, overrides, n) <==> DefaultRuleDisables(options) || ActionDisables(options.action))
            && (NodeNeeds(router, overrides, n) <==> NeedsFromAddressFilter(options) || HasStrategy(options.action))
            && (NodeHasStrategy(n) <==> HasStrategy(options.action))
  {
    var a, n := options.action, Default(options);
    if HasStrategy(a) || ActionDisables(a) {
      assert Reads(n, if a.action == RouteOptions then a.routeOptionsOptions else a.routeOptions);
    }
  }

  lemma DefaultRuleCollect(router: Router, options: DefaultRule, overrides: Overrides)
    ensures var r, n := DefaultRuleFlags(router, options, overrides), Default(options);
            && (r.Ok? <==> NodeResolves(router, overrides, n))
            && (r.Ok? ==> && (r.value.disabled <==> NodeDisables(router, overrides, n))
                          && (r.value.needed <==> NodeNeeds(router, overrides, n))
                          && (r.value.neededFromStrategy <==> NodeHasStrategy(n)))
  {
    if options.ruleSet == [] {
      OwnFlags(router, options, overrides);
    } else if router.Some? {
      var flags := Flags(DefaultRuleDisables(options) || ActionDisables(options.action),
                         NeedsFromAddressFilter(options) || HasStrategy(options.action),
                         HasStrategy(options.action));
      RuleSetFlagsCollect(router.value, options.ruleSet, options.ruleSetIPCIDRMatchSource, overrides, flags);
      SetlessNode(router, options, overrides);
      OwnFlags(router, options.(ruleSet := []), overrides);
    }
  }

  /** The rule-sets of a node only add to what the rest of it says. */
  lemma SetlessNode(router: Router, options: DefaultRule, overrides: Overrides)
    ensures var n, own := Default(options), Default(options.(ruleSet := []));
            && (NodeDisables(router, overrides, n)
                <==> NodeDisables(router, overrides, own)
                     || RuleSetHas(router, overrides, n, (m: Metadata) => m.containsDNSQueryTypeRule))
            && (NodeNeeds(router, overrides, n)
                <==> NodeNeeds(router, overrides, own)
                     || (!options.ruleSetIPCIDRMatchSource
                         && RuleSetHas(router, overrides, n, (m: Metadata) => m.containsIPCIDRRule)))
            && (NodeHasStrategy(n) <==> NodeHasStrategy(own))
  {
    var n, own := Default(options), Default(options.(ruleSet := []));
    assert forall s :: Reads(n, s) <==> Reads(own, s);
  }

  lemma {:induction false} MergeAllCollects(router: Router, rules: seq<Rule>, overrides: Overrides, flags: Flags)
    ensures MergeAll(router, rules, overrides, flags).Ok?
            <==> forall n :: n in Nodes(rules) ==> NodeResolves(router, overrides, n)
    ensures MergeAll(router, rules, overrides, flags).Ok? ==>
              Collects(router, overrides, Nodes(rules), flags, MergeAll(router, rules, overrides, flags).value)
    decreases rules, 0
  {
    if rules == [] {
      assert Nodes(rules) == iset{};
    } else {
      RuleFlagsCollect(router, rules[0], overrides);
      NodesCons(rules);
      var first := RuleFlags(router, rules[0], overrides);
      if first.Ok? {
        MergeAllCollects(router, rules[1..], overrides, Merge(flags, first.value));
      }
    }
  }

  lemma NodesCons(rules: seq<Rule>)
    requires rules != []
    ensures Nodes(rules) == NodesIn(rules[0]) + Nodes(rules[1..])
  {
  }

  // ----- what the mode means

  ghost predicate AllResolve(router: Router, rules: seq<Rule>, overrides: Overrides) {
    forall n :: n in Nodes(rules) ==> NodeResolves(router, overrides, n)
  }

  ghost predicate SomeDisables(router: Router, rules: seq<Rule>, overrides: Overrides) {
    exists n :: n in Nodes(rules) && NodeDisables(router, overrides, n)
  }

  ghost predicate SomeNeeds(router: Router, rules: seq<Rule>, overrides: Overrides) {
    exists n :: n in Nodes(rules) && NodeNeeds(router, overrides, n)
  }

  ghost predicate SomeStrategy(rules: seq<Rule>) {
    exists n :: n in Nodes(rules) && NodeHasStrategy(n)
  }

  /**
    Mode resolution over all rule trees at once: it fails exactly on an unknown
    rule-set or on a strategy next to a disabling node, and picks the legacy
    mode exactly when some node needs it and none disables it.
   */
  lemma ModeIsDecidedByNodes(router: Router, rules: seq<Rule>, overrides: Overrides)
    ensures ResolveMode(router, rules, overrides).Ok? <==>
              AllResolve(router, rules, overrides) && !(SomeDisables(router, rules, overrides) && SomeStrategy(rules))
    ensures var r := ResolveMode(router, rules, overrides);
            r.Ok? ==> && (r.value.0 <==> SomeNeeds(router, rules, overrides) && !SomeDisables(router, rules, overrides))
                      && (r.value.1.disabled <==> SomeDisables(router, rules, overrides))
    // in the new mode no node of any tree carries a strategy
    ensures var r := ResolveMode(router, rules, overrides); r.Ok? && !r.value.0 ==> !SomeStrategy(rules)
  {
    MergeAllCollects(router, rules, overrides, NO_FLAGS);
    if SomeStrategy(rules) {
      var n :| n in Nodes(rules) && NodeHasStrategy(n);
      assert NodeNeeds(router, overrides, n);
    }
  }

  // ----- the validator of the new mode

  function ValidateRuleSets(router: Router, tags: seq<string>, overrides: Overrides): Result<()>
    decreases |tags|
  {
    if tags == [] then Ok(())
    else if router.None? then Err(RouterMissing)
    else
      match LookupMetadata(router.value, tags[0], overrides)
      case Err(e) => Err(e)
      case Ok(m) =>
        if m.containsIPCIDRRule && !m.containsNonIPCIDRRule then Err(PureAddressRuleSet(tags[0]))
        else ValidateRuleSets(router, tags[1..], overrides)
  }

  /** Whether the rule needs an earlier evaluate, or why it is refused. */
  function ValidateDefault(router: Router, rule: DefaultRule, overrides: Overrides): Result<bool> {
    if (HasResponseMatchFields(rule) || rule.ipCIDR > 0 || rule.ipIsPrivate || rule.ipAcceptAny) && !rule.matchResponse
    then Err(ResponseFieldsNeedMatchResponse)
    else
      var sets := if !rule.matchResponse then ValidateRuleSets(router, rule.ruleSet, overrides) else Ok(());
      if sets.Err? then Err(sets.error)
      else if rule.ruleSetIPCIDRAcceptEmpty then Err(AcceptEmptyUnsupported)
      else Ok(rule.matchResponse || rule.action.action == Respond)
  }

  function ValidateTree(router: Router, rule: Rule, overrides: Overrides): Result<bool>
    decreases rule, 1
  {
    match rule
    case Default(options) => ValidateDefault(router, options, overrides)
    case Logical(rules, action) => ValidateTrees(router, rules, overrides, action.action == Respond)
    case Unknown => Ok(false)
  }

  function ValidateTrees(router: Router, rules: seq<Rule>, overrides: Overrides, dependent: bool): Result<bool>
    decreases rules, 0
  {
    if rules == [] then Ok(dependent)
    else
      match ValidateTree(router, rules[0], overrides)
      case Err(e) => Err(e)
      case Ok(r) => ValidateTrees(router, rules[1..], overrides, dependent || r)
  }

  /** The loop over the top-level rules. */
  method ValidateRules(router: Router, rules: seq<Rule>, overrides: Overrides) returns (r: Result<()>)
    ensures r == Validate(router, rules, overrides, 0, false)
  {
    var seenEvaluate := false;
    for i := 0 to |rules|
      invariant Validate(router, rules, overrides, 0, false) == Validate(router, rules, overrides, i, seenEvaluate)
    {
      var requiresPriorEvaluate := ValidateTree(router, rules[i], overrides);
      if requiresPriorEvaluate.Err? { return Err(requiresPriorEvaluate.error); }
      if requiresPriorEvaluate.value && !seenEvaluate { return Err(NoPrecedingEvaluate(i)); }
      if ActionOf(rules[i]) == Some(Evaluate) { seenEvaluate := true; }
    }
    return Ok(());
  }

  /** The validation of `rules[i..]`, with `seen` telling whether an evaluate came before. */
  function Validate(router: Router, rules: seq<Rule>, overrides: Overrides, i: nat, seen: bool): Result<()>
    requires i <= |rules|
    decreases |rules| - i
  {
    if i == |rules| then Ok(())
    else
      match ValidateTree(router, rules[i], overrides)
      case Err(e) => Err(e)
      case Ok(dependent) =>
        if dependent && !seen then Err(NoPrecedingEvaluate(i))
        else Validate(router, rules, overrides, i + 1, seen || ActionOf(rules[i]) == Some(Evaluate))
  }

  /** A node that can only work on a DNS response. */
  ghost predicate NodeNeedsResponse(n: Rule) {
    || (n.Default? && (n.options.matchResponse || n.options.action.action == Respond))
    || (n.Logical? && n.action.action == Respond)
  }

  /** A node that the new mode can run. */
  ghost predicate NodeAdmissible(router: Router, overrides: Overrides, n: Rule) {
    n.Default? ==>
      && !n.options.ruleSetIPCIDRAcceptEmpty
      && (!n.options.matchResponse ==>
            && !n.options.responseRcode
            && n.options.responseAnswer + n.options.responseNs + n.options.responseExtra == 0
            && n.options.ipCIDR == 0 && !n.options.ipIsPrivate && !n.options.ipAcceptAny
            && NodeResolves(router, overrides, n)
            && !RuleSetHas(router, overrides, n, (m: Metadata) => m.containsIPCIDRRule && !m.containsNonIPCIDRRule))
  }

  lemma {:induction false} ValidateRuleSetsMeans(router: Router, tags: seq<string>, overrides: Overrides)
    ensures ValidateRuleSets(router, tags, overrides).Ok? <==>
              (tags != [] ==> router.Some?)
              && forall t :: t in tags ==>
                   && LookupMetadata(router.value, t, overrides).Ok?
                   && var m := LookupMetadata(router.value, t, overrides).value;
                      !(m.containsIPCIDRRule && !m.containsNonIPCIDRRule)
    decreases |tags|
  {
    if tags != [] && router.Some? {
      assert tags[0] in tags && forall t :: t in tags <==> t == tags[0] || t in tags[1..];
      ValidateRuleSetsMeans(router, tags[1..], overrides);
    }
  }

  lemma ValidateDefaultMeans(router: Router, options: DefaultRule, overrides: Overrides)
    ensures var r, n := ValidateDefault(router, options, overrides), Default(options);
            && (r.Ok? <==> NodeAdmissible(router, overrides, n))
            && (r.Ok? ==> (r.value <==> NodeNeedsResponse(n)))
  {
    ValidateRuleSetsMeans(router, options.ruleSet, overrides);
  }

  lemma {:induction false} ValidateTreeMeans(router: Router, rule: Rule, overrides: Overrides)
    ensures ValidateTree(router, rule, overrides).Ok? <==>
              forall n :: n in NodesIn(rule) ==> NodeAdmissible(router, overrides, n)
    ensures ValidateTree(router, rule, overrides).Ok? ==>
              (ValidateTree(router, rule, overrides).value <==> exists n :: n in NodesIn(rule) && NodeNeedsResponse(n))
    decreases rule, 1
  {
    match rule
    case Default(options) =>
      assert NodesIn(rule) == iset{rule};
      ValidateDefaultMeans(router, options, overrides);
    case Logical(rules, action) =>
      ValidateTreesMeans(router, rules, overrides, action.action == Respond);
      assert NodesIn(rule) == iset{rule} + Nodes(rules);
      assert rule in NodesIn(rule);
    case Unknown =>
      assert NodesIn(rule) == iset{rule};
  }

  lemma {:induction false} ValidateTreesMeans(router: Router, rules: seq<Rule>, overrides: Overrides, before: bool)
    ensures ValidateTrees(router, rules, overrides, before).Ok? <==>
              forall n :: n in Nodes(rules) ==> NodeAdmissible(router, overrides, n)
    ensures ValidateTrees(router, rules, overrides, before).Ok? ==>
              (ValidateTrees(router, rules, overrides, before).value
               <==> before || exists n :: n in Nodes(rules) && NodeNeedsResponse(n))
    decreases rules, 0
  {
    if rules == [] {
      assert Nodes(rules) == iset{};
    } else {
      ValidateTreeMeans(router, rules[0], overrides);
      NodesCons(rules);
      var first := ValidateTree(router, rules[0], overrides);
      if first.Ok? { ValidateTreesMeans(router, rules[1..], overrides, before || first.value); }
    }
  }

  /** Rule `i` needs a response and no earlier top-level rule evaluates one. */
  ghost predicate LacksEvaluate(rules: seq<Rule>, i: nat)
    requires i < |rules|
  {
    && (exists n :: n in NodesIn(rules[i]) && NodeNeedsResponse(n))
    && forall j :: 0 <= j < i ==> !Evaluates(rules[j])
  }

  ghost predicate Evaluates(rule: Rule) {
    NodeAction(rule).Some? && NodeAction(rule).value.action == Evaluate
  }

  lemma {:induction false} ValidateMeans(router: Router, rules: seq<Rule>, overrides: Overrides, i: nat, seen: bool)
    requires i <= |rules|
    requires seen <==> exists j :: 0 <= j < i && Evaluates(rules[j])
    ensures Validate(router, rules, overrides, i, seen).Ok? <==>
              forall k :: i <= k < |rules| ==>
                && (forall n :: n in NodesIn(rules[k]) ==> NodeAdmissible(router, overrides, n))
                && !LacksEvaluate(rules, k)
    decreases |rules| - i
  {
    if i < |rules| {
      ValidateTreeMeans(router, rules[i], overrides);
      var r := ValidateTree(router, rules[i], overrides);
      if r.Ok? && !(r.value && !seen) {
        ValidateMeans(router, rules, overrides, i + 1, seen || ActionOf(rules[i]) == Some(Evaluate));
      }
    }
  }

  /** A list is accepted exactly when every node can run and every response-dependent rule follows an evaluate. */
  lemma AcceptedMeansEvaluateFirst(router: Router, rules: seq<Rule>, overrides: Overrides)
    ensures Validate(router, rules, overrides, 0, false).Ok? <==>
              (forall n :: n in Nodes(rules) ==> NodeAdmissible(router, overrides, n))
              && forall i :: 0 <= i < |rules| ==> !LacksEvaluate(rules, i)
  {
    ValidateMeans(router, rules, overrides, 0, false);
    forall n ensures n in Nodes(rules) <==> exists k :: 0 <= k < |rules| && n in NodesIn(rules[k]) {
      if n in Nodes(rules) {
        var k :| 0 <= k < |rules| && NodeIn(rules[k], n);
        assert n in NodesIn(rules[k]);
      }
    }
  }

  /** Rule `k` passes the validation. */
  ghost predicate Passes(router: Router, rules: seq<Rule>, overrides: Overrides, k: nat)
    requires k < |rules|
  {
    (forall n :: n in NodesIn(rules[k]) ==> NodeAdmissible(router, overrides, n)) && !LacksEvaluate(rules, k)
  }

  /** A refusal is that of the first rule that does not pass: its own error, or its place if it lacks an evaluate. */
  lemma {:induction false} RefusedFirst(router: Router, rules: seq<Rule>, overrides: Overrides, i: nat, seen: bool)
    returns (k: nat)
    requires i <= |rules| && (seen <==> exists j :: 0 <= j < i && Evaluates(rules[j]))
    requires Validate(router, rules, overrides, i, seen).Err?
    ensures i <= k < |rules| && !Passes(router, rules, overrides, k)
    ensures forall j :: i <= j < k ==> Passes(router, rules, overrides, j)
    ensures var e, tree := Validate(router, rules, overrides, i, seen).error, ValidateTree(router, rules[k], overrides);
            if tree.Err? then e == tree.error else LacksEvaluate(rules, k) && e == NoPrecedingEvaluate(k)
    decreases |rules| - i
  {
    ValidateTreeMeans(router, rules[i], overrides);
    var tree := ValidateTree(router, rules[i], overrides);
    if tree.Err? || (tree.value && !seen) {
      k := i;
    } else {
      k := RefusedFirst(router, rules, overrides, i + 1, seen || ActionOf(rules[i]) == Some(Evaluate));
    }
  }
}
