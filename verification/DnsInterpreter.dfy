/**
  The rule interpreter of the new DNS mode: rules are matched in order against
  the answer of the latest evaluate, route options accumulate, and the first
  respond, route, reject or predefined rule ends the query.
 */
module DnsInterpreter {
  import opened DnsRules
  import opened Wrappers

  datatype Address = V4(bits: int) | V6(bits: int)

  datatype Msg = Msg(rcode: nat, addresses: seq<Address>)

  datatype Transport = Transport(tag: string, isFakeIP: bool)

  datatype QueryOptions = QueryOptions(
    strategy: Strategy,
    lookupStrategy: Strategy,
    disableCache: bool,
    disableOptimisticCache: bool,
    rewriteTTL: Option<nat>,
    timeout: int,
    clientSubnet: Option<string>)

  // The action of a built rule.
  datatype Action =
    | SetOptions(settings: RouteSettings)
    | EvaluateOn(settings: RouteSettings)
    | RespondNow
    | RouteTo(settings: RouteSettings)
    | RejectWith(how: RejectMethod)
    | Answer

  function BuildAction(a: RuleAction): Action {
    match a.action
    case Unset | Route => RouteTo(a.routeOptions)
    case Evaluate => EvaluateOn(a.routeOptions)
    case Respond => RespondNow
    case RouteOptions => SetOptions(a.routeOptionsOptions)
    case Reject => RejectWith(a.rejectMethod)
    case Predefined => Answer
  }

  /** A built action is of the kind its options name, with the settings that the analysis reads. */
  lemma BuiltAsRead(n: Rule)
    requires NodeAction(n).Some?
    ensures var a, b := NodeAction(n).value, BuildAction(NodeAction(n).value);
            && (b.RouteTo? <==> a.action in {Unset, Route}) && (b.EvaluateOn? <==> a.action == Evaluate)
            && (b.SetOptions? <==> a.action == RouteOptions) && (b.RespondNow? <==> a.action == Respond)
            && (b.RejectWith? <==> a.action == Reject) && (b.RejectWith? ==> b.how == a.rejectMethod)
            && (b.Answer? <==> a.action == Predefined)
            && forall s :: (b.RouteTo? || b.EvaluateOn? || b.SetOptions?) && s == b.settings <==> Reads(n, s)
  {
  }

  datatype Failure = MissingResponse | Dropped | Upstream(code: int)

  datatype Reply = Replied(response: Msg) | FailedWith(failure: Failure)

  /**
    What the interpreter cannot see into: whether rule `i` matches given the
    current answer, the transports, and what the n-th query is answered.
   */
  datatype Env = Env(
    matches: (nat, Option<Msg>) -> bool,
    transports: map<string, Transport>,
    default: Transport,
    defaultStrategy: Strategy,
    exchange: (nat, Transport, QueryOptions) -> Reply,
    predefined: nat -> Msg,
    refused: Msg)

  datatype ExchangeResult = ExchangeResult(
    response: Option<Msg>,
    transport: Option<Transport>,
    reject: Option<RejectMethod>,
    err: Option<Failure>)

  datatype Call = Call(transport: Transport, options: QueryOptions)

  datatype Evaluated = Evaluated(response: Msg, transport: Transport)

  // What is carried from rule to rule.
  datatype Frame = Frame(options: QueryOptions, evaluated: Option<Evaluated>, calls: seq<Call>)

  datatype Next = Continue(frame: Frame) | Stop(result: ExchangeResult, calls: seq<Call>)

  /** Route options laid over the query options; the strategy only where `withStrategy` says so. */
  function Overlay(o: QueryOptions, s: RouteSettings, withStrategy: bool): QueryOptions {
    QueryOptions(
      if withStrategy && s.strategy != AsIs then s.strategy else o.strategy,
      o.lookupStrategy,
      o.disableCache || s.disableCache,
      o.disableOptimisticCache || s.disableOptimisticCache,
      if s.rewriteTTL.Some? then s.rewriteTTL else o.rewriteTTL,
      if s.timeout > 0 then s.timeout else o.timeout,
      if s.clientSubnet.Some? then s.clientSubnet else o.clientSubnet)
  }

  /** The options as sent: an unset strategy becomes the router's default. */
  function Sent(env: Env, o: QueryOptions): QueryOptions {
    if o.strategy == AsIs then o.(strategy := env.defaultStrategy) else o
  }

  function ResponseOf(e: Option<Evaluated>): Option<Msg> {
    if e.Some? then Some(e.value.response) else None
  }

  function Finished(reply: Reply, transport: Transport): ExchangeResult {
    match reply
    case Replied(response) => ExchangeResult(Some(response), Some(transport), None, None)
    case FailedWith(failure) => ExchangeResult(None, Some(transport), None, Some(failure))
  }

  // ----- the specification: one rule, then all of them

  function StepRule(env: Env, rules: seq<Action>, i: nat, f: Frame, allowFakeIP: bool, withStrategy: bool): Next
    requires i < |rules|
  {
    if !env.matches(i, ResponseOf(f.evaluated)) then Continue(f)
    else
      match rules[i]
      case SetOptions(s) => Continue(f.(options := Overlay(f.options, s, withStrategy)))
      case EvaluateOn(s) =>
        if s.server !in env.transports then Continue(f.(evaluated := None))
        else
          var transport := env.transports[s.server];
          var call := Call(transport, Sent(env, Overlay(f.options, s, withStrategy)));
          var reply := env.exchange(|f.calls|, call.transport, call.options);
          Continue(Frame(f.options,
                         if reply.Replied? then Some(Evaluated(reply.response, transport)) else None,
                         f.calls + [call]))
      case RespondNow =>
        Stop(match f.evaluated
             case None => ExchangeResult(None, None, None, Some(MissingResponse))
             case Some(e) => ExchangeResult(Some(e.response), Some(e.transport), None, None), f.calls)
      case RouteTo(s) =>
        if s.server !in env.transports then Continue(f)
        else
          var transport := env.transports[s.server];
          if transport.isFakeIP && !allowFakeIP then Continue(f)
          else
            var o := Overlay(f.options, s, withStrategy);
            var call := Call(transport, Sent(env, if transport.isFakeIP then o.(disableCache := true) else o));
            Stop(Finished(env.exchange(|f.calls|, call.transport, call.options), transport), f.calls + [call])
      case RejectWith(RejectDefault) =>
        Stop(ExchangeResult(Some(env.refused), None, Some(RejectDefault), None), f.calls)
      case RejectWith(RejectDrop) => Stop(ExchangeResult(None, None, Some(RejectDrop), Some(Dropped)), f.calls)
      case Answer => Stop(ExchangeResult(Some(env.predefined(i)), None, None, None), f.calls)
  }

  function Interpret(env: Env, rules: seq<Action>, i: nat, f: Frame, allowFakeIP: bool, withStrategy: bool)
    : (r: (ExchangeResult, seq<Call>))
    requires i <= |rules|
    ensures r.0.err.None? && r.0.reject.None? ==> r.0.response.Some?
    decreases |rules| - i
  {
    if i == |rules| then
      var call := Call(env.default, Sent(env, f.options));
      (Finished(env.exchange(|f.calls|, call.transport, call.options), env.default), f.calls + [call])
    else
      match StepRule(env, rules, i, f, allowFakeIP, withStrategy)
      case Continue(next) => Interpret(env, rules, i + 1, next, allowFakeIP, withStrategy)
      case Stop(result, calls) => (result, calls)
  }

  function Begin(options: QueryOptions): Frame {
    Frame(options, None, [])
  }

  /** The loop itself; strategies of rule actions are not applied. */
  method ExchangeWithRules(env: Env, rules: seq<Action>, options: QueryOptions, allowFakeIP: bool)
    returns (result: ExchangeResult, calls: seq<Call>)
    ensures (result, calls) == Interpret(env, rules, 0, Begin(options), allowFakeIP, false)
  {
    var effectiveOptions := options;
    var evaluatedResponse: Option<Msg> := None;
    var evaluatedTransport: Option<Transport> := None;
    calls := [];
    for i := 0 to |rules|
      invariant evaluatedResponse.Some? <==> evaluatedTransport.Some?
      invariant Interpret(env, rules, 0, Begin(options), allowFakeIP, false)
                == Interpret(env, rules, i,
                             Frame(effectiveOptions,
                                   if evaluatedResponse.Some?
                                   then Some(Evaluated(evaluatedResponse.value, evaluatedTransport.value)) else None,
                                   calls), allowFakeIP, false)
    {
      if env.matches(i, evaluatedResponse) {
        match rules[i]
        case SetOptions(s) =>
          effectiveOptions := ApplyRouteOptions(effectiveOptions, s);
        case EvaluateOn(s) =>
          if s.server !in env.transports {
            evaluatedResponse, evaluatedTransport := None, None;
          } else {
            var transport := env.transports[s.server];
            var queryOptions := ApplyRouteOptions(effectiveOptions, s);
            var call := Call(transport, Sent(env, queryOptions));
            var reply := env.exchange(|calls|, call.transport, call.options);
            calls := calls + [call];
            if reply.FailedWith? {
              evaluatedResponse, evaluatedTransport := None, None;
            } else {
              evaluatedResponse, evaluatedTransport := Some(reply.response), Some(transport);
            }
          }
        case RespondNow =>
          if evaluatedResponse.None? {
            return ExchangeResult(None, None, None, Some(MissingResponse)), calls;
          }
          return ExchangeResult(evaluatedResponse, evaluatedTransport, None, None), calls;
        case RouteTo(s) =>
          if s.server in env.transports {
            var transport := env.transports[s.server];
            if !transport.isFakeIP || allowFakeIP {
              var queryOptions := ApplyRouteOptions(effectiveOptions, s);
              if transport.isFakeIP { queryOptions := queryOptions.(disableCache := true); }
              var call := Call(transport, Sent(env, queryOptions));
              var reply := env.exchange(|calls|, call.transport, call.options);
              return Finished(reply, transport), calls + [call];
            }
          }
        case RejectWith(how) =>
          if how == RejectDefault {
            return ExchangeResult(Some(env.refused), None, Some(RejectDefault), None), calls;
          }
          return ExchangeResult(None, None, Some(RejectDrop), Some(Dropped)), calls;
        case Answer =>
          return ExchangeResult(Some(env.predefined(i)), None, None, None), calls;
      }
    }
    var call := Call(env.default, Sent(env, effectiveOptions));
    var reply := env.exchange(|calls|, call.transport, call.options);
    return Finished(reply, env.default), calls + [call];
  }

  /** applyDNSRouteOptions: everything but the strategy. */
  method ApplyRouteOptions(options: QueryOptions, s: RouteSettings) returns (o: QueryOptions)
    ensures o == Overlay(options, s, false)
  {
    o := options;
    if s.disableCache { o := o.(disableCache := true); }
    if s.disableOptimisticCache { o := o.(disableOptimisticCache := true); }
    if s.rewriteTTL.Some? { o := o.(rewriteTTL := s.rewriteTTL); }
    if s.timeout > 0 { o := o.(timeout := s.timeout); }
    if s.clientSubnet.Some? { o := o.(clientSubnet := s.clientSubnet); }
  }

  // ----- skipping the strategy loses nothing

  predicate NoStrategy(a: Action) {
    (a.SetOptions? || a.EvaluateOn? || a.RouteTo?) ==> a.settings.strategy == AsIs
  }

  lemma {:induction false} StrategyIsIdle(env: Env, rules: seq<Action>, i: nat, f: Frame, allowFakeIP: bool)
    requires i <= |rules| && forall k :: i <= k < |rules| ==> NoStrategy(rules[k])
    ensures Interpret(env, rules, i, f, allowFakeIP, true) == Interpret(env, rules, i, f, allowFakeIP, false)
    decreases |rules| - i
  {
    if i < |rules| {
      assert NoStrategy(rules[i]);
      var next := StepRule(env, rules, i, f, allowFakeIP, true);
      assert next == StepRule(env, rules, i, f, allowFakeIP, false);
      if next.Continue? { StrategyIsIdle(env, rules, i + 1, next.frame, allowFakeIP); }
    }
  }

  /** The built actions of known rules; building refuses unknown rule types. */
  function BuildAll(rules: seq<Rule>): (actions: seq<Action>)
    requires forall i :: 0 <= i < |rules| ==> NodeAction(rules[i]).Some?
    ensures |actions| == |rules|
  {
    seq(|rules|, i requires 0 <= i < |rules| => BuildAction(NodeAction(rules[i]).value))
  }

  /**
    When mode resolution picks the new mode, an interpreter that also applied
    the strategies of rule actions would give the same result and send the
    same queries.
   */
  lemma NewModeNeedsNoStrategy(router: Router, rules: seq<Rule>, overrides: Overrides, env: Env, options: QueryOptions,
                               allowFakeIP: bool)
    requires forall i :: 0 <= i < |rules| ==> NodeAction(rules[i]).Some?
    requires var mode := ResolveMode(router, rules, overrides); mode.Ok? && !mode.value.0
    ensures Interpret(env, BuildAll(rules), 0, Begin(options), allowFakeIP, true)
            == Interpret(env, BuildAll(rules), 0, Begin(options), allowFakeIP, false)
  {
    ModeIsDecidedByNodes(router, rules, overrides);
    forall k | 0 <= k < |rules| ensures NoStrategy(BuildAll(rules)[k]) {
      assert NodeIn(rules[k], rules[k]);
      assert rules[k] in Nodes(rules);
    }
    StrategyIsIdle(env, BuildAll(rules), 0, Begin(options), allowFakeIP);
  }

  // ----- what a rule sees

  /** The frame with which rule `k` is reached, if it is. */
  function Reached(env: Env, rules: seq<Action>, k: nat, options: QueryOptions, allowFakeIP: bool): Option<Frame>
    requires k <= |rules|
  {
    if k == 0 then Some(Begin(options))
    else
      match Reached(env, rules, k - 1, options, allowFakeIP)
      case None => None
      case Some(f) =>
        match StepRule(env, rules, k - 1, f, allowFakeIP, false)
        case Continue(next) => Some(next)
        case Stop(_, _) => None
  }

  lemma {:induction false} InterpretFromReached(env: Env, rules: seq<Action>, k: nat, options: QueryOptions,
          allowFakeIP: bool)
    requires k <= |rules| && Reached(env, rules, k, options, allowFakeIP).Some?
    ensures Interpret(env, rules, 0, Begin(options), allowFakeIP, false)
            == Interpret(env, rules, k, Reached(env, rules, k, options, allowFakeIP).value, allowFakeIP, false)
  {
    if k > 0 { InterpretFromReached(env, rules, k - 1, options, allowFakeIP); }
  }

  /** Rule `j` is reached and matches. */
  predicate Fires(env: Env, rules: seq<Action>, j: nat, options: QueryOptions, allowFakeIP: bool)
    requires j < |rules|
  {
    var f := Reached(env, rules, j, options, allowFakeIP);
    f.Some? && env.matches(j, ResponseOf(f.value.evaluated))
  }

  /** Rule `j` is the last evaluate before `k` that fires. */
  ghost predicate LatestEvaluate(env: Env, rules: seq<Action>, j: nat, k: nat, options: QueryOptions, allowFakeIP: bool)
    requires k <= |rules|
  {
    && j < k && rules[j].EvaluateOn? && Fires(env, rules, j, options, allowFakeIP)
    && forall m :: j < m < k && rules[m].EvaluateOn? ==> !Fires(env, rules, m, options, allowFakeIP)
  }

  ghost predicate NoEvaluate(env: Env, rules: seq<Action>, k: nat, options: QueryOptions, allowFakeIP: bool)
    requires k <= |rules|
  {
    forall m :: 0 <= m < k && rules[m].EvaluateOn? ==> !Fires(env, rules, m, options, allowFakeIP)
  }

  ghost function Latest(env: Env, rules: seq<Action>, k: nat, options: QueryOptions, allowFakeIP: bool)
    : (j: Option<nat>)
    requires k <= |rules|
    ensures j.None? <==> NoEvaluate(env, rules, k, options, allowFakeIP)
    ensures j.Some? ==> LatestEvaluate(env, rules, j.value, k, options, allowFakeIP)
  {
    if k == 0 then None
    else if rules[k - 1].EvaluateOn? && Fires(env, rules, k - 1, options, allowFakeIP) then Some(k - 1)
    else Latest(env, rules, k - 1, options, allowFakeIP)
  }

  /** The answer an evaluate rule leaves behind: none when its server is missing or fails. */
  function EvaluationOf(env: Env, s: RouteSettings, f: Frame): Option<Evaluated> {
    if s.server !in env.transports then None
    else
      var transport := env.transports[s.server];
      match env.exchange(|f.calls|, transport, Sent(env, Overlay(f.options, s, false)))
      case Replied(response) => Some(Evaluated(response, transport))
      case FailedWith(_) => None
  }

  lemma OnlyEvaluateAnswers(env: Env, rules: seq<Action>, i: nat, f: Frame, allowFakeIP: bool)
    requires i < |rules| && StepRule(env, rules, i, f, allowFakeIP, false).Continue?
    ensures StepRule(env, rules, i, f, allowFakeIP, false).frame.evaluated
            == if rules[i].EvaluateOn? && env.matches(i, ResponseOf(f.evaluated))
               then EvaluationOf(env, rules[i].settings, f)
               else f.evaluated
  {
  }

  /** Every rule is matched against what the latest evaluate before it has left. */
  lemma {:induction false} SeesLatestEvaluate(env: Env, rules: seq<Action>, k: nat, options: QueryOptions,
          allowFakeIP: bool)
    requires k <= |rules| && Reached(env, rules, k, options, allowFakeIP).Some?
    ensures Reached(env, rules, k, options, allowFakeIP).value.evaluated
            == match Latest(env, rules, k, options, allowFakeIP)
               case None => None
               case Some(j) => EvaluationOf(env, rules[j].settings, Reached(env, rules, j, options, allowFakeIP).value)
  {
    if k > 0 {
      SeesLatestEvaluate(env, rules, k - 1, options, allowFakeIP);
      OnlyEvaluateAnswers(env, rules, k - 1, Reached(env, rules, k - 1, options, allowFakeIP).value, allowFakeIP);
    }
  }

  /** The settings of the route-options rules that fire before rule `k`, in order. */
  function FiredSettings(env: Env, rules: seq<Action>, k: nat, options: QueryOptions,
          allowFakeIP: bool): seq<RouteSettings>
    requires k <= |rules|
  {
    if k == 0 then []
    else FiredSettings(env, rules, k - 1, options, allowFakeIP)
         + (if rules[k - 1].SetOptions? && Fires(env, rules, k - 1, options, allowFakeIP)
            then [rules[k - 1].settings] else [])
  }

  function OverlayAll(o: QueryOptions, settings: seq<RouteSettings>): QueryOptions {
    if settings == [] then o
    else Overlay(OverlayAll(o, settings[..|settings| - 1]), settings[|settings| - 1], false)
  }

  lemma PassedRuleOptions(env: Env, rules: seq<Action>, i: nat, f: Frame, allowFakeIP: bool)
    requires i < |rules|
    ensures var next := StepRule(env, rules, i, f, allowFakeIP, false);
            next.Continue? ==>
              next.frame.options == if rules[i].SetOptions? && env.matches(i, ResponseOf(f.evaluated))
                                    then Overlay(f.options, rules[i].settings, false) else f.options
  {
  }

  lemma OverlaySnoc(o: QueryOptions, earlier: seq<RouteSettings>, s: RouteSettings)
    ensures OverlayAll(o, earlier + [s]) == Overlay(OverlayAll(o, earlier), s, false)
  {
    assert (earlier + [s])[..|earlier|] == earlier;
  }

  /** Only route-options rules change the options of later rules: evaluates and skipped routes leave none behind. */
  lemma {:induction false} OptionsDoNotLeak(env: Env, rules: seq<Action>, k: nat, options: QueryOptions,
          allowFakeIP: bool)
    requires k <= |rules| && Reached(env, rules, k, options, allowFakeIP).Some?
    ensures Reached(env, rules, k, options, allowFakeIP).value.options
            == OverlayAll(options, FiredSettings(env, rules, k, options, allowFakeIP))
  {
    if k > 0 {
      OptionsDoNotLeak(env, rules, k - 1, options, allowFakeIP);
      PassedRuleOptions(env, rules, k - 1, Reached(env, rules, k - 1, options, allowFakeIP).value, allowFakeIP);
      var earlier := FiredSettings(env, rules, k - 1, options, allowFakeIP);
      if rules[k - 1].SetOptions? && Fires(env, rules, k - 1, options, allowFakeIP) {
        OverlaySnoc(options, earlier, rules[k - 1].settings);
      } else {
        assert earlier + [] == earlier;
      }
    }
  }

  /** Route options that follow each other: a switch is on when any turns it on; what none gives is the query's own. */
  lemma {:induction false} UnsetIsKept(o: QueryOptions, settings: seq<RouteSettings>)
    ensures var r := OverlayAll(o, settings);
            && r.strategy == o.strategy && r.lookupStrategy == o.lookupStrategy
            && (r.disableCache <==> o.disableCache || exists s :: s in settings && s.disableCache)
            && (r.disableOptimisticCache
                <==> o.disableOptimisticCache || exists s :: s in settings && s.disableOptimisticCache)
            && ((forall s :: s in settings ==> s.rewriteTTL.None?) ==> r.rewriteTTL == o.rewriteTTL)
            && ((forall s :: s in settings ==> s.timeout <= 0) ==> r.timeout == o.timeout)
            && ((forall s :: s in settings ==> s.clientSubnet.None?) ==> r.clientSubnet == o.clientSubnet)
  {
    if settings != [] {
      var front, last := settings[..|settings| - 1], settings[|settings| - 1];
      UnsetIsKept(o, front);
      assert forall s :: s in settings <==> s in front || s == last;
    }
  }

  /** And a value is the last one given. */
  lemma {:induction false} LastSettingWins(o: QueryOptions, settings: seq<RouteSettings>, k: nat)
    requires k < |settings|
    ensures var r, s := OverlayAll(o, settings), settings[k];
            && (s.rewriteTTL.Some? && (forall j :: k < j < |settings| ==> settings[j].rewriteTTL.None?) ==>
                  r.rewriteTTL == s.rewriteTTL)
            && (s.timeout > 0 && (forall j :: k < j < |settings| ==> settings[j].timeout <= 0) ==>
                  r.timeout == s.timeout)
            && (s.clientSubnet.Some? && (forall j :: k < j < |settings| ==> settings[j].clientSubnet.None?) ==>
                  r.clientSubnet == s.clientSubnet)
  {
    var front := settings[..|settings| - 1];
    if k < |front| {
      LastSettingWins(o, front, k);
      assert forall j :: 0 <= j < |front| ==> front[j] == settings[j];
    }
  }

  /** The options of a query under the given route options, with the strategy of the call or else the default. */
  function AskedWith(env: Env, options: QueryOptions, settings: seq<RouteSettings>): QueryOptions {
    var strategy := if options.strategy == AsIs then env.defaultStrategy else options.strategy;
    OverlayAll(options, settings).(strategy := strategy)
  }

  lemma SentIsAsked(env: Env, options: QueryOptions, earlier: seq<RouteSettings>, s: RouteSettings)
    ensures Sent(env, OverlayAll(options, earlier)) == AskedWith(env, options, earlier)
    ensures Sent(env, Overlay(OverlayAll(options, earlier), s, false)) == AskedWith(env, options, earlier + [s])
    ensures OverlayAll(options, earlier + [s]) == Overlay(OverlayAll(options, earlier), s, false)
  {
    OverlaySnoc(options, earlier, s);
    UnsetIsKept(options, earlier);
    UnsetIsKept(options, earlier + [s]);
  }

  /** The queries of the evaluate rules on known servers that fire before rule `k`, in order. */
  function FiredCalls(env: Env, rules: seq<Action>, k: nat, options: QueryOptions, allowFakeIP: bool): seq<Call>
    requires k <= |rules|
  {
    if k == 0 then []
    else
      var earlier := FiredCalls(env, rules, k - 1, options, allowFakeIP);
      if rules[k - 1].EvaluateOn? && Fires(env, rules, k - 1, options, allowFakeIP)
         && rules[k - 1].settings.server in env.transports then
        var s := rules[k - 1].settings;
        var before := FiredSettings(env, rules, k - 1, options, allowFakeIP);
        earlier + [Call(env.transports[s.server], AskedWith(env, options, before + [s]))]
      else earlier
  }

  /** The query that rule `i` sends before going on, if it does. */
  function OwnCall(env: Env, rules: seq<Action>, i: nat, f: Frame): seq<Call>
    requires i < |rules|
  {
    if rules[i].EvaluateOn? && env.matches(i, ResponseOf(f.evaluated))
       && rules[i].settings.server in env.transports then
      var s := rules[i].settings;
      [Call(env.transports[s.server], Sent(env, Overlay(f.options, s, false)))]
    else []
  }

  lemma PassedRuleAsks(env: Env, rules: seq<Action>, i: nat, f: Frame, allowFakeIP: bool)
    requires i < |rules|
    ensures var next := StepRule(env, rules, i, f, allowFakeIP, false);
            next.Continue? ==> next.frame.calls == f.calls + OwnCall(env, rules, i, f)
  {
  }

  lemma OwnCallIsFired(env: Env, rules: seq<Action>, k: nat, options: QueryOptions, allowFakeIP: bool)
    requires k < |rules| && Reached(env, rules, k, options, allowFakeIP).Some?
    ensures var f := Reached(env, rules, k, options, allowFakeIP).value;
            FiredCalls(env, rules, k + 1, options, allowFakeIP)
            == FiredCalls(env, rules, k, options, allowFakeIP) + OwnCall(env, rules, k, f)
  {
    OptionsDoNotLeak(env, rules, k, options, allowFakeIP);
    if rules[k].EvaluateOn? {
      SentIsAsked(env, options, FiredSettings(env, rules, k, options, allowFakeIP), rules[k].settings);
    }
  }

  /** Before a rule decides, only the evaluates that fired on a known server have asked. */
  lemma {:induction false} OnlyEvaluatesAsk(env: Env, rules: seq<Action>, k: nat, options: QueryOptions,
          allowFakeIP: bool)
    requires k <= |rules| && Reached(env, rules, k, options, allowFakeIP).Some?
    ensures Reached(env, rules, k, options, allowFakeIP).value.calls == FiredCalls(env, rules, k, options, allowFakeIP)
  {
    if k > 0 {
      OnlyEvaluatesAsk(env, rules, k - 1, options, allowFakeIP);
      PassedRuleAsks(env, rules, k - 1, Reached(env, rules, k - 1, options, allowFakeIP).value, allowFakeIP);
      OwnCallIsFired(env, rules, k - 1, options, allowFakeIP);
    }
  }

  /** The answer that evaluate rule `j` has left: of its server to the next query, none if it is unknown or fails. */
  function AnswerOf(env: Env, rules: seq<Action>, j: nat, options: QueryOptions, allowFakeIP: bool): Option<Evaluated>
    requires j < |rules| && rules[j].EvaluateOn?
  {
    var s := rules[j].settings;
    if s.server !in env.transports then None
    else
      var transport := env.transports[s.server];
      var asked := AskedWith(env, options, FiredSettings(env, rules, j, options, allowFakeIP) + [s]);
      match env.exchange(|FiredCalls(env, rules, j, options, allowFakeIP)|, transport, asked)
      case Replied(response) => Some(Evaluated(response, transport))
      case FailedWith(_) => None
  }

  lemma EvaluationIsAnswer(env: Env, rules: seq<Action>, j: nat, options: QueryOptions, allowFakeIP: bool)
    requires j < |rules| && rules[j].EvaluateOn? && Reached(env, rules, j, options, allowFakeIP).Some?
    ensures EvaluationOf(env, rules[j].settings, Reached(env, rules, j, options, allowFakeIP).value)
            == AnswerOf(env, rules, j, options, allowFakeIP)
  {
    OnlyEvaluatesAsk(env, rules, j, options, allowFakeIP);
    OptionsDoNotLeak(env, rules, j, options, allowFakeIP);
    SentIsAsked(env, options, FiredSettings(env, rules, j, options, allowFakeIP), rules[j].settings);
  }

  /** Every rule is matched against the answer of the latest evaluate that fired before it. */
  lemma SeesLatestAnswer(env: Env, rules: seq<Action>, k: nat, options: QueryOptions, allowFakeIP: bool)
    requires k <= |rules| && Reached(env, rules, k, options, allowFakeIP).Some?
    ensures Reached(env, rules, k, options, allowFakeIP).value.evaluated
            == match Latest(env, rules, k, options, allowFakeIP)
               case None => None
               case Some(j) => AnswerOf(env, rules, j, options, allowFakeIP)
  {
    SeesLatestEvaluate(env, rules, k, options, allowFakeIP);
    match Latest(env, rules, k, options, allowFakeIP)
    case None =>
    case Some(j) => EvaluationIsAnswer(env, rules, j, options, allowFakeIP);
  }

  /**
    A respond rule ends the query with exactly the answer of the latest
    evaluate, and fails exactly when there is none or it failed.
   */
  lemma RespondReturnsLatest(env: Env, rules: seq<Action>, k: nat, options: QueryOptions, allowFakeIP: bool)
    requires k < |rules| && rules[k].RespondNow? && Fires(env, rules, k, options, allowFakeIP)
    ensures var (result, calls) := Interpret(env, rules, 0, Begin(options), allowFakeIP, false);
            var latest := Latest(env, rules, k, options, allowFakeIP);
            && calls == FiredCalls(env, rules, k, options, allowFakeIP)
            && if latest.Some? && AnswerOf(env, rules, latest.value, options, allowFakeIP).Some? then
                 var e := AnswerOf(env, rules, latest.value, options, allowFakeIP).value;
                 result == ExchangeResult(Some(e.response), Some(e.transport), None, None)
               else result == ExchangeResult(None, None, None, Some(MissingResponse))
  {
    InterpretFromReached(env, rules, k, options, allowFakeIP);
    SeesLatestAnswer(env, rules, k, options, allowFakeIP);
    OnlyEvaluatesAsk(env, rules, k, options, allowFakeIP);
  }

  /** What the answer of a server makes of a query. */
  predicate IsResultOf(result: ExchangeResult, reply: Reply, transport: Transport) {
    && result.transport == Some(transport) && result.reject.None?
    && (reply.Replied? ==> result.response == Some(reply.response) && result.err.None?)
    && (reply.FailedWith? ==> result.response.None? && result.err == Some(reply.failure))
  }

  /** A route rule that fires on a usable server ends the query there, with the last query of the run. */
  lemma RouteDecides(env: Env, rules: seq<Action>, k: nat, options: QueryOptions, allowFakeIP: bool)
    requires k < |rules| && rules[k].RouteTo? && Fires(env, rules, k, options, allowFakeIP)
    requires rules[k].settings.server in env.transports
    requires env.transports[rules[k].settings.server].isFakeIP ==> allowFakeIP
    ensures var (result, calls) := Interpret(env, rules, 0, Begin(options), allowFakeIP, false);
            var transport := env.transports[rules[k].settings.server];
            var fired := FiredSettings(env, rules, k, options, allowFakeIP);
            var own := AskedWith(env, options, fired + [rules[k].settings]);
            var asked := own.(disableCache := own.disableCache || transport.isFakeIP);
            var before := FiredCalls(env, rules, k, options, allowFakeIP);
            && calls == before + [Call(transport, asked)]
            && IsResultOf(result, env.exchange(|before|, transport, asked), transport)
  {
    InterpretFromReached(env, rules, k, options, allowFakeIP);
    OnlyEvaluatesAsk(env, rules, k, options, allowFakeIP);
    OptionsDoNotLeak(env, rules, k, options, allowFakeIP);
    SentIsAsked(env, options, FiredSettings(env, rules, k, options, allowFakeIP), rules[k].settings);
  }

  /** When no rule decides, the default server does, with the route options that fired. */
  lemma DefaultDecides(env: Env, rules: seq<Action>, options: QueryOptions, allowFakeIP: bool)
    requires Reached(env, rules, |rules|, options, allowFakeIP).Some?
    ensures var (result, calls) := Interpret(env, rules, 0, Begin(options), allowFakeIP, false);
            var asked := AskedWith(env, options, FiredSettings(env, rules, |rules|, options, allowFakeIP));
            var before := FiredCalls(env, rules, |rules|, options, allowFakeIP);
            && calls == before + [Call(env.default, asked)]
            && IsResultOf(result, env.exchange(|before|, env.default, asked), env.default)
  {
    InterpretFromReached(env, rules, |rules|, options, allowFakeIP);
    OnlyEvaluatesAsk(env, rules, |rules|, options, allowFakeIP);
    OptionsDoNotLeak(env, rules, |rules|, options, allowFakeIP);
    UnsetIsKept(options, FiredSettings(env, rules, |rules|, options, allowFakeIP));
  }

  // ----- which rule decides

  /** The action ends the query with its rule. */
  predicate Ends(env: Env, action: Action, allowFakeIP: bool) {
    || action.RespondNow? || action.RejectWith? || action.Answer?
    || (action.RouteTo? && action.settings.server in env.transports
        && (env.transports[action.settings.server].isFakeIP ==> allowFakeIP))
  }

  /**
    The rule behind a reached one is reached unless that one fires and ends the
    query: a failed evaluate, an unknown server and a forbidden FakeIP server
    are passed over.
   */
  lemma ReachedNext(env: Env, rules: seq<Action>, k: nat, options: QueryOptions, allowFakeIP: bool)
    requires k < |rules|
    ensures Reached(env, rules, k + 1, options, allowFakeIP).Some?
            <==> && Reached(env, rules, k, options, allowFakeIP).Some?
                 && !(Fires(env, rules, k, options, allowFakeIP) && Ends(env, rules[k], allowFakeIP))
  {
  }

  /** So a rule is reached exactly when no earlier one has fired and ended the query. */
  lemma {:induction false} ReachedExactly(env: Env, rules: seq<Action>, k: nat, options: QueryOptions,
          allowFakeIP: bool)
    requires k <= |rules|
    ensures Reached(env, rules, k, options, allowFakeIP).Some?
            <==> forall j :: 0 <= j < k ==>
                   !(Fires(env, rules, j, options, allowFakeIP) && Ends(env, rules[j], allowFakeIP))
  {
    if k > 0 {
      ReachedExactly(env, rules, k - 1, options, allowFakeIP);
      ReachedNext(env, rules, k - 1, options, allowFakeIP);
    }
  }

  /** A reject rule that fires refuses or drops the query, after the queries of the evaluates before it. */
  lemma RejectEnds(env: Env, rules: seq<Action>, k: nat, options: QueryOptions, allowFakeIP: bool)
    requires k < |rules| && rules[k].RejectWith? && Fires(env, rules, k, options, allowFakeIP)
    ensures var (result, calls) := Interpret(env, rules, 0, Begin(options), allowFakeIP, false);
            && calls == FiredCalls(env, rules, k, options, allowFakeIP)
            && result == match rules[k].how
                         case RejectDefault => ExchangeResult(Some(env.refused), None, Some(RejectDefault), None)
                         case RejectDrop => ExchangeResult(None, None, Some(RejectDrop), Some(Dropped))
  {
    InterpretFromReached(env, rules, k, options, allowFakeIP);
    OnlyEvaluatesAsk(env, rules, k, options, allowFakeIP);
  }

  /** A predefined rule that fires answers with its own response. */
  lemma PredefinedEnds(env: Env, rules: seq<Action>, k: nat, options: QueryOptions, allowFakeIP: bool)
    requires k < |rules| && rules[k].Answer? && Fires(env, rules, k, options, allowFakeIP)
    ensures Interpret(env, rules, 0, Begin(options), allowFakeIP, false)
            == (ExchangeResult(Some(env.predefined(k)), None, None, None),
                FiredCalls(env, rules, k, options, allowFakeIP))
  {
    InterpretFromReached(env, rules, k, options, allowFakeIP);
    OnlyEvaluatesAsk(env, rules, k, options, allowFakeIP);
  }

  /** On a validated list, a respond that finds no answer has an evaluate before it that did not match or failed. */
  lemma RespondFollowsEvaluate(router: Router, rules: seq<Rule>, overrides: Overrides, k: nat)
    requires forall i :: 0 <= i < |rules| ==> NodeAction(rules[i]).Some?
    requires Validate(router, rules, overrides, 0, false).Ok?
    requires k < |rules|
    requires BuildAll(rules)[k].RespondNow? || exists n :: n in NodesIn(rules[k]) && NodeNeedsResponse(n)
    ensures exists j :: 0 <= j < k && BuildAll(rules)[j].EvaluateOn?
  {
    AcceptedMeansEvaluateFirst(router, rules, overrides);
    if BuildAll(rules)[k].RespondNow? {
      assert NodeIn(rules[k], rules[k]);
      assert rules[k] in NodesIn(rules[k]) && NodeNeedsResponse(rules[k]);
    }
    assert !LacksEvaluate(rules, k);
    var j :| 0 <= j < k && Evaluates(rules[j]);
    assert BuildAll(rules)[j].EvaluateOn?;
  }

  // ----- FakeIP servers

  /** The build-time check that no evaluate rule names a FakeIP server. */
  method ValidateEvaluateFakeIP(rules: seq<Rule>, transports: map<string, Transport>) returns (r: Result<()>)
    ensures r.Ok? <==> forall i :: 0 <= i < |rules| ==> !EvaluatesOnFakeIP(rules[i], transports)
    ensures r.Err? ==>
              && r.error.EvaluateOnFakeIP? && r.error.index < |rules|
              && EvaluatesOnFakeIP(rules[r.error.index], transports)
              && forall i :: 0 <= i < r.error.index ==> !EvaluatesOnFakeIP(rules[i], transports)
  {
    for i := 0 to |rules|
      invariant forall k :: 0 <= k < i ==> !EvaluatesOnFakeIP(rules[k], transports)
    {
      if ActionOf(rules[i]) == Some(Evaluate) {
        var server := ServerOf(rules[i]);
        if server != "" && server in transports && transports[server].isFakeIP {
          return Err(EvaluateOnFakeIP(i));
        }
      }
    }
    return Ok(());
  }

  predicate EvaluatesOnFakeIP(rule: Rule, transports: map<string, Transport>) {
    && ActionOf(rule) == Some(Evaluate) && ServerOf(rule) != ""
    && ServerOf(rule) in transports && transports[ServerOf(rule)].isFakeIP
  }

  lemma {:induction false} NoFakeIPCalls(env: Env, rules: seq<Action>, i: nat, f: Frame)
    requires i <= |rules| && !env.default.isFakeIP
    requires forall k :: i <= k < |rules| && rules[k].EvaluateOn? && rules[k].settings.server in env.transports ==>
               !env.transports[rules[k].settings.server].isFakeIP
    requires forall c :: c in f.calls ==> !c.transport.isFakeIP
    ensures forall c :: c in Interpret(env, rules, i, f, false, false).1 ==> !c.transport.isFakeIP
    decreases |rules| - i
  {
    if i < |rules| {
      match StepRule(env, rules, i, f, false, false)
      case Continue(next) => NoFakeIPCalls(env, rules, i + 1, next);
      case Stop(_, _) =>
    }
  }

  /** A lookup on rules that passed the build-time check never asks a FakeIP server; no transport has the empty tag. */
  lemma LookupAvoidsFakeIP(rules: seq<Rule>, env: Env, options: QueryOptions)
    requires forall i :: 0 <= i < |rules| ==> NodeAction(rules[i]).Some? && !EvaluatesOnFakeIP(rules[i], env.transports)
    requires "" !in env.transports && !env.default.isFakeIP
    ensures forall c :: c in Interpret(env, BuildAll(rules), 0, Begin(options), false, false).1 ==>
              !c.transport.isFakeIP
  {
    NoFakeIPCalls(env, BuildAll(rules), 0, Begin(options));
  }

  // ----- lookups

  // The causes are those that the returned error joins; without a cause there is no error, and no address either.
  datatype LookupResult = Found(addresses: seq<Address>) | NotFound(causes: set<LookupFailure>)

  datatype LookupFailure =
    | RejectedBy(how: RejectMethod)
    | ExchangeFailed(failure: Failure)
    | Rcode(rcode: nat)

  datatype QueryType = TypeA | TypeAAAA

  predicate OfType(a: Address, qType: QueryType) {
    if qType == TypeA then a.V4? else a.V6?
  }

  function FilterByType(addresses: seq<Address>, qType: QueryType): (r: seq<Address>)
    ensures forall a :: a in r <==> a in addresses && OfType(a, qType)
    ensures forall a :: multiset(r)[a] == if OfType(a, qType) then multiset(addresses)[a] else 0
  {
    assert addresses != [] ==> addresses == [addresses[0]] + addresses[1..];
    if addresses == [] then []
    else (if OfType(addresses[0], qType) then [addresses[0]] else []) + FilterByType(addresses[1..], qType)
  }

  /** One query of the given type, answered by `env`. */
  method LookupWithRulesType(env: Env, rules: seq<Action>, qType: QueryType,
          options: QueryOptions) returns (r: LookupResult)
    ensures r == LookupType(env, rules, qType, options)
  {
    var result, _ := ExchangeWithRules(env, rules, options, false);
    if result.reject.Some? { return NotFound({RejectedBy(result.reject.value)}); }
    if result.err.Some? { return NotFound({ExchangeFailed(result.err.value)}); }
    if result.response.value.rcode != 0 { return NotFound({Rcode(result.response.value.rcode)}); }
    return Found(FilterByType(result.response.value.addresses, qType));
  }

  function LookupType(env: Env, rules: seq<Action>, qType: QueryType, options: QueryOptions): (r: LookupResult)
    ensures AllOfType(AddressesOf(r), qType)
  {
    var (result, _) := Interpret(env, rules, 0, Begin(options), false, false);
    if result.reject.Some? then NotFound({RejectedBy(result.reject.value)})
    else if result.err.Some? then NotFound({ExchangeFailed(result.err.value)})
    else if result.response.value.rcode != 0 then NotFound({Rcode(result.response.value.rcode)})
    else Found(FilterByType(result.response.value.addresses, qType))
  }

  /** The message is a server's reply to one of the queries, or the answer of a predefined rule. */
  ghost predicate AnsweredBy(env: Env, rules: seq<Action>, calls: seq<Call>, m: Msg) {
    || RepliedIn(env, calls, m)
    || exists k :: 0 <= k < |rules| && rules[k].Answer? && m == env.predefined(k)
  }

  ghost predicate RepliedIn(env: Env, calls: seq<Call>, m: Msg) {
    exists n :: 0 <= n < |calls| && env.exchange(n, calls[n].transport, calls[n].options) == Replied(m)
  }

  lemma RepliedSnoc(env: Env, calls: seq<Call>, call: Call, m: Msg)
    requires RepliedIn(env, calls, m) || env.exchange(|calls|, call.transport, call.options) == Replied(m)
    ensures RepliedIn(env, calls + [call], m)
  {
    var longer := calls + [call];
    if RepliedIn(env, calls, m) {
      var n :| 0 <= n < |calls| && env.exchange(n, calls[n].transport, calls[n].options) == Replied(m);
      assert longer[n] == calls[n];
    } else {
      assert longer[|calls|] == call;
    }
  }

  /** No response is made up: unless a rule rejects the query, it is one that was asked for or configured. */
  lemma {:induction false} ResponsesAreReal(env: Env, rules: seq<Action>, i: nat, f: Frame, allowFakeIP: bool)
    requires i <= |rules| && (f.evaluated.Some? ==> RepliedIn(env, f.calls, f.evaluated.value.response))
    ensures var (result, calls) := Interpret(env, rules, i, f, allowFakeIP, false);
            result.response.Some? && result.reject.None? ==> AnsweredBy(env, rules, calls, result.response.value)
    decreases |rules| - i
  {
    if i == |rules| {
      LastReply(env, f.calls, Call(env.default, Sent(env, f.options)));
    } else {
      match StepRule(env, rules, i, f, allowFakeIP, false)
      case Continue(next) =>
        if |next.calls| > |f.calls| && next.evaluated.Some? {
          RepliedSnoc(env, f.calls, next.calls[|f.calls|], next.evaluated.value.response);
        }
        ResponsesAreReal(env, rules, i + 1, next, allowFakeIP);
      case Stop(result, calls) =>
        if |calls| > |f.calls| { LastReply(env, f.calls, calls[|f.calls|]); }
    }
  }

  lemma LastReply(env: Env, calls: seq<Call>, call: Call)
    ensures var reply := env.exchange(|calls|, call.transport, call.options);
            reply.Replied? ==> RepliedIn(env, calls + [call], reply.response)
  {
    var reply := env.exchange(|calls|, call.transport, call.options);
    if reply.Replied? { RepliedSnoc(env, calls, call, reply.response); }
  }

  /** A rule rejects the query in this way. */
  ghost predicate RejectFires(env: Env, rules: seq<Action>, options: QueryOptions, allowFakeIP: bool,
          how: RejectMethod)
  {
    exists k :: 0 <= k < |rules| && rules[k] == RejectWith(how) && Fires(env, rules, k, options, allowFakeIP)
  }

  lemma {:induction false} RejectHasRule(env: Env, rules: seq<Action>, i: nat, options: QueryOptions, allowFakeIP: bool)
    requires i <= |rules| && Reached(env, rules, i, options, allowFakeIP).Some?
    ensures var f := Reached(env, rules, i, options, allowFakeIP).value;
            var reject := Interpret(env, rules, i, f, allowFakeIP, false).0.reject;
            reject.Some? ==> RejectFires(env, rules, options, allowFakeIP, reject.value)
    decreases |rules| - i
  {
    if i < |rules| {
      var f := Reached(env, rules, i, options, allowFakeIP).value;
      var next := StepRule(env, rules, i, f, allowFakeIP, false);
      if next.Continue? {
        RejectHasRule(env, rules, i + 1, options, allowFakeIP);
      } else if next.result.reject.Some? {
        assert rules[i] == RejectWith(next.result.reject.value) && Fires(env, rules, i, options, allowFakeIP);
      }
    }
  }

  /** Without a rejection the lookup reports the error or the code of the run, and finds whenever it succeeds. */
  lemma LookupOutcome(env: Env, rules: seq<Action>, qType: QueryType, options: QueryOptions)
    ensures var r := LookupType(env, rules, qType, options);
            var result := Interpret(env, rules, 0, Begin(options), false, false).0;
            && (result.err.Some? && result.reject.None? ==> r == NotFound({ExchangeFailed(result.err.value)}))
            && (result.err.None? && result.reject.None? && result.response.value.rcode != 0 ==>
                  r == NotFound({Rcode(result.response.value.rcode)}))
            && (r.Found? <==> result.err.None? && result.reject.None? && result.response.value.rcode == 0)
  {
  }

  /**
    A lookup query is reported as rejected exactly when a reject rule fires,
    whatever was asked before; otherwise what it finds are all addresses of the
    asked family in a successful response that was asked for or configured.
   */
  lemma LookupTypeMeans(env: Env, rules: seq<Action>, qType: QueryType, options: QueryOptions, how: RejectMethod)
    ensures LookupType(env, rules, qType, options) == NotFound({RejectedBy(how)})
            <==> RejectFires(env, rules, options, false, how)
    ensures var r := LookupType(env, rules, qType, options);
            var calls := Interpret(env, rules, 0, Begin(options), false, false).1;
            r.Found? ==> exists m: Msg :: m.rcode == 0 && AnsweredBy(env, rules, calls, m)
                                     && forall a :: multiset(r.addresses)[a]
                                                    == if OfType(a, qType) then multiset(m.addresses)[a] else 0
  {
    var (result, calls) := Interpret(env, rules, 0, Begin(options), false, false);
    RejectHasRule(env, rules, 0, options, false);
    if RejectFires(env, rules, options, false, how) {
      var k :| 0 <= k < |rules| && rules[k] == RejectWith(how) && Fires(env, rules, k, options, false);
      InterpretFromReached(env, rules, k, options, false);
    }
    var r := LookupType(env, rules, qType, options);
    if r.Found? {
      ResponsesAreReal(env, rules, 0, Begin(options), false);
      assert r.addresses == FilterByType(result.response.value.addresses, qType);
    }
  }

  /** The strategy of a lookup: its own first, then the query's, then the router's. */
  predicate InForce(strategy: Strategy, options: QueryOptions, default: Strategy) {
    && (options.lookupStrategy != AsIs ==> strategy == options.lookupStrategy)
    && (options.lookupStrategy == AsIs && options.strategy != AsIs ==> strategy == options.strategy)
    && (options.lookupStrategy == AsIs && options.strategy == AsIs ==> strategy == default)
  }

  function LookupStrategy(options: QueryOptions, default: Strategy): Strategy {
    if options.lookupStrategy != AsIs then options.lookupStrategy
    else if options.strategy != AsIs then options.strategy
    else default
  }

  function AddressesOf(r: LookupResult): seq<Address> {
    if r.Found? then r.addresses else []
  }

  function CausesOf(r: LookupResult): set<LookupFailure> {
    if r.NotFound? then r.causes else {}
  }

  /** No address of the less preferred family comes before one of the preferred family. */
  ghost predicate Prefers(addresses: seq<Address>, first: QueryType) {
    forall i, j :: 0 <= i < j < |addresses| && OfType(addresses[j], first) ==> OfType(addresses[i], first)
  }

  ghost predicate AllOfType(addresses: seq<Address>, qType: QueryType) {
    forall a :: a in addresses ==> OfType(a, qType)
  }

  /** sortAddresses: the families one after the other. */
  function SortAddresses(four: seq<Address>, six: seq<Address>, strategy: Strategy): (r: seq<Address>)
    requires AllOfType(four, TypeA) && AllOfType(six, TypeAAAA)
    ensures Prefers(r, if strategy == PreferIPv6 then TypeAAAA else TypeA)
    ensures multiset(r) == multiset(four) + multiset(six)
  {
    if strategy == PreferIPv6 then
      BlocksPrefer(six, four, TypeAAAA);
      six + four
    else
      BlocksPrefer(four, six, TypeA);
      four + six
  }

  lemma BlocksPrefer(first: seq<Address>, second: seq<Address>, qType: QueryType)
    requires AllOfType(first, qType) && forall a :: a in second ==> !OfType(a, qType)
    ensures Prefers(first + second, qType)
  {
  }

  /** The outcome of the two family lookups under a strategy. */
  function Combine(strategy: Strategy, four: LookupResult, six: LookupResult): (r: LookupResult)
    requires AllOfType(AddressesOf(four), TypeA) && AllOfType(AddressesOf(six), TypeAAAA)
    ensures strategy == IPv4Only ==> r == four
    ensures strategy == IPv6Only ==> r == six
    // otherwise both families contribute, the preferred one first, one of them may fail, and both errors are joined
    ensures strategy != IPv4Only && strategy != IPv6Only ==>
              && Prefers(AddressesOf(r), if strategy == PreferIPv6 then TypeAAAA else TypeA)
              && multiset(AddressesOf(r)) == multiset(AddressesOf(four)) + multiset(AddressesOf(six))
              && (r.Found? <==> AddressesOf(four) != [] || AddressesOf(six) != [])
              && (r.NotFound? ==> r.causes == CausesOf(four) + CausesOf(six))
  {
    if strategy == IPv4Only then four
    else if strategy == IPv6Only then six
    else if AddressesOf(four) == [] && AddressesOf(six) == [] then
      NotFound(CausesOf(four) + CausesOf(six))
    else Found(SortAddresses(AddressesOf(four), AddressesOf(six), strategy))
  }

  /** The lookup: two queries, for A (`env4`) and AAAA (`env6`), unless the strategy names one family. */
  method LookupWithRules(env4: Env, env6: Env, rules: seq<Action>, options: QueryOptions) returns (r: LookupResult)
    ensures forall strategy :: InForce(strategy, options, env4.defaultStrategy) ==>
              var used := if strategy == AsIs then options else options.(strategy := strategy);
              r == Combine(strategy, LookupType(env4, rules, TypeA, used), LookupType(env6, rules, TypeAAAA, used))
  {
    var strategy := LookupStrategy(options, env4.defaultStrategy);
    var lookupOptions := options;
    if strategy != AsIs { lookupOptions := lookupOptions.(strategy := strategy); }
    if strategy == IPv4Only {
      r := LookupWithRulesType(env4, rules, TypeA, lookupOptions);
      return;
    }
    if strategy == IPv6Only {
      r := LookupWithRulesType(env6, rules, TypeAAAA, lookupOptions);
      return;
    }
    var four := LookupWithRulesType(env4, rules, TypeA, lookupOptions);
    var six := LookupWithRulesType(env6, rules, TypeAAAA, lookupOptions);
    var response4, response6 := AddressesOf(four), AddressesOf(six);
    if response4 == [] && response6 == [] {
      r := NotFound(CausesOf(four) + CausesOf(six));
    } else {
      r := Found(SortAddresses(response4, response6, strategy));
    }
  }
}
