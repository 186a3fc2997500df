/**
  The legacy DNS mode: one pass finds the next rule that can decide the query,
  and a rejected answer of an address-limited rule sends the search on to the
  rules behind it.
 */
module DnsLegacy {
  import opened DnsRules
  import opened DnsInterpreter
  import opened Wrappers
  import RuleMatching

  datatype LegacyRule = LegacyRule(action: Action, addressLimit: bool)

  datatype LegacyReply = Answered(response: Msg) | ResponseRejected(cached: bool) | OtherError(code: int)

  // `exchange` answers the attempt on rule `index`, or on the default server for index -1.
  datatype LegacyEnv = LegacyEnv(
    preMatch: nat -> bool,
    transports: map<string, Transport>,
    default: Transport,
    defaultStrategy: Strategy,
    exchange: (int, Transport, QueryOptions) -> LegacyReply)

  // What kind of call is being answered: a lookup always asks for addresses.
  datatype Query = Query(isLookup: bool, isAddressQuery: bool)

  predicate AddressQuery(q: Query) {
    q.isLookup || q.isAddressQuery
  }

  datatype Attempt = Attempt(index: int, transport: Option<Transport>, options: QueryOptions)

  datatype Outcome = DecidedByRule(index: int) | FromServer(reply: LegacyReply)

  /** Rule `i` is looked at and matches. */
  predicate Considered(env: LegacyEnv, rules: seq<LegacyRule>, q: Query, i: nat)
    requires i < |rules|
  {
    (rules[i].addressLimit ==> AddressQuery(q)) && env.preMatch(i)
  }

  /** Rule `i` can decide the query. */
  predicate Admissible(env: LegacyEnv, rules: seq<LegacyRule>, q: Query, i: nat)
    requires i < |rules|
  {
    Considered(env, rules, q, i) &&
    match rules[i].action
    case RouteTo(s) => s.server in env.transports && (env.transports[s.server].isFakeIP ==> !q.isLookup)
    case RejectWith(_) => true
    case Answer => true
    case _ => false
  }

  function LegacyOverlay(o: QueryOptions, s: RouteSettings, isFakeIP: bool): QueryOptions {
    QueryOptions(
      if s.strategy != AsIs then s.strategy else o.strategy,
      o.lookupStrategy,
      o.disableCache || isFakeIP || s.disableCache,
      o.disableOptimisticCache,
      if s.rewriteTTL.Some? then s.rewriteTTL else o.rewriteTTL,
      if s.timeout > 0 then s.timeout else o.timeout,
      if s.clientSubnet.Some? then s.clientSubnet else o.clientSubnet)
  }

  /** The options after the route-options rules among `rules[from..until]`. */
  function Accumulated(env: LegacyEnv, rules: seq<LegacyRule>, q: Query, from: nat, until: nat,
          o: QueryOptions): QueryOptions
    requires from <= until <= |rules|
    decreases until
  {
    if from == until then o
    else
      var earlier := Accumulated(env, rules, q, from, until - 1, o);
      if Considered(env, rules, q, until - 1) && rules[until - 1].action.SetOptions?
      then LegacyOverlay(earlier, rules[until - 1].action.settings, false) else earlier
  }

  /** The attempt that a search from `from` makes when it stops at `index` (-1: at the default server). */
  function AttemptAt(env: LegacyEnv, rules: seq<LegacyRule>, q: Query, from: nat, index: int, o: QueryOptions): Attempt
    requires from <= |rules| && (index == -1 || (from <= index < |rules| && Admissible(env, rules, q, index)))
  {
    if index == -1 then Attempt(-1, Some(env.default), Accumulated(env, rules, q, from, |rules|, o))
    else
      var before := Accumulated(env, rules, q, from, index, o);
      match rules[index].action
      case RouteTo(s) =>
        var transport := env.transports[s.server];
        Attempt(index, Some(transport), LegacyOverlay(before, s, transport.isFakeIP))
      case _ => Attempt(index, None, before)
  }

  /** `index` is the first admissible rule from `from` on, or -1 when there is none. */
  ghost predicate IsNext(env: LegacyEnv, rules: seq<LegacyRule>, q: Query, from: nat, index: int)
    requires from <= |rules|
  {
    if index == -1 then forall k :: from <= k < |rules| ==> !Admissible(env, rules, q, k)
    else from <= index < |rules| && Admissible(env, rules, q, index)
         && forall k :: from <= k < index ==> !Admissible(env, rules, q, k)
  }

  method ApplySettings(options: QueryOptions, s: RouteSettings, isFakeIP: bool) returns (o: QueryOptions)
    ensures o == LegacyOverlay(options, s, isFakeIP)
  {
    o := options;
    if s.strategy != AsIs { o := o.(strategy := s.strategy); }
    if isFakeIP || s.disableCache { o := o.(disableCache := true); }
    if s.rewriteTTL.Some? { o := o.(rewriteTTL := s.rewriteTTL); }
    if s.timeout > 0 { o := o.(timeout := s.timeout); }
    if s.clientSubnet.Some? { o := o.(clientSubnet := s.clientSubnet); }
  }

  /** matchDNS, searching behind `ruleIndex`. */
  method MatchDNS(env: LegacyEnv, rules: seq<LegacyRule>, q: Query, ruleIndex: int,
          options: QueryOptions) returns (a: Attempt)
    requires -1 <= ruleIndex < |rules|
    ensures IsNext(env, rules, q, ruleIndex + 1, a.index)
    ensures a == AttemptAt(env, rules, q, ruleIndex + 1, a.index, options)
    ensures a.transport == if a.index == -1 then Some(env.default)
                           else if rules[a.index].action.RouteTo?
                                then Some(env.transports[rules[a.index].action.settings.server]) else None
  {
    var o := options;
    for i := ruleIndex + 1 to |rules|
      invariant forall k :: ruleIndex + 1 <= k < i ==> !Admissible(env, rules, q, k)
      invariant o == Accumulated(env, rules, q, ruleIndex + 1, i, options)
    {
      var rule := rules[i];
      if !(rule.addressLimit && !AddressQuery(q)) && env.preMatch(i) {
        match rule.action
        case RouteTo(s) =>
          if s.server in env.transports {
            var transport := env.transports[s.server];
            if !(transport.isFakeIP && q.isLookup) {
              o := ApplySettings(o, s, transport.isFakeIP);
              return Attempt(i, Some(transport), o);
            }
          }
        case SetOptions(s) =>
          o := ApplySettings(o, s, false);
        case RejectWith(_) => return Attempt(i, None, o);
        case Answer => return Attempt(i, None, o);
        case EvaluateOn(_) =>
        case RespondNow =>
      }
    }
    return Attempt(-1, Some(env.default), o);
  }

  /** The options of the query that an attempt sends: an unset strategy is replaced by the default. */
  ghost function Asked(env: LegacyEnv, a: Attempt): (o: QueryOptions)
    ensures o.strategy == if a.options.strategy != AsIs then a.options.strategy else env.defaultStrategy
    ensures o.(strategy := AsIs) == a.options.(strategy := AsIs)
  {
    if a.options.strategy != AsIs then a.options else a.options.(strategy := env.defaultStrategy)
  }

  function ReplyTo(env: LegacyEnv, a: Attempt): LegacyReply
    requires a.transport.Some?
  {
    var o := if a.options.strategy == AsIs then a.options.(strategy := env.defaultStrategy) else a.options;
    env.exchange(a.index, a.transport.value, o)
  }

  /** The attempt is given up for the rules behind it: an exchange on a rejected answer, a lookup on any error. */
  predicate Retries(env: LegacyEnv, rules: seq<LegacyRule>, q: Query, a: Attempt) {
    && 0 <= a.index < |rules| && a.transport.Some? && rules[a.index].addressLimit
    && if q.isLookup then !ReplyTo(env, a).Answered? else ReplyTo(env, a).ResponseRejected?
  }

  ghost function SearchFrom(attempts: seq<Attempt>, n: nat): int
    requires n <= |attempts|
  {
    if n == 0 then 0 else attempts[n - 1].index + 1
  }

  /** Attempt `n` is the first admissible rule behind attempt `n - 1`, with options of its own search only. */
  ghost predicate Follows(env: LegacyEnv, rules: seq<LegacyRule>, q: Query, o: QueryOptions,
          attempts: seq<Attempt>, n: nat)
    requires n < |attempts|
  {
    var from := SearchFrom(attempts, n);
    && 0 <= from <= |rules|
    && IsNext(env, rules, q, from, attempts[n].index)
    && attempts[n] == AttemptAt(env, rules, q, from, attempts[n].index, o)
  }

  ghost predicate Given(env: LegacyEnv, rules: seq<LegacyRule>, q: Query, o: QueryOptions, attempts: seq<Attempt>) {
    && (forall n :: 0 <= n < |attempts| ==> Follows(env, rules, q, o, attempts, n))
    && (forall n :: 0 <= n < |attempts| - 1 ==> Retries(env, rules, q, attempts[n]))
  }

  /** The retry loop of the exchange and lookup entry points. */
  method LegacyQuery(env: LegacyEnv, rules: seq<LegacyRule>, q: Query, options: QueryOptions)
    returns (outcome: Outcome, attempts: seq<Attempt>)
    ensures attempts != [] && Given(env, rules, q, options, attempts)
    ensures var kept := attempts[|attempts| - 1];
            && !Retries(env, rules, q, kept)
            && outcome == if kept.transport.None? then DecidedByRule(kept.index) else FromServer(ReplyTo(env, kept))
    // every attempt but the last was on an address-limited rule, and rejected, or for a lookup not answered
    ensures forall n :: 0 <= n < |attempts| - 1 ==>
              && 0 <= attempts[n].index < |rules| && rules[attempts[n].index].addressLimit
              && attempts[n].transport.Some?
              && var reply := env.exchange(attempts[n].index, attempts[n].transport.value, Asked(env, attempts[n]));
                 if q.isLookup then !reply.Answered? else reply.ResponseRejected?
    // the last one is the server's answer, which such a rule keeps only if it is not of that kind
    ensures var kept := attempts[|attempts| - 1];
            outcome.FromServer? ==>
              && kept.transport.Some? && -1 <= kept.index < |rules|
              && outcome.reply == env.exchange(kept.index, kept.transport.value, Asked(env, kept))
              && (kept.index >= 0 && rules[kept.index].addressLimit ==>
                    if q.isLookup then outcome.reply.Answered? else !outcome.reply.ResponseRejected?)
    // or it is decided by a reject or predefined rule without any query
    ensures var kept := attempts[|attempts| - 1];
            outcome.DecidedByRule? ==>
              && 0 <= kept.index < |rules| && outcome.index == kept.index
              && (rules[kept.index].action.RejectWith? || rules[kept.index].action.Answer?)
  {
    var ruleIndex := -1;
    attempts := [];
    while true
      invariant -1 <= ruleIndex < |rules|
      invariant ruleIndex == SearchFrom(attempts, |attempts|) - 1
      invariant Given(env, rules, q, options, attempts)
      invariant forall n :: 0 <= n < |attempts| ==> Retries(env, rules, q, attempts[n])
      decreases |rules| - ruleIndex
    {
      var a := MatchDNS(env, rules, q, ruleIndex, options);
      ghost var earlier := attempts;
      attempts := attempts + [a];
      forall n | 0 <= n < |attempts| ensures Follows(env, rules, q, options, attempts, n) {
        if n < |earlier| {
          assert Follows(env, rules, q, options, earlier, n) && SearchFrom(attempts, n) == SearchFrom(earlier, n);
        }
      }
      if a.index >= 0 && a.transport.None? {
        outcome := DecidedByRule(a.index);
        return;
      }
      var checked := a.index >= 0 && rules[a.index].addressLimit;
      var reply := ReplyTo(env, a);
      var rejected := if q.isLookup then !reply.Answered? else reply.ResponseRejected?;
      if !(checked && rejected) {
        outcome := FromServer(reply);
        return;
      }
      ruleIndex := a.index;
    }
  }

  // ----- what the loop does as a whole

  ghost predicate Attempted(attempts: seq<Attempt>, i: int) {
    exists n :: 0 <= n < |attempts| && attempts[n].index == i
  }

  lemma {:induction false} AttemptsRise(env: LegacyEnv, rules: seq<LegacyRule>, q: Query, o: QueryOptions,
                                        attempts: seq<Attempt>, n: nat)
    requires Given(env, rules, q, o, attempts) && n < |attempts|
    ensures attempts[n].index == -1 ==> n == |attempts| - 1
    ensures attempts[n].index != -1 ==> n <= attempts[n].index < |rules|
    ensures forall m :: 0 <= m < n && attempts[n].index != -1 ==> attempts[m].index < attempts[n].index
  {
    assert Follows(env, rules, q, o, attempts, n);
    if n < |attempts| - 1 { assert Retries(env, rules, q, attempts[n]); }
    if n > 0 {
      AttemptsRise(env, rules, q, o, attempts, n - 1);
      assert attempts[n - 1].index != -1;
    }
  }

  /**
    Every admissible rule up to the attempt that is kept was attempted, and
    nothing else was: the kept attempt is the first admissible rule that does
    not trigger a retry, or the default server when all of them do.
   */
  lemma {:induction false} NothingIsSkipped(env: LegacyEnv, rules: seq<LegacyRule>, q: Query, o: QueryOptions,
                                            attempts: seq<Attempt>, n: nat, i: nat)
    requires Given(env, rules, q, o, attempts) && n < |attempts|
    requires i < |rules| && (attempts[n].index == -1 || i <= attempts[n].index)
    ensures Admissible(env, rules, q, i) <==> Attempted(attempts[..n + 1], i)
  {
    assert Follows(env, rules, q, o, attempts, n);
    var from := SearchFrom(attempts, n);
    if i < from {
      assert attempts[..n + 1] == attempts[..n] + [attempts[n]];
      NothingIsSkipped(env, rules, q, o, attempts, n - 1, i);
      if Attempted(attempts[..n], i) {
        var m :| 0 <= m < n && attempts[..n][m].index == i;
        assert attempts[..n + 1][m].index == i;
      }
      if Attempted(attempts[..n + 1], i) {
        var m :| 0 <= m < n + 1 && attempts[..n + 1][m].index == i;
        AttemptsRise(env, rules, q, o, attempts, n);
        assert m < n && attempts[..n][m].index == i;
      }
    } else {
      if Attempted(attempts[..n + 1], i) {
        var m :| 0 <= m < n + 1 && attempts[..n + 1][m].index == i;
        if m < n { EarlierIsBefore(env, rules, q, o, attempts, m, n); }
        assert Follows(env, rules, q, o, attempts, m);
      }
      if Admissible(env, rules, q, i) {
        assert attempts[..n + 1][n].index == i;
      }
    }
  }

  lemma EarlierIsBefore(env: LegacyEnv, rules: seq<LegacyRule>, q: Query, o: QueryOptions,
                        attempts: seq<Attempt>, m: nat, n: nat)
    requires Given(env, rules, q, o, attempts) && m < n < |attempts|
    ensures attempts[m].index < SearchFrom(attempts, n)
  {
    AttemptsRise(env, rules, q, o, attempts, n - 1);
  }

  /** The loop ends within one attempt per rule and one on the default server, and respects the query kind. */
  lemma LegacyQueryIsBounded(env: LegacyEnv, rules: seq<LegacyRule>, q: Query, o: QueryOptions, attempts: seq<Attempt>)
    requires Given(env, rules, q, o, attempts) && attempts != []
    ensures |attempts| <= |rules| + 1
    ensures forall m, n :: 0 <= m < n < |attempts| ==> attempts[m].index != attempts[n].index
    ensures forall n :: 0 <= n < |attempts| && attempts[n].index >= 0 && !AddressQuery(q) ==>
              attempts[n].index < |rules| && !rules[attempts[n].index].addressLimit
    // a lookup never asks a FakeIP server
    ensures forall n :: 0 <= n < |attempts| && q.isLookup && !env.default.isFakeIP && attempts[n].transport.Some? ==>
              !attempts[n].transport.value.isFakeIP
  {
    var last := |attempts| - 1;
    AttemptsRise(env, rules, q, o, attempts, last);
    if last > 0 { AttemptsRise(env, rules, q, o, attempts, last - 1); }
    forall m, n | 0 <= m < n < |attempts| ensures attempts[m].index != attempts[n].index {
      AttemptsRise(env, rules, q, o, attempts, n);
      AttemptsRise(env, rules, q, o, attempts, m);
    }
    forall n | 0 <= n < |attempts|
      ensures attempts[n].index >= 0 && !AddressQuery(q) ==>
                attempts[n].index < |rules| && !rules[attempts[n].index].addressLimit
      ensures q.isLookup && !env.default.isFakeIP && attempts[n].transport.Some? ==>
              !attempts[n].transport.value.isFakeIP
    {
      assert Follows(env, rules, q, o, attempts, n);
    }
  }

  lemma {:induction false} SameAttempt(env: LegacyEnv, rules: seq<LegacyRule>, q: Query, o: QueryOptions,
          a: seq<Attempt>, b: seq<Attempt>, n: nat)
    requires Given(env, rules, q, o, a) && Given(env, rules, q, o, b) && n < |a| && n < |b|
    ensures a[n] == b[n]
  {
    if n > 0 { SameAttempt(env, rules, q, o, a, b, n - 1); }
    assert Follows(env, rules, q, o, a, n) && Follows(env, rules, q, o, b, n);
  }

  /** The attempts are determined: what is proved of attempts of this kind is proved of every run of the loop. */
  lemma AttemptsAreDetermined(env: LegacyEnv, rules: seq<LegacyRule>, q: Query, o: QueryOptions,
          a: seq<Attempt>, b: seq<Attempt>)
    requires a != [] && Given(env, rules, q, o, a) && !Retries(env, rules, q, a[|a| - 1])
    requires b != [] && Given(env, rules, q, o, b) && !Retries(env, rules, q, b[|b| - 1])
    ensures a == b
  {
    var n := if |a| < |b| then |a| else |b|;
    forall i | 0 <= i < n ensures a[i] == b[i] { SameAttempt(env, rules, q, o, a, b, i); }
  }

  // ----- the options of an attempt

  function LegacyOverlayAll(o: QueryOptions, settings: seq<RouteSettings>): QueryOptions {
    if settings == [] then o
    else LegacyOverlay(LegacyOverlayAll(o, settings[..|settings| - 1]), settings[|settings| - 1], false)
  }

  /** The settings of the matching route-options rules among `rules[from..until]`, in order. */
  function SettingsBetween(env: LegacyEnv, rules: seq<LegacyRule>, q: Query, from: nat, until: nat): seq<RouteSettings>
    requires from <= until <= |rules|
    decreases until
  {
    if from == until then []
    else SettingsBetween(env, rules, q, from, until - 1)
         + (if Considered(env, rules, q, until - 1) && rules[until - 1].action.SetOptions?
            then [rules[until - 1].action.settings] else [])
  }

  lemma LegacyOverlaySnoc(o: QueryOptions, earlier: seq<RouteSettings>, s: RouteSettings)
    ensures LegacyOverlayAll(o, earlier + [s]) == LegacyOverlay(LegacyOverlayAll(o, earlier), s, false)
  {
    assert (earlier + [s])[..|earlier|] == earlier;
  }

  lemma {:induction false} AccumulatedIsOverlay(env: LegacyEnv, rules: seq<LegacyRule>, q: Query, from: nat, until: nat,
          o: QueryOptions)
    requires from <= until <= |rules|
    ensures Accumulated(env, rules, q, from, until, o)
            == LegacyOverlayAll(o, SettingsBetween(env, rules, q, from, until))
    decreases until
  {
    if from < until {
      AccumulatedIsOverlay(env, rules, q, from, until - 1, o);
      var earlier := SettingsBetween(env, rules, q, from, until - 1);
      if Considered(env, rules, q, until - 1) && rules[until - 1].action.SetOptions? {
        LegacyOverlaySnoc(o, earlier, rules[until - 1].action.settings);
      } else {
        assert earlier + [] == earlier;
      }
    }
  }

  /** A switch is on when the caller or one of them turns it on; what none of them gives is the caller's own. */
  lemma {:induction false} LegacyUnsetIsKept(o: QueryOptions, settings: seq<RouteSettings>)
    ensures var r := LegacyOverlayAll(o, settings);
            && r.lookupStrategy == o.lookupStrategy && r.disableOptimisticCache == o.disableOptimisticCache
            && (r.disableCache <==> o.disableCache || exists s :: s in settings && s.disableCache)
            && ((forall s :: s in settings ==> s.strategy == AsIs) ==> r.strategy == o.strategy)
            && ((forall s :: s in settings ==> s.rewriteTTL.None?) ==> r.rewriteTTL == o.rewriteTTL)
            && ((forall s :: s in settings ==> s.timeout <= 0) ==> r.timeout == o.timeout)
            && ((forall s :: s in settings ==> s.clientSubnet.None?) ==> r.clientSubnet == o.clientSubnet)
  {
    if settings != [] {
      var front, last := settings[..|settings| - 1], settings[|settings| - 1];
      LegacyUnsetIsKept(o, front);
      assert forall s :: s in settings <==> s in front || s == last;
    }
  }

  /** And a value is the last one given, the strategy included. */
  lemma {:induction false} LegacyLastSettingWins(o: QueryOptions, settings: seq<RouteSettings>, k: nat)
    requires k < |settings|
    ensures var r, s := LegacyOverlayAll(o, settings), settings[k];
            && (s.strategy != AsIs && (forall j :: k < j < |settings| ==> settings[j].strategy == AsIs) ==>
                  r.strategy == s.strategy)
            && (s.rewriteTTL.Some? && (forall j :: k < j < |settings| ==> settings[j].rewriteTTL.None?) ==>
                  r.rewriteTTL == s.rewriteTTL)
            && (s.timeout > 0 && (forall j :: k < j < |settings| ==> settings[j].timeout <= 0) ==>
                  r.timeout == s.timeout)
            && (s.clientSubnet.Some? && (forall j :: k < j < |settings| ==> settings[j].clientSubnet.None?) ==>
                  r.clientSubnet == s.clientSubnet)
  {
    var front := settings[..|settings| - 1];
    if k < |front| {
      LegacyLastSettingWins(o, front, k);
      assert forall j :: 0 <= j < |front| ==> front[j] == settings[j];
    }
  }

  /** An attempt has the options of the rules of its search, its own last; a FakeIP server also disables the cache. */
  lemma AttemptOptions(env: LegacyEnv, rules: seq<LegacyRule>, q: Query, from: nat, index: int, o: QueryOptions)
    requires from <= |rules| && (index == -1 || (from <= index < |rules| && Admissible(env, rules, q, index)))
    ensures var options := AttemptAt(env, rules, q, from, index, o).options;
            if index == -1 then options == LegacyOverlayAll(o, SettingsBetween(env, rules, q, from, |rules|))
            else if rules[index].action.RouteTo? then
              var s := rules[index].action.settings;
              var all := LegacyOverlayAll(o, SettingsBetween(env, rules, q, from, index) + [s]);
              options == all.(disableCache := all.disableCache || env.transports[s.server].isFakeIP)
            else options == LegacyOverlayAll(o, SettingsBetween(env, rules, q, from, index))
  {
    AccumulatedIsOverlay(env, rules, q, from, if index == -1 then |rules| else index, o);
    if index >= 0 && rules[index].action.RouteTo? {
      LegacyOverlaySnoc(o, SettingsBetween(env, rules, q, from, index), rules[index].action.settings);
    }
  }

  // ----- a retry starts over with the caller's options

  // The options that a rule can set.
  datatype Field = StrategyField | CacheField | TTLField | TimeoutField | SubnetField

  predicate Agree(f: Field, a: QueryOptions, b: QueryOptions) {
    match f
    case StrategyField => a.strategy == b.strategy
    case CacheField => a.disableCache == b.disableCache
    case TTLField => a.rewriteTTL == b.rewriteTTL
    case TimeoutField => a.timeout == b.timeout
    case SubnetField => a.clientSubnet == b.clientSubnet
  }

  predicate Sets(f: Field, s: RouteSettings, isFakeIP: bool) {
    match f
    case StrategyField => s.strategy != AsIs
    case CacheField => s.disableCache || isFakeIP
    case TTLField => s.rewriteTTL.Some?
    case TimeoutField => s.timeout > 0
    case SubnetField => s.clientSubnet.Some?
  }

  /** A matching route-options rule among `rules[from..until]` sets the field. */
  ghost predicate SetBetween(env: LegacyEnv, rules: seq<LegacyRule>, q: Query, f: Field, from: nat, until: nat)
    requires from <= until <= |rules|
  {
    exists k :: from <= k < until && Considered(env, rules, q, k) && rules[k].action.SetOptions?
                && Sets(f, rules[k].action.settings, false)
  }

  /** The field is set between `from` and the attempt at `index`, or by the route rule at `index` itself. */
  ghost predicate SetBehind(env: LegacyEnv, rules: seq<LegacyRule>, q: Query, f: Field, from: nat, index: int)
    requires from <= |rules| && (index == -1 || (from <= index < |rules| && Admissible(env, rules, q, index)))
  {
    || SetBetween(env, rules, q, f, from, if index == -1 then |rules| else index)
    || (index >= 0 && rules[index].action.RouteTo?
        && Sets(f, rules[index].action.settings, env.transports[rules[index].action.settings.server].isFakeIP))
  }

  /** Two starting points give the same value of a field exactly when they agree on it or it is set on the way. */
  lemma {:induction false} AccumulatedAgrees(env: LegacyEnv, rules: seq<LegacyRule>, q: Query, f: Field, from: nat,
          until: nat, a: QueryOptions, b: QueryOptions)
    requires from <= until <= |rules|
    ensures Agree(f, Accumulated(env, rules, q, from, until, a), Accumulated(env, rules, q, from, until, b))
            <==> Agree(f, a, b) || SetBetween(env, rules, q, f, from, until)
    decreases until
  {
    if from < until {
      AccumulatedAgrees(env, rules, q, f, from, until - 1, a, b);
      assert SetBetween(env, rules, q, f, from, until) <==>
        SetBetween(env, rules, q, f, from, until - 1)
        || (Considered(env, rules, q, until - 1) && rules[until - 1].action.SetOptions?
            && Sets(f, rules[until - 1].action.settings, false));
    }
  }

  lemma {:induction false} AccumulatedKeepsRest(env: LegacyEnv, rules: seq<LegacyRule>, q: Query, from: nat, until: nat,
          o: QueryOptions)
    requires from <= until <= |rules|
    ensures var n := Accumulated(env, rules, q, from, until, o);
            n.lookupStrategy == o.lookupStrategy && n.disableOptimisticCache == o.disableOptimisticCache
    decreases until
  {
    if from < until { AccumulatedKeepsRest(env, rules, q, from, until - 1, o); }
  }

  lemma {:induction false} AccumulatedSplit(env: LegacyEnv, rules: seq<LegacyRule>, q: Query, from: nat, until: nat,
          o: QueryOptions)
    requires from <= until <= |rules|
    ensures Accumulated(env, rules, q, 0, until, o)
            == Accumulated(env, rules, q, from, until, Accumulated(env, rules, q, 0, from, o))
    decreases until
  {
    if from < until { AccumulatedSplit(env, rules, q, from, until - 1, o); }
  }

  /** One field of an attempt, against the attempt of a search that had started at the first rule. */
  lemma AttemptAgrees(env: LegacyEnv, rules: seq<LegacyRule>, q: Query, f: Field, from: nat, index: int,
          o: QueryOptions)
    requires from <= |rules| && (index == -1 || (from <= index < |rules| && Admissible(env, rules, q, index)))
    ensures Agree(f, AttemptAt(env, rules, q, from, index, o).options, AttemptAt(env, rules, q, 0, index, o).options)
            <==> Agree(f, Accumulated(env, rules, q, 0, from, o), o) || SetBehind(env, rules, q, f, from, index)
  {
    var until := if index == -1 then |rules| else index;
    var given := Accumulated(env, rules, q, 0, from, o);
    AccumulatedSplit(env, rules, q, from, until, o);
    AccumulatedAgrees(env, rules, q, f, from, until, o, given);
  }

  /**
    An attempt has the options of a search from the first rule if and only if
    the rules given up before it have left each field as the caller set it, or
    it is set again behind them.
   */
  lemma RetryKeepsOptionsExactly(env: LegacyEnv, rules: seq<LegacyRule>, q: Query, o: QueryOptions,
          attempts: seq<Attempt>, n: nat)
    requires Given(env, rules, q, o, attempts) && n < |attempts|
    ensures Follows(env, rules, q, o, attempts, n)
    ensures var from, index := SearchFrom(attempts, n), attempts[n].index;
            attempts[n].options == AttemptAt(env, rules, q, 0, index, o).options
            <==> forall f: Field :: Agree(f, Accumulated(env, rules, q, 0, from, o), o)
                                    || SetBehind(env, rules, q, f, from, index)
  {
    assert Follows(env, rules, q, o, attempts, n);
    var from, index := SearchFrom(attempts, n), attempts[n].index;
    var whole := AttemptAt(env, rules, q, 0, index, o);
    var until := if index == -1 then |rules| else index;
    AccumulatedKeepsRest(env, rules, q, from, until, o);
    AccumulatedKeepsRest(env, rules, q, 0, until, o);
    AllFieldsAgree(attempts[n].options, whole.options);
    forall f: Field
      ensures Agree(f, attempts[n].options, whole.options)
              <==> Agree(f, Accumulated(env, rules, q, 0, from, o), o) || SetBehind(env, rules, q, f, from, index)
    {
      AttemptAgrees(env, rules, q, f, from, index, o);
    }
  }

  lemma AllFieldsAgree(a: QueryOptions, b: QueryOptions)
    requires a.lookupStrategy == b.lookupStrategy && a.disableOptimisticCache == b.disableOptimisticCache
    ensures a == b <==> forall f: Field :: Agree(f, a, b)
  {
    if forall f: Field :: Agree(f, a, b) {
      assert Agree(StrategyField, a, b) && Agree(CacheField, a, b) && Agree(TTLField, a, b);
      assert Agree(TimeoutField, a, b) && Agree(SubnetField, a, b);
    }
  }

  const PLAIN := RouteSettings("", AsIs, false, false, None, 0, None)

  /**
    A run that loses options: rule 0 sets a TTL rewrite, the answer of rule 1
    is rejected, and the retry asks under rule 2 without the rewrite.
   */
  lemma RetryDropsEarlierOptions(env: LegacyEnv, rules: seq<LegacyRule>, q: Query, o: QueryOptions)
    returns (attempts: seq<Attempt>)
    requires |rules| == 3 && o.rewriteTTL.None?
    requires rules[0] == LegacyRule(SetOptions(PLAIN.(rewriteTTL := Some(60))), false)
    requires rules[1] == LegacyRule(RouteTo(PLAIN.(server := "a")), true)
    requires rules[2] == LegacyRule(RouteTo(PLAIN.(server := "b")), false)
    requires env.preMatch(0) && env.preMatch(1) && env.preMatch(2) && AddressQuery(q)
    requires "a" in env.transports && "b" in env.transports
    requires !env.transports["a"].isFakeIP && !env.transports["b"].isFakeIP
    requires forall u :: env.exchange(1, env.transports["a"], u) == ResponseRejected(false)
    ensures |attempts| == 2 && Given(env, rules, q, o, attempts)
    ensures Retries(env, rules, q, attempts[0]) && !Retries(env, rules, q, attempts[1])
    ensures attempts[0].index == 1 && attempts[0].options.rewriteTTL == Some(60)
    ensures attempts[1].index == 2 && attempts[1].options.rewriteTTL == None
  {
    assert Admissible(env, rules, q, 1) && Admissible(env, rules, q, 2) && !Admissible(env, rules, q, 0);
    attempts := [AttemptAt(env, rules, q, 0, 1, o), AttemptAt(env, rules, q, 2, 2, o)];
    assert Follows(env, rules, q, o, attempts, 0);
    assert SearchFrom(attempts, 1) == 2;
    assert Follows(env, rules, q, o, attempts, 1);
  }

  // ----- rules that need neither mode

  /** A rule that both interpreters can run. */
  predicate Neutral(rule: LegacyRule) {
    && !rule.addressLimit && NoStrategy(rule.action)
    && !rule.action.EvaluateOn? && !rule.action.RespondNow?
    && (rule.action.SetOptions? || rule.action.RouteTo? ==> !rule.action.settings.disableOptimisticCache)
  }

  /** The same servers, and rules whose conditions are `matchers`, matched by each mode in its own way. */
  ghost predicate SameWorld(env: Env, legacy: LegacyEnv, rules: seq<LegacyRule>, matchers: seq<RuleMatching.Rule>) {
    && env.transports == legacy.transports && env.default == legacy.default
    && env.defaultStrategy == legacy.defaultStrategy && |matchers| == |rules|
    && forall i :: 0 <= i < |rules| ==>
         && rules[i].addressLimit == RuleMatching.AddressLimit(matchers[i])
         && legacy.preMatch(i) == RuleMatching.PreMatches(matchers[i])
         && env.matches(i, None) == RuleMatching.Matches(matchers[i], None)
  }

  /** A rule that both interpreters can run, and match alike. */
  ghost predicate NeutralBoth(rule: LegacyRule, matcher: RuleMatching.Rule) {
    Neutral(rule) && !RuleMatching.SourceSetHasAddresses(matcher) && !RuleMatching.OnResponse(matcher)
  }

  function Actions(rules: seq<LegacyRule>): seq<Action> {
    seq(|rules|, i requires 0 <= i < |rules| => rules[i].action)
  }

  /** What the new mode returns when it decides the query where a legacy attempt does. */
  ghost function NewModeResult(env: Env, rules: seq<LegacyRule>, a: Attempt): (ExchangeResult, seq<Call>)
    requires a.transport.None? ==> 0 <= a.index < |rules|
  {
    if a.transport.Some? then
      var call := Call(a.transport.value, Sent(env, a.options));
      (Finished(env.exchange(0, call.transport, call.options), call.transport), [call])
    else if rules[a.index].action == RejectWith(RejectDefault) then
      (ExchangeResult(Some(env.refused), None, Some(RejectDefault), None), [])
    else if rules[a.index].action == RejectWith(RejectDrop) then
      (ExchangeResult(None, None, Some(RejectDrop), Some(Dropped)), [])
    else (ExchangeResult(Some(env.predefined(a.index)), None, None, None), [])
  }

  lemma {:induction false} AccumulatedFromFront(env: LegacyEnv, rules: seq<LegacyRule>, q: Query, from: nat,
          until: nat, o: QueryOptions)
    requires from < until <= |rules|
    ensures Accumulated(env, rules, q, from, until, o)
            == Accumulated(env, rules, q, from + 1, until, Accumulated(env, rules, q, from, from + 1, o))
    decreases until
  {
    if from + 1 < until { AccumulatedFromFront(env, rules, q, from, until - 1, o); }
  }

  lemma AttemptFromFront(env: LegacyEnv, rules: seq<LegacyRule>, q: Query, from: nat, index: int, o: QueryOptions)
    requires from < |rules| && (index == -1 || (from < index < |rules| && Admissible(env, rules, q, index)))
    ensures AttemptAt(env, rules, q, from, index, o)
            == AttemptAt(env, rules, q, from + 1, index, Accumulated(env, rules, q, from, from + 1, o))
  {
    AccumulatedFromFront(env, rules, q, from, if index == -1 then |rules| else index, o);
  }

  /** One rule: where the legacy search passes on, so does the new mode, with the same options. */
  lemma NeutralStep(env: Env, legacy: LegacyEnv, rules: seq<LegacyRule>, matchers: seq<RuleMatching.Rule>, q: Query,
                    i: nat, o: QueryOptions)
    requires i < |rules| && SameWorld(env, legacy, rules, matchers) && NeutralBoth(rules[i], matchers[i])
    ensures var next := StepRule(env, Actions(rules), i, Begin(o), !q.isLookup, false);
            && (next.Continue? <==> !Admissible(legacy, rules, q, i))
            && (next.Continue? ==> next.frame == Begin(Accumulated(legacy, rules, q, i, i + 1, o)))
            && (next.Stop? ==>
                  (next.result, next.calls) == NewModeResult(env, rules, AttemptAt(legacy, rules, q, i, i, o)))
  {
    RuleMatching.ModesMatchAlike(matchers[i], None);
    assert Accumulated(legacy, rules, q, i, i, o) == o;
    if Admissible(legacy, rules, q, i) && rules[i].action.RouteTo? {
      var a := AttemptAt(legacy, rules, q, i, i, o);
      var call := Call(a.transport.value, Sent(env, a.options));
      assert [] + [call] == [call];
    }
  }

  lemma NeutralInterpret(env: Env, legacy: LegacyEnv, rules: seq<LegacyRule>, matchers: seq<RuleMatching.Rule>,
          q: Query, i: nat, o: QueryOptions)
    requires i < |rules| && SameWorld(env, legacy, rules, matchers) && NeutralBoth(rules[i], matchers[i])
    ensures Interpret(env, Actions(rules), i, Begin(o), !q.isLookup, false)
            == if Admissible(legacy, rules, q, i) then NewModeResult(env, rules, AttemptAt(legacy, rules, q, i, i, o))
               else
                 var next := Accumulated(legacy, rules, q, i, i + 1, o);
                 Interpret(env, Actions(rules), i + 1, Begin(next), !q.isLookup, false)
  {
    NeutralStep(env, legacy, rules, matchers, q, i, o);
  }

  lemma NeutralIsKept(legacy: LegacyEnv, rules: seq<LegacyRule>, q: Query, from: nat, index: int, o: QueryOptions)
    requires from <= |rules| && IsNext(legacy, rules, q, from, index)
    requires forall i :: 0 <= i < |rules| ==> Neutral(rules[i])
    ensures !Retries(legacy, rules, q, AttemptAt(legacy, rules, q, from, index, o))
  {
  }

  /** Behind the last rule both ask the default server. */
  lemma AgreeAtEnd(env: Env, legacy: LegacyEnv, rules: seq<LegacyRule>, matchers: seq<RuleMatching.Rule>, q: Query,
          o: QueryOptions)
    requires SameWorld(env, legacy, rules, matchers)
    ensures Interpret(env, Actions(rules), |rules|, Begin(o), !q.isLookup, false)
            == NewModeResult(env, rules, AttemptAt(legacy, rules, q, |rules|, -1, o))
  {
    var call := Call(env.default, Sent(env, o));
    assert [] + [call] == [call];
  }

  lemma {:induction false} ModesAgreeFrom(env: Env, legacy: LegacyEnv, rules: seq<LegacyRule>,
          matchers: seq<RuleMatching.Rule>, q: Query, from: nat, index: int, o: QueryOptions)
    requires from <= |rules| && IsNext(legacy, rules, q, from, index) && SameWorld(env, legacy, rules, matchers)
    requires forall i :: 0 <= i < |rules| ==> NeutralBoth(rules[i], matchers[i])
    ensures Interpret(env, Actions(rules), from, Begin(o), !q.isLookup, false)
            == NewModeResult(env, rules, AttemptAt(legacy, rules, q, from, index, o))
    decreases |rules| - from
  {
    if from == |rules| {
      AgreeAtEnd(env, legacy, rules, matchers, q, o);
    } else {
      NeutralInterpret(env, legacy, rules, matchers, q, from, o);
      if !Admissible(legacy, rules, q, from) {
        var next := Accumulated(legacy, rules, q, from, from + 1, o);
        AttemptFromFront(legacy, rules, q, from, index, o);
        ModesAgreeFrom(env, legacy, rules, matchers, q, from + 1, index, next);
      }
    }
  }

  /**
    Both modes decide neutral rules at the same rule, with the same transport
    and options, whatever the rules match: a legacy router whose rule-sets
    stopped needing it still answers as the new mode would. The exception are
    rules with a source rule-set that holds addresses, which the modes match
    differently.
   */
  lemma ModesAgree(env: Env, legacy: LegacyEnv, rules: seq<LegacyRule>, matchers: seq<RuleMatching.Rule>, q: Query,
          from: nat, index: int, o: QueryOptions)
    requires from <= |rules| && IsNext(legacy, rules, q, from, index) && SameWorld(env, legacy, rules, matchers)
    requires forall i :: 0 <= i < |rules| ==> NeutralBoth(rules[i], matchers[i])
    ensures Interpret(env, Actions(rules), from, Begin(o), !q.isLookup, false)
            == NewModeResult(env, rules, AttemptAt(legacy, rules, q, from, index, o))
    ensures !Retries(legacy, rules, q, AttemptAt(legacy, rules, q, from, index, o))
  {
    ModesAgreeFrom(env, legacy, rules, matchers, q, from, index, o);
    NeutralIsKept(legacy, rules, q, from, index, o);
  }

  // ----- the mode suits the rules as they are matched

  /** `r` is what the options of a rule are built into, as far as addresses and responses go. */
  ghost predicate BuiltFrom(router: Router, overrides: Overrides, n: Rule, r: RuleMatching.Rule)
    decreases n
  {
    match n
    case Default(o) =>
      && r.Default? && r.matchResponse == o.matchResponse
      && (|r.addresses| > 0 <==> o.ipCIDR > 0 || o.ipIsPrivate || o.ipAcceptAny)
      && (r.ruleSet.Some? <==> o.ruleSet != [])
      && (r.ruleSet.Some? ==>
            && r.ruleSet.value.matchSource == o.ruleSetIPCIDRMatchSource
            && ((exists b :: b in r.ruleSet.value.branches && RuleMatching.HasAddresses(b))
                <==> RuleSetHas(router, overrides, n, (m: Metadata) => m.containsIPCIDRRule)))
    case Logical(rules, _) =>
      && r.Logical? && |r.rules| == |rules|
      && forall i :: 0 <= i < |rules| ==> BuiltFrom(router, overrides, rules[i], r.rules[i])
    case Unknown => false
  }

  lemma NestedNode(n: Rule, i: nat, x: Rule)
    requires n.Logical? && i < |n.rules| && x in NodesIn(n.rules[i])
    ensures x in NodesIn(n)
  {
    assert NodeIn(n.rules[i], x);
  }

  /** A rule on the response has a node that rules the legacy mode out. */
  lemma {:induction false} ResponseDisables(router: Router, overrides: Overrides, n: Rule, r: RuleMatching.Rule)
    returns (x: Rule)
    requires BuiltFrom(router, overrides, n, r) && RuleMatching.OnResponse(r)
    ensures x in NodesIn(n) && NodeDisables(router, overrides, x)
  {
    if n.Default? {
      x := n;
    } else {
      var b :| b in r.rules && RuleMatching.OnResponse(b);
      var i :| 0 <= i < |r.rules| && r.rules[i] == b;
      x := ResponseDisables(router, overrides, n.rules[i], b);
      NestedNode(n, i, x);
    }
  }

  /** A rule with an address limit has a node that needs the legacy mode, or one on the response. */
  lemma {:induction false} LimitNeeds(router: Router, overrides: Overrides, n: Rule, r: RuleMatching.Rule)
    returns (x: Rule)
    requires BuiltFrom(router, overrides, n, r) && RuleMatching.AddressLimit(r)
    ensures x in NodesIn(n) && (NodeNeeds(router, overrides, x) || NodeDisables(router, overrides, x))
  {
    if n.Default? {
      x := n;
    } else {
      var b :| b in r.rules && RuleMatching.AddressLimit(b);
      var i :| 0 <= i < |r.rules| && r.rules[i] == b;
      x := LimitNeeds(router, overrides, n.rules[i], b);
      NestedNode(n, i, x);
    }
  }

  /**
    Mode resolution picks a mode that the built rules can be matched in: the
    legacy mode never gets a rule on the response, and the new mode gets a rule
    with an address limit only beside one that rules the legacy mode out.
   */
  lemma ModeSuitsMatchers(router: Router, overrides: Overrides, rules: seq<Rule>, matchers: seq<RuleMatching.Rule>,
          k: nat)
    requires k < |rules| == |matchers| && BuiltFrom(router, overrides, rules[k], matchers[k])
    requires ResolveMode(router, rules, overrides).Ok?
    ensures var legacy := ResolveMode(router, rules, overrides).value.0;
            && (legacy ==> !RuleMatching.OnResponse(matchers[k]))
            && (!legacy && RuleMatching.AddressLimit(matchers[k]) ==> SomeDisables(router, rules, overrides))
  {
    ModeIsDecidedByNodes(router, rules, overrides);
    if RuleMatching.OnResponse(matchers[k]) {
      var x := ResponseDisables(router, overrides, rules[k], matchers[k]);
      assert NodeIn(rules[k], x) && x in Nodes(rules);
    }
    if RuleMatching.AddressLimit(matchers[k]) {
      var x := LimitNeeds(router, overrides, rules[k], matchers[k]);
      assert NodeIn(rules[k], x) && x in Nodes(rules);
    }
  }
}
