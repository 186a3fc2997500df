/**
  The route matcher: one loop over the rules that runs in full for a
  connection, and in a cheap pre-match mode before a connection exists.
 */
module RouteMatch {
  import opened Wrappers

  datatype Network = TCP | UDP | ICMP

  datatype Socksaddr = Socksaddr(addr: Option<int>, fqdn: string, port: nat) {
    predicate IsValid() {
      addr.Some? || fqdn != ""
    }
  }

  // How the connection is dialed.
  datatype DialOptions = DialOptions(
    networkStrategy: Option<int>,
    networkType: seq<int>,
    fallbackNetworkType: seq<int>,
    fallbackDelay: int,
    udpDisableDomainUnmapping: bool,
    udpConnect: bool,
    udpTimeout: int,
    tlsFragment: bool,
    tlsFragmentFallbackDelay: int,
    tlsRecordFragment: bool,
    tlsSpoof: string,
    tlsSpoofMethod: int)

  datatype RouteOptions = RouteOptions(overrideAddress: Socksaddr, overridePort: nat, dial: DialOptions)

  // The part of the inbound context that matching reads and changes.
  datatype Metadata = Metadata(
    network: Network,
    destination: Socksaddr,
    destinationAddresses: seq<int>,
    routeOriginalDestination: Socksaddr,
    protocol: string,
    domain: string,
    dial: DialOptions)

  datatype Action =
    | Route(outbound: string, options: RouteOptions)
    | SetOptions(options: RouteOptions)
    | Bypass(outbound: string, options: RouteOptions)
    | Reject
    | HijackDNS
    | Sniff
    | Resolve
    | OtherAction

  // What sniffing found; a fatal error ends the match.
  datatype Sniffed = Sniffed(protocol: string, domain: string, overrides: bool, fatal: Option<int>)

  datatype Lookup = Addresses(addresses: seq<int>) | LookupFailed(error: int)

  /** Rule matching, sniffing and DNS resolution are not looked into. */
  datatype Env = Env(
    matches: (nat, Metadata) -> bool,
    sniff: (nat, Metadata) -> Sniffed,
    resolve: (nat, Metadata) -> Lookup)

  datatype MatchResult = MatchResult(selected: Option<nat>, metadata: Metadata, fatal: Option<int>)

  datatype Next = Go(metadata: Metadata) | Select(metadata: Metadata) | Fatal(metadata: Metadata, error: int)

  /** The options a matched rule lays over the connection; a bypass without outbound has none. */
  function OptionsOf(action: Action): Option<RouteOptions> {
    match action
    case Route(_, options) => Some(options)
    case SetOptions(options) => Some(options)
    case Bypass(outbound, options) => if outbound != "" then Some(options) else None
    case _ => None
  }

  predicate Overrides(action: Action) {
    OptionsOf(action).Some? &&
    (OptionsOf(action).value.overrideAddress.IsValid() || OptionsOf(action).value.overridePort > 0)
  }

  function OverrideDestination(d: Socksaddr, o: RouteOptions): Socksaddr {
    var a := o.overrideAddress;
    var moved := if a.IsValid() then Socksaddr(a.addr, a.fqdn, d.port) else d;
    if o.overridePort > 0 then Socksaddr(moved.addr, moved.fqdn, o.overridePort) else moved
  }

  function WithOverride(m: Metadata, o: RouteOptions): Metadata {
    m.(destination := OverrideDestination(m.destination, o),
       destinationAddresses := if o.overrideAddress.IsValid() then [] else m.destinationAddresses,
       routeOriginalDestination :=
         if (o.overrideAddress.IsValid() || o.overridePort > 0) && !m.routeOriginalDestination.IsValid()
         then m.destination else m.routeOriginalDestination)
  }

  function WithNetwork(d: DialOptions, o: DialOptions): DialOptions {
    d.(networkStrategy := if o.networkStrategy.Some? then o.networkStrategy else d.networkStrategy,
       networkType := if |o.networkType| > 0 then o.networkType else d.networkType,
       fallbackNetworkType := if |o.fallbackNetworkType| > 0 then o.fallbackNetworkType else d.fallbackNetworkType,
       fallbackDelay := if o.fallbackDelay != 0 then o.fallbackDelay else d.fallbackDelay)
  }

  function WithUDP(d: DialOptions, o: DialOptions): DialOptions {
    d.(udpDisableDomainUnmapping := d.udpDisableDomainUnmapping || o.udpDisableDomainUnmapping,
       udpConnect := d.udpConnect || o.udpConnect,
       udpTimeout := if o.udpTimeout > 0 then o.udpTimeout else d.udpTimeout)
  }

  function WithTLS(d: DialOptions, o: DialOptions): DialOptions {
    d.(tlsFragment := d.tlsFragment || o.tlsFragment,
       tlsFragmentFallbackDelay := if o.tlsFragment then o.tlsFragmentFallbackDelay else d.tlsFragmentFallbackDelay,
       tlsRecordFragment := d.tlsRecordFragment || o.tlsRecordFragment,
       tlsSpoof := if o.tlsSpoof != "" then o.tlsSpoof else d.tlsSpoof,
       tlsSpoofMethod := if o.tlsSpoof != "" then o.tlsSpoofMethod else d.tlsSpoofMethod)
  }

  function Applied(m: Metadata, action: Action): Metadata {
    if OptionsOf(action).None? then m
    else
      var o := OptionsOf(action).value;
      WithOverride(m, o).(dial := WithTLS(WithUDP(WithNetwork(m.dial, o.dial), o.dial), o.dial))
  }

  function SniffedMetadata(m: Metadata, s: Sniffed): Metadata {
    m.(protocol := s.protocol, domain := s.domain,
       destination := if s.overrides then Socksaddr(None, s.domain, m.destination.port) else m.destination)
  }

  // ----- the specification: one rule, then the rest

  function StepRule(env: Env, rules: seq<Action>, i: nat, m: Metadata, preMatch: bool, supportBypass: bool): Next
    requires i < |rules|
  {
    if !env.matches(i, m) then Go(m)
    else
      var applied := Applied(m, rules[i]);
      match rules[i]
      case Sniff =>
        if preMatch then if m.network != ICMP then Select(applied) else Go(applied)
        else
          var s := env.sniff(i, applied);
          if s.fatal.Some? then Fatal(SniffedMetadata(applied, s), s.fatal.value) else Go(SniffedMetadata(applied, s))
      case Resolve =>
        if applied.destination.fqdn == "" then Go(applied)
        else
          (match env.resolve(i, applied)
           case Addresses(addresses) => Go(applied.(destinationAddresses := addresses))
           case LookupFailed(error) => Fatal(applied, error))
      case Bypass(outbound, _) => if !supportBypass && outbound == "" then Go(applied) else Select(applied)
      case Route(_, _) => Select(applied)
      case Reject => Select(applied)
      case HijackDNS => Select(applied)
      case SetOptions(_) => Go(applied)
      case OtherAction => Go(applied)
  }

  function Match(env: Env, rules: seq<Action>, i: nat, m: Metadata, preMatch: bool, supportBypass: bool)
    : (r: MatchResult)
    requires i <= |rules|
    ensures r.selected.Some? ==> i <= r.selected.value < |rules| && r.fatal.None?
    decreases |rules| - i
  {
    if i == |rules| then MatchResult(None, m, None)
    else
      match StepRule(env, rules, i, m, preMatch, supportBypass)
      case Go(next) => Match(env, rules, i + 1, next, preMatch, supportBypass)
      case Select(final) => MatchResult(Some(i), final, None)
      case Fatal(final, error) => MatchResult(None, final, Some(error))
  }

  /** matchRule after its preparation of the metadata, which is the same in both modes. */
  method MatchRule(env: Env, rules: seq<Action>, metadata: Metadata, preMatch: bool, supportBypass: bool)
    returns (r: MatchResult)
    ensures r == Match(env, rules, 0, metadata, preMatch, supportBypass)
  {
    var m := metadata;
    for i := 0 to |rules|
      invariant Match(env, rules, 0, metadata, preMatch, supportBypass)
                == Match(env, rules, i, m, preMatch, supportBypass)
    {
      if env.matches(i, m) {
        var options := OptionsOf(rules[i]);
        if options.Some? {
          m := ApplyOverride(m, options.value);
          var dial := ApplyNetwork(m.dial, options.value.dial);
          dial := ApplyUDP(dial, options.value.dial);
          dial := ApplyTLS(dial, options.value.dial);
          m := m.(dial := dial);
        }
        if rules[i].Sniff? {
          if !preMatch {
            var s := env.sniff(i, m);
            m := SniffedMetadata(m, s);
            if s.fatal.Some? { return MatchResult(None, m, s.fatal); }
          } else if m.network != ICMP {
            return MatchResult(Some(i), m, None);
          }
        }
        if rules[i].Resolve? && m.destination.fqdn != "" {
          var lookup := env.resolve(i, m);
          if lookup.LookupFailed? { return MatchResult(None, m, Some(lookup.error)); }
          m := m.(destinationAddresses := lookup.addresses);
        }
        if rules[i].Route? || rules[i].Reject? || rules[i].HijackDNS? {
          return MatchResult(Some(i), m, None);
        }
        if rules[i].Bypass? && !(!supportBypass && rules[i].outbound == "") {
          return MatchResult(Some(i), m, None);
        }
      }
    }
    return MatchResult(None, m, None);
  }

  method ApplyOverride(metadata: Metadata, o: RouteOptions) returns (m: Metadata)
    ensures m == WithOverride(metadata, o)
  {
    m := metadata;
    if (o.overrideAddress.IsValid() || o.overridePort > 0) && !m.routeOriginalDestination.IsValid() {
      m := m.(routeOriginalDestination := m.destination);
    }
    if o.overrideAddress.IsValid() {
      m := m.(destination := Socksaddr(o.overrideAddress.addr, o.overrideAddress.fqdn, m.destination.port));
      m := m.(destinationAddresses := []);
    }
    if o.overridePort > 0 {
      m := m.(destination := Socksaddr(m.destination.addr, m.destination.fqdn, o.overridePort));
    }
  }

  method ApplyNetwork(dial: DialOptions, o: DialOptions) returns (d: DialOptions)
    ensures d == WithNetwork(dial, o)
  {
    d := dial;
    if o.networkStrategy.Some? { d := d.(networkStrategy := o.networkStrategy); }
    if |o.networkType| > 0 { d := d.(networkType := o.networkType); }
    if |o.fallbackNetworkType| > 0 { d := d.(fallbackNetworkType := o.fallbackNetworkType); }
    if o.fallbackDelay != 0 { d := d.(fallbackDelay := o.fallbackDelay); }
  }

  method ApplyUDP(dial: DialOptions, o: DialOptions) returns (d: DialOptions)
    ensures d == WithUDP(dial, o)
  {
    d := dial;
    if o.udpDisableDomainUnmapping { d := d.(udpDisableDomainUnmapping := true); }
    if o.udpConnect { d := d.(udpConnect := true); }
    if o.udpTimeout > 0 { d := d.(udpTimeout := o.udpTimeout); }
  }

  method ApplyTLS(dial: DialOptions, o: DialOptions) returns (d: DialOptions)
    ensures d == WithTLS(dial, o)
  {
    d := dial;
    if o.tlsFragment { d := d.(tlsFragment := true, tlsFragmentFallbackDelay := o.tlsFragmentFallbackDelay); }
    if o.tlsRecordFragment { d := d.(tlsRecordFragment := true); }
    if o.tlsSpoof != "" { d := d.(tlsSpoof := o.tlsSpoof, tlsSpoofMethod := o.tlsSpoofMethod); }
  }

  // ----- pre-match is a prefix of the full match

  /** The full match picked up where a pre-match stopped. */
  function Resumed(env: Env, rules: seq<Action>, p: MatchResult): MatchResult
    requires p.selected.Some? ==> p.selected.value < |rules|
  {
    if p.selected.None? then p
    else
      var k := p.selected.value;
      if rules[k].Sniff? then
        var s := env.sniff(k, p.metadata);
        var m := SniffedMetadata(p.metadata, s);
        if s.fatal.Some? then MatchResult(None, m, s.fatal) else Match(env, rules, k + 1, m, false, false)
      else if rules[k].Bypass? && rules[k].outbound == "" then Match(env, rules, k + 1, p.metadata, false, false)
      else p
  }

  /**
    For TCP and UDP the full match is the pre-match resumed at the rule where
    it stopped, whether or not the pre-match supported bypass: it agrees in
    rule, metadata and error unless it stopped to sniff or at a bypass without
    outbound, and there it has done exactly the full match's work so far.
   */
  lemma {:induction false} FullResumesPreMatch(env: Env, rules: seq<Action>, i: nat, m: Metadata, supportBypass: bool)
    requires i <= |rules| && m.network != ICMP
    ensures Match(env, rules, i, m, false, false) == Resumed(env, rules, Match(env, rules, i, m, true, supportBypass))
    decreases |rules| - i
  {
    if i < |rules| {
      match StepRule(env, rules, i, m, true, supportBypass)
      case Go(next) => FullResumesPreMatch(env, rules, i + 1, next, supportBypass);
      case Select(final) =>
      case Fatal(final, error) =>
    }
  }

  // ----- which rule is selected

  /** The metadata with which rule `k` is reached, if it is. */
  function Reached(env: Env, rules: seq<Action>, k: nat, m: Metadata, preMatch: bool,
          supportBypass: bool): Option<Metadata>
    requires k <= |rules|
  {
    if k == 0 then Some(m)
    else
      match Reached(env, rules, k - 1, m, preMatch, supportBypass)
      case None => None
      case Some(before) =>
        match StepRule(env, rules, k - 1, before, preMatch, supportBypass)
        case Go(next) => Some(next)
        case Select(_) => None
        case Fatal(_, _) => None
  }

  lemma {:induction false} MatchFromReached(env: Env, rules: seq<Action>, k: nat, m: Metadata, preMatch: bool,
          supportBypass: bool)
    requires k <= |rules| && Reached(env, rules, k, m, preMatch, supportBypass).Some?
    ensures Match(env, rules, 0, m, preMatch, supportBypass)
            == Match(env, rules, k, Reached(env, rules, k, m, preMatch, supportBypass).value, preMatch, supportBypass)
  {
    if k > 0 { MatchFromReached(env, rules, k - 1, m, preMatch, supportBypass); }
  }

  /** Rule `k` is reached and matches. */
  predicate Fires(env: Env, rules: seq<Action>, k: nat, m: Metadata, preMatch: bool, supportBypass: bool)
    requires k < |rules|
  {
    var at := Reached(env, rules, k, m, preMatch, supportBypass);
    at.Some? && env.matches(k, at.value)
  }

  /** The action ends the match with its rule. */
  predicate Decides(action: Action, network: Network, preMatch: bool, supportBypass: bool) {
    || action.Route? || action.Reject? || action.HijackDNS?
    || (action.Bypass? && (action.outbound != "" || supportBypass))
    || (action.Sniff? && preMatch && network != ICMP)
  }

  /** The error with which the action ends the match: of a sniff outside pre-match, or of a resolve of a name. */
  function ErrorOf(env: Env, action: Action, k: nat, at: Metadata, preMatch: bool): Option<int> {
    if action.Sniff? && !preMatch then env.sniff(k, at).fatal
    else if action.Resolve? && at.destination.fqdn != "" && env.resolve(k, at).LookupFailed? then
      Some(env.resolve(k, at).error)
    else None
  }

  lemma {:induction false} NetworkIsKept(env: Env, rules: seq<Action>, k: nat, m: Metadata, preMatch: bool,
          supportBypass: bool)
    requires k <= |rules| && Reached(env, rules, k, m, preMatch, supportBypass).Some?
    ensures Reached(env, rules, k, m, preMatch, supportBypass).value.network == m.network
  {
    if k > 0 { NetworkIsKept(env, rules, k - 1, m, preMatch, supportBypass); }
  }

  /** The rule behind a reached one is reached unless that one matches and decides or fails. */
  lemma ReachedNext(env: Env, rules: seq<Action>, k: nat, m: Metadata, preMatch: bool, supportBypass: bool)
    requires k < |rules|
    ensures Reached(env, rules, k + 1, m, preMatch, supportBypass).Some?
            <==> && Reached(env, rules, k, m, preMatch, supportBypass).Some?
                 && !(&& Fires(env, rules, k, m, preMatch, supportBypass)
                      && (|| Decides(rules[k], m.network, preMatch, supportBypass)
                          || var at := Reached(env, rules, k, m, preMatch, supportBypass).value;
                             ErrorOf(env, rules[k], k, at, preMatch).Some?))
  {
    if Reached(env, rules, k, m, preMatch, supportBypass).Some? {
      NetworkIsKept(env, rules, k, m, preMatch, supportBypass);
    }
  }

  lemma {:induction false} EarlierReached(env: Env, rules: seq<Action>, j: nat, k: nat, m: Metadata, preMatch: bool,
          supportBypass: bool)
    requires j <= k <= |rules| && Reached(env, rules, k, m, preMatch, supportBypass).Some?
    ensures Reached(env, rules, j, m, preMatch, supportBypass).Some?
  {
    if j < k { EarlierReached(env, rules, j, k - 1, m, preMatch, supportBypass); }
  }

  /** What a rule that fires does to the whole match. */
  lemma FiredRuleEnds(env: Env, rules: seq<Action>, k: nat, m: Metadata, preMatch: bool, supportBypass: bool)
    requires k < |rules| && Fires(env, rules, k, m, preMatch, supportBypass)
    ensures var r := Match(env, rules, 0, m, preMatch, supportBypass);
            var at := Reached(env, rules, k, m, preMatch, supportBypass).value;
            && (Decides(rules[k], m.network, preMatch, supportBypass) ==> r.selected == Some(k) && r.fatal.None?)
            && (ErrorOf(env, rules[k], k, at, preMatch).Some? ==>
                  r.selected.None? && r.fatal == ErrorOf(env, rules[k], k, at, preMatch))
  {
    NetworkIsKept(env, rules, k, m, preMatch, supportBypass);
    MatchFromReached(env, rules, k, m, preMatch, supportBypass);
  }

  /** The rule at which the match stopped; the number of rules when it went through. */
  ghost function LastReached(env: Env, rules: seq<Action>, k: nat, m: Metadata, preMatch: bool,
          supportBypass: bool): (n: nat)
    requires k <= |rules| && Reached(env, rules, k, m, preMatch, supportBypass).Some?
    ensures k <= n <= |rules| && Reached(env, rules, n, m, preMatch, supportBypass).Some?
    ensures n < |rules| ==> Reached(env, rules, n + 1, m, preMatch, supportBypass).None?
    decreases |rules| - k
  {
    if k == |rules| || Reached(env, rules, k + 1, m, preMatch, supportBypass).None? then k
    else LastReached(env, rules, k + 1, m, preMatch, supportBypass)
  }

  lemma StoppedAt(env: Env, rules: seq<Action>, m: Metadata, preMatch: bool, supportBypass: bool)
    ensures var r := Match(env, rules, 0, m, preMatch, supportBypass);
            var n := LastReached(env, rules, 0, m, preMatch, supportBypass);
            if n == |rules| then r.selected.None? && r.fatal.None?
            else && Fires(env, rules, n, m, preMatch, supportBypass)
                 && (|| (r.selected == Some(n) && Decides(rules[n], m.network, preMatch, supportBypass))
                     || var at := Reached(env, rules, n, m, preMatch, supportBypass).value;
                        (r.selected.None? && r.fatal.Some? && r.fatal == ErrorOf(env, rules[n], n, at, preMatch)))
  {
    var n := LastReached(env, rules, 0, m, preMatch, supportBypass);
    MatchFromReached(env, rules, n, m, preMatch, supportBypass);
    if n < |rules| {
      ReachedNext(env, rules, n, m, preMatch, supportBypass);
      FiredRuleEnds(env, rules, n, m, preMatch, supportBypass);
    }
  }

  /** A rule is selected if and only if it is reached, matches and decides. */
  lemma SelectedExactly(env: Env, rules: seq<Action>, k: nat, m: Metadata, preMatch: bool, supportBypass: bool)
    requires k < |rules|
    ensures Match(env, rules, 0, m, preMatch, supportBypass).selected == Some(k)
            <==> Fires(env, rules, k, m, preMatch, supportBypass)
                 && Decides(rules[k], m.network, preMatch, supportBypass)
  {
    StoppedAt(env, rules, m, preMatch, supportBypass);
    if Fires(env, rules, k, m, preMatch, supportBypass) { FiredRuleEnds(env, rules, k, m, preMatch, supportBypass); }
  }

  /** The match ends with an error if and only if a reached rule that matches fails with it. */
  lemma FatalExactly(env: Env, rules: seq<Action>, m: Metadata, preMatch: bool, supportBypass: bool, error: int)
    ensures Match(env, rules, 0, m, preMatch, supportBypass).fatal == Some(error)
            <==> exists k :: 0 <= k < |rules| && Fires(env, rules, k, m, preMatch, supportBypass)
                   && ErrorOf(env, rules[k], k, Reached(env, rules, k, m, preMatch, supportBypass).value, preMatch)
                      == Some(error)
  {
    StoppedAt(env, rules, m, preMatch, supportBypass);
    forall k | 0 <= k < |rules| && Fires(env, rules, k, m, preMatch, supportBypass)
               && ErrorOf(env, rules[k], k, Reached(env, rules, k, m, preMatch, supportBypass).value, preMatch)
                  == Some(error)
      ensures Match(env, rules, 0, m, preMatch, supportBypass).fatal == Some(error)
    {
      FiredRuleEnds(env, rules, k, m, preMatch, supportBypass);
    }
  }

  // ----- what becomes of the metadata

  /** The metadata behind the first `k` rules, the last of which may have ended the match. */
  ghost function Trail(env: Env, rules: seq<Action>, k: nat, m: Metadata, preMatch: bool, supportBypass: bool): Metadata
    requires k <= |rules| && (k == 0 || Reached(env, rules, k - 1, m, preMatch, supportBypass).Some?)
  {
    if k == 0 then m
    else
      var at := Reached(env, rules, k - 1, m, preMatch, supportBypass).value;
      StepRule(env, rules, k - 1, at, preMatch, supportBypass).metadata
  }

  lemma TrailIsReached(env: Env, rules: seq<Action>, k: nat, m: Metadata, preMatch: bool, supportBypass: bool)
    requires k <= |rules| && Reached(env, rules, k, m, preMatch, supportBypass).Some?
    ensures k == 0 || Reached(env, rules, k - 1, m, preMatch, supportBypass).Some?
    ensures Trail(env, rules, k, m, preMatch, supportBypass)
            == Reached(env, rules, k, m, preMatch, supportBypass).value
  {
  }

  /** How many rules the match has looked at. */
  ghost function Visited(env: Env, rules: seq<Action>, m: Metadata, preMatch: bool, supportBypass: bool): (n: nat)
    ensures n <= |rules| && (n == 0 || Reached(env, rules, n - 1, m, preMatch, supportBypass).Some?)
  {
    var n := LastReached(env, rules, 0, m, preMatch, supportBypass);
    if n > 0 then EarlierReached(env, rules, n - 1, n, m, preMatch, supportBypass); if n < |rules| then n + 1 else n
    else if n < |rules| then n + 1 else n
  }

  // The parts of the metadata that rules change one by one; network and original destination are apart.
  datatype Aspect =
    | HostAspect | PortAspect | ResolvedAspect | SniffedAspect
    | StrategyAspect | NetworkTypeAspect | FallbackTypeAspect | FallbackDelayAspect
    | UnmappingAspect | ConnectAspect | TimeoutAspect
    | FragmentAspect | RecordFragmentAspect | SpoofAspect

  datatype Value =
    | Host(addr: Option<int>, fqdn: string)
    | Number(n: int)
    | Numbers(list: seq<int>)
    | Sniffing(protocol: string, domain: string)
    | Strategy(strategy: Option<int>)
    | Switch(on: bool)
    | Fragment(on: bool, delay: int)
    | Spoof(name: string, how: int)

  function ValueOf(aspect: Aspect, m: Metadata): Value {
    match aspect
    case HostAspect => Host(m.destination.addr, m.destination.fqdn)
    case PortAspect => Number(m.destination.port)
    case ResolvedAspect => Numbers(m.destinationAddresses)
    case SniffedAspect => Sniffing(m.protocol, m.domain)
    case StrategyAspect => Strategy(m.dial.networkStrategy)
    case NetworkTypeAspect => Numbers(m.dial.networkType)
    case FallbackTypeAspect => Numbers(m.dial.fallbackNetworkType)
    case FallbackDelayAspect => Number(m.dial.fallbackDelay)
    case UnmappingAspect => Switch(m.dial.udpDisableDomainUnmapping)
    case ConnectAspect => Switch(m.dial.udpConnect)
    case TimeoutAspect => Number(m.dial.udpTimeout)
    case FragmentAspect => Fragment(m.dial.tlsFragment, m.dial.tlsFragmentFallbackDelay)
    case RecordFragmentAspect => Switch(m.dial.tlsRecordFragment)
    case SpoofAspect => Spoof(m.dial.tlsSpoof, m.dial.tlsSpoofMethod)
  }

  predicate HasOptions(action: Action) {
    action.Route? || action.SetOptions? || (action.Bypass? && action.outbound != "")
  }

  /** What the options of a rule give for an aspect, if anything. */
  function Given(aspect: Aspect, o: RouteOptions): Option<Value> {
    match aspect
    case HostAspect =>
      if o.overrideAddress.IsValid() then Some(Host(o.overrideAddress.addr, o.overrideAddress.fqdn)) else None
    case PortAspect => if o.overridePort > 0 then Some(Number(o.overridePort)) else None
    case ResolvedAspect => if o.overrideAddress.IsValid() then Some(Numbers([])) else None
    case SniffedAspect => None
    case StrategyAspect => if o.dial.networkStrategy.Some? then Some(Strategy(o.dial.networkStrategy)) else None
    case NetworkTypeAspect => if o.dial.networkType != [] then Some(Numbers(o.dial.networkType)) else None
    case FallbackTypeAspect =>
      if o.dial.fallbackNetworkType != [] then Some(Numbers(o.dial.fallbackNetworkType)) else None
    case FallbackDelayAspect => if o.dial.fallbackDelay != 0 then Some(Number(o.dial.fallbackDelay)) else None
    case UnmappingAspect => if o.dial.udpDisableDomainUnmapping then Some(Switch(true)) else None
    case ConnectAspect => if o.dial.udpConnect then Some(Switch(true)) else None
    case TimeoutAspect => if o.dial.udpTimeout > 0 then Some(Number(o.dial.udpTimeout)) else None
    case FragmentAspect => if o.dial.tlsFragment then Some(Fragment(true, o.dial.tlsFragmentFallbackDelay)) else None
    case RecordFragmentAspect => if o.dial.tlsRecordFragment then Some(Switch(true)) else None
    case SpoofAspect => if o.dial.tlsSpoof != "" then Some(Spoof(o.dial.tlsSpoof, o.dial.tlsSpoofMethod)) else None
  }

  /** What a rule that matches with metadata `at` writes into an aspect, if anything. */
  function Written(aspect: Aspect, env: Env, action: Action, k: nat, at: Metadata, preMatch: bool): Option<Value> {
    if HasOptions(action) then Given(aspect, action.options)
    else if action.Sniff? && !preMatch then
      var s := env.sniff(k, at);
      if aspect == SniffedAspect then Some(Sniffing(s.protocol, s.domain))
      else if aspect == HostAspect && s.overrides then Some(Host(None, s.domain))
      else None
    else if action.Resolve? && aspect == ResolvedAspect && at.destination.fqdn != "" then
      match env.resolve(k, at)
      case Addresses(addresses) => Some(Numbers(addresses))
      case LookupFailed(_) => None
    else None
  }

  lemma AppliedWrites(aspect: Aspect, m: Metadata, action: Action)
    ensures ValueOf(aspect, Applied(m, action))
            == if HasOptions(action) && Given(aspect, action.options).Some? then Given(aspect, action.options).value
               else ValueOf(aspect, m)
  {
  }

  lemma SniffWrites(aspect: Aspect, m: Metadata, s: Sniffed)
    ensures ValueOf(aspect, SniffedMetadata(m, s))
            == if aspect == SniffedAspect then Sniffing(s.protocol, s.domain)
               else if aspect == HostAspect && s.overrides then Host(None, s.domain)
               else ValueOf(aspect, m)
  {
  }

  lemma StepWrites(aspect: Aspect, env: Env, rules: seq<Action>, k: nat, at: Metadata, preMatch: bool,
          supportBypass: bool)
    requires k < |rules|
    ensures ValueOf(aspect, StepRule(env, rules, k, at, preMatch, supportBypass).metadata)
            == if env.matches(k, at) && Written(aspect, env, rules[k], k, at, preMatch).Some?
               then Written(aspect, env, rules[k], k, at, preMatch).value else ValueOf(aspect, at)
  {
    AppliedWrites(aspect, at, rules[k]);
    if rules[k].Sniff? { SniffWrites(aspect, at, env.sniff(k, at)); }
  }

  /** What rule `j` has written in this match. */
  ghost function WrittenBy(aspect: Aspect, env: Env, rules: seq<Action>, j: nat, m: Metadata, preMatch: bool,
          supportBypass: bool): Option<Value>
    requires j < |rules|
  {
    if Fires(env, rules, j, m, preMatch, supportBypass) then
      Written(aspect, env, rules[j], j, Reached(env, rules, j, m, preMatch, supportBypass).value, preMatch)
    else None
  }

  lemma TrailWrites(aspect: Aspect, env: Env, rules: seq<Action>, k: nat, m: Metadata, preMatch: bool,
          supportBypass: bool)
    requires k < |rules| && Reached(env, rules, k, m, preMatch, supportBypass).Some?
    ensures var written := WrittenBy(aspect, env, rules, k, m, preMatch, supportBypass);
            ValueOf(aspect, Trail(env, rules, k + 1, m, preMatch, supportBypass))
            == if written.Some? then written.value
               else ValueOf(aspect, Reached(env, rules, k, m, preMatch, supportBypass).value)
  {
    var at := Reached(env, rules, k, m, preMatch, supportBypass).value;
    StepWrites(aspect, env, rules, k, at, preMatch, supportBypass);
  }

  /** What was written last by one of the first `k` rules. */
  ghost function LastWritten(aspect: Aspect, env: Env, rules: seq<Action>, k: nat, m: Metadata, preMatch: bool,
          supportBypass: bool): Option<Value>
    requires k <= |rules|
  {
    if k == 0 then None
    else
      var latest := WrittenBy(aspect, env, rules, k - 1, m, preMatch, supportBypass);
      if latest.Some? then latest else LastWritten(aspect, env, rules, k - 1, m, preMatch, supportBypass)
  }

  /**
    Every aspect of the metadata is what the last rule that matched and writes
    it has written, and as given when none does.
   */
  lemma {:induction false} LastWriterWins(aspect: Aspect, env: Env, rules: seq<Action>, k: nat, m: Metadata,
          preMatch: bool, supportBypass: bool)
    requires k <= |rules| && (k == 0 || Reached(env, rules, k - 1, m, preMatch, supportBypass).Some?)
    ensures var last := LastWritten(aspect, env, rules, k, m, preMatch, supportBypass);
            ValueOf(aspect, Trail(env, rules, k, m, preMatch, supportBypass))
            == if last.Some? then last.value else ValueOf(aspect, m)
  {
    if k > 0 {
      TrailIsReached(env, rules, k - 1, m, preMatch, supportBypass);
      LastWriterWins(aspect, env, rules, k - 1, m, preMatch, supportBypass);
      TrailWrites(aspect, env, rules, k - 1, m, preMatch, supportBypass);
    }
  }

  /** The result carries the metadata behind the last rule looked at. */
  lemma ResultIsTrail(env: Env, rules: seq<Action>, m: Metadata, preMatch: bool, supportBypass: bool)
    ensures Match(env, rules, 0, m, preMatch, supportBypass).metadata
            == Trail(env, rules, Visited(env, rules, m, preMatch, supportBypass), m, preMatch, supportBypass)
  {
    var n := LastReached(env, rules, 0, m, preMatch, supportBypass);
    MatchFromReached(env, rules, n, m, preMatch, supportBypass);
    TrailIsReached(env, rules, n, m, preMatch, supportBypass);
  }

  /** So every aspect of the result is what the last matching rule looked at has written. */
  lemma ResultIsLastWritten(aspect: Aspect, env: Env, rules: seq<Action>, m: Metadata, preMatch: bool,
          supportBypass: bool)
    ensures var n := Visited(env, rules, m, preMatch, supportBypass);
            var last := LastWritten(aspect, env, rules, n, m, preMatch, supportBypass);
            ValueOf(aspect, Match(env, rules, 0, m, preMatch, supportBypass).metadata)
            == if last.Some? then last.value else ValueOf(aspect, m)
  {
    ResultIsTrail(env, rules, m, preMatch, supportBypass);
    LastWriterWins(aspect, env, rules, Visited(env, rules, m, preMatch, supportBypass), m, preMatch, supportBypass);
  }

  // ----- the decisions taken on a match

  datatype Decision =
    | Failed(error: int)
    | RejectedBy(rule: nat)
    | Hijacked(rule: nat)
    | Outbound(tag: string)
    | DefaultOutbound
    | Bypassed(rule: nat)
    | GoOn

  /** PreMatch for TCP and UDP: only errors, rejects and bypasses are final. */
  function PreDecision(rules: seq<Action>, r: MatchResult, supportBypass: bool): Decision
    requires r.selected.Some? ==> r.selected.value < |rules|
  {
    if r.fatal.Some? then Failed(r.fatal.value)
    else if r.selected.None? then GoOn
    else if rules[r.selected.value].Reject? then RejectedBy(r.selected.value)
    else if rules[r.selected.value].Bypass? && supportBypass then Bypassed(r.selected.value)
    else GoOn
  }

  /** routeConnection and routePacketConnection up to the choice of the outbound. */
  function RouteDecision(rules: seq<Action>, r: MatchResult): Decision
    requires r.selected.Some? ==> r.selected.value < |rules|
  {
    if r.fatal.Some? then Failed(r.fatal.value)
    else if r.selected.None? then DefaultOutbound
    else
      match rules[r.selected.value]
      case Route(outbound, _) => Outbound(outbound)
      case Bypass(outbound, _) => Outbound(outbound)
      case Reject => RejectedBy(r.selected.value)
      case HijackDNS => Hijacked(r.selected.value)
      case _ => GoOn
  }

  /** Which decision the first rule to decide leads to. */
  lemma DecisionExactly(env: Env, rules: seq<Action>, k: nat, m: Metadata)
    requires k < |rules|
    ensures var decision := RouteDecision(rules, Match(env, rules, 0, m, false, false));
            var fires := Fires(env, rules, k, m, false, false);
            && (decision == RejectedBy(k) <==> fires && rules[k].Reject?)
            && (decision == Hijacked(k) <==> fires && rules[k].HijackDNS?)
            && (fires && (rules[k].Route? || (rules[k].Bypass? && rules[k].outbound != "")) ==>
                  decision == Outbound(rules[k].outbound))
            && (fires && Decides(rules[k], m.network, false, false) ==> !decision.DefaultOutbound?)
  {
    SelectedExactly(env, rules, k, m, false, false);
    if Fires(env, rules, k, m, false, false) { FiredRuleEnds(env, rules, k, m, false, false); }
  }

  /** The default outbound is taken if and only if no rule that matches decides or fails. */
  lemma DefaultExactly(env: Env, rules: seq<Action>, m: Metadata)
    ensures RouteDecision(rules, Match(env, rules, 0, m, false, false)).DefaultOutbound?
            <==> forall k :: 0 <= k < |rules| && Fires(env, rules, k, m, false, false) ==>
                   && !Decides(rules[k], m.network, false, false)
                   && ErrorOf(env, rules[k], k, Reached(env, rules, k, m, false, false).value, false).None?
  {
    StoppedAt(env, rules, m, false, false);
    forall k | 0 <= k < |rules| && Fires(env, rules, k, m, false, false)
      ensures RouteDecision(rules, Match(env, rules, 0, m, false, false)).DefaultOutbound? ==>
                && !Decides(rules[k], m.network, false, false)
                && ErrorOf(env, rules[k], k, Reached(env, rules, k, m, false, false).value, false).None?
    {
      FiredRuleEnds(env, rules, k, m, false, false);
    }
  }

  /** Pre-match refuses and bypasses by the rule that is reached and matches, and by no other. */
  lemma PreDecisionExactly(env: Env, rules: seq<Action>, k: nat, m: Metadata, supportBypass: bool)
    requires k < |rules|
    ensures var decision := PreDecision(rules, Match(env, rules, 0, m, true, supportBypass), supportBypass);
            var fires := Fires(env, rules, k, m, true, supportBypass);
            && (decision == RejectedBy(k) <==> fires && rules[k].Reject?)
            && (decision == Bypassed(k) <==> fires && rules[k].Bypass? && supportBypass)
  {
    SelectedExactly(env, rules, k, m, true, supportBypass);
    if Fires(env, rules, k, m, true, supportBypass) { FiredRuleEnds(env, rules, k, m, true, supportBypass); }
  }

  /**
    What pre-match refuses, the full match refuses by the same rule or error;
    and it misses only what sniffing or bypass decides.
   */
  lemma PreMatchIsSound(env: Env, rules: seq<Action>, m: Metadata, supportBypass: bool)
    requires m.network != ICMP
    ensures var pre := Match(env, rules, 0, m, true, supportBypass);
            var early := PreDecision(rules, pre, supportBypass);
            var late := RouteDecision(rules, Match(env, rules, 0, m, false, false));
            && (early.RejectedBy? || early.Failed? ==> late == early)
            && (late.RejectedBy? || late.Failed? ==>
                  early == late
                  || (pre.selected.Some? && (rules[pre.selected.value].Sniff? || rules[pre.selected.value].Bypass?)))
  {
    FullResumesPreMatch(env, rules, 0, m, supportBypass);
  }

  // ----- the original destination

  lemma {:induction false} OriginalDestinationIsKept(env: Env, rules: seq<Action>, i: nat, m: Metadata,
          preMatch: bool, supportBypass: bool)
    requires i <= |rules| && m.routeOriginalDestination.IsValid()
    ensures Match(env, rules, i, m, preMatch, supportBypass).metadata.routeOriginalDestination
            == m.routeOriginalDestination
    decreases |rules| - i
  {
    if i < |rules| {
      match StepRule(env, rules, i, m, preMatch, supportBypass)
      case Go(next) => OriginalDestinationIsKept(env, rules, i + 1, next, preMatch, supportBypass);
      case Select(final) =>
      case Fatal(final, error) =>
    }
  }

  /** Rule `k` is reached, matches and overrides the destination. */
  predicate OverridesAt(env: Env, rules: seq<Action>, k: nat, m: Metadata, preMatch: bool, supportBypass: bool)
    requires k < |rules|
  {
    var at := Reached(env, rules, k, m, preMatch, supportBypass);
    at.Some? && env.matches(k, at.value) && Overrides(rules[k])
  }

  lemma {:induction false} UntouchedBefore(env: Env, rules: seq<Action>, k: nat, m: Metadata, preMatch: bool,
          supportBypass: bool)
    requires k <= |rules| && Reached(env, rules, k, m, preMatch, supportBypass).Some?
    requires forall j :: 0 <= j < k ==> !OverridesAt(env, rules, j, m, preMatch, supportBypass)
    ensures Reached(env, rules, k, m, preMatch, supportBypass).value.routeOriginalDestination
            == m.routeOriginalDestination
  {
    if k > 0 {
      UntouchedBefore(env, rules, k - 1, m, preMatch, supportBypass);
      assert !OverridesAt(env, rules, k - 1, m, preMatch, supportBypass);
    }
  }

  /**
    The recorded original destination is the one the connection had just
    before the first rule that overrode it, whatever later rules override.
   */
  lemma OriginalIsBeforeFirstOverride(env: Env, rules: seq<Action>, k: nat, m: Metadata, preMatch: bool,
          supportBypass: bool)
    requires k < |rules| && OverridesAt(env, rules, k, m, preMatch, supportBypass)
    requires forall j :: 0 <= j < k ==> !OverridesAt(env, rules, j, m, preMatch, supportBypass)
    requires !m.routeOriginalDestination.IsValid()
    requires Reached(env, rules, k, m, preMatch, supportBypass).value.destination.IsValid()
    ensures Match(env, rules, 0, m, preMatch, supportBypass).metadata.routeOriginalDestination
            == Reached(env, rules, k, m, preMatch, supportBypass).value.destination
  {
    UntouchedBefore(env, rules, k, m, preMatch, supportBypass);
    MatchFromReached(env, rules, k, m, preMatch, supportBypass);
    var at := Reached(env, rules, k, m, preMatch, supportBypass).value;
    var next := StepRule(env, rules, k, at, preMatch, supportBypass);
    if next.Go? { OriginalDestinationIsKept(env, rules, k + 1, next.metadata, preMatch, supportBypass); }
  }
}
