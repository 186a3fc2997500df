/**
  The gate that a DNS router keeps in front of rule-set updates. An update
  reads the router's flags, is checked under them, and is stored, in three
  steps; the start of the router builds its rules for a mode and publishes it
  later. All of these interleave freely.
 */
module DnsModeGate {
  import opened DnsRules
  import opened Wrappers

  datatype State = State(
    rules: seq<Rule>,
    ruleSets: map<string, Metadata>,
    built: Option<bool>,   // whether the start has built its rules for the legacy mode
    started: bool,
    legacyMode: bool,
    closing: bool)

  /** The checks of buildRules that depend on rule-set metadata. */
  predicate Builds(rules: seq<Rule>, ruleSets: map<string, Metadata>) {
    var mode := ResolveMode(Some(ruleSets), rules, map[]);
    mode.Ok? && (!mode.value.0 ==> Validate(Some(ruleSets), rules, map[], 0, false).Ok?)
  }

  /** ValidateRuleSetMetadataUpdate, branch by branch. */
  function Gate(s: State, tag: string, metadata: Metadata): Result<()> {
    var router, overrides := Some(s.ruleSets), map[tag := metadata];
    if s.rules == [] || s.closing then Ok(())
    else
      match ResolveMode(router, s.rules, overrides)
      case Err(e) => Err(e)
      case Ok((candidate, flags)) =>
        if !s.started then
          if candidate then Ok(()) else Validate(router, s.rules, overrides, 0, false)
        else if s.legacyMode then
          if !candidate && flags.disabled then
            match Validate(router, s.rules, overrides, 0, false)
            case Err(e) => Err(e)
            case Ok(_) => Err(AddressFilterUnsupported)
          else Ok(())
        else if candidate then Err(AddressFilterUnsupported)
        else Validate(router, s.rules, overrides, 0, false)
  }

  /** The new mode's rules keep their mode and stay valid. */
  ghost predicate KeepsNewMode(rules: seq<Rule>, ruleSets: map<string, Metadata>) {
    var mode := ResolveMode(Some(ruleSets), rules, map[]);
    mode.Ok? && !mode.value.0 && Validate(Some(ruleSets), rules, map[], 0, false).Ok?
  }

  /** Nothing that the legacy mode cannot run has come in. */
  ghost predicate KeepsLegacyMode(rules: seq<Rule>, ruleSets: map<string, Metadata>) {
    AllResolve(Some(ruleSets), rules, map[]) && !SomeDisables(Some(ruleSets), rules, map[])
  }

  /** Checking with an override is checking after the store. */
  lemma OverrideIsStore(rules: seq<Rule>, ruleSets: map<string, Metadata>, tag: string, metadata: Metadata)
    ensures var before, after := Some(ruleSets), Some(ruleSets[tag := metadata]);
            var overrides := map[tag := metadata];
            && (AllResolve(before, rules, overrides) <==> AllResolve(after, rules, map[]))
            && (SomeDisables(before, rules, overrides) <==> SomeDisables(after, rules, map[]))
            && (SomeNeeds(before, rules, overrides) <==> SomeNeeds(after, rules, map[]))
            && (Validate(before, rules, overrides, 0, false).Ok? <==> Validate(after, rules, map[], 0, false).Ok?)
  {
    var before, after := Some(ruleSets), Some(ruleSets[tag := metadata]);
    var overrides := map[tag := metadata];
    assert forall t :: LookupMetadata(before.value, t, overrides) == LookupMetadata(after.value, t, map[]);
    forall n ensures NodeResolves(before, overrides, n) <==> NodeResolves(after, map[], n)
             ensures NodeDisables(before, overrides, n) <==> NodeDisables(after, map[], n)
             ensures NodeNeeds(before, overrides, n) <==> NodeNeeds(after, map[], n)
             ensures NodeAdmissible(before, overrides, n) <==> NodeAdmissible(after, map[], n) {
      SameLookupsSameNode(before, overrides, after, map[], n);
    }
    AcceptedMeansEvaluateFirst(before, rules, overrides);
    AcceptedMeansEvaluateFirst(after, rules, map[]);
  }

  lemma SameLookupsSameNode(r1: Router, o1: Overrides, r2: Router, o2: Overrides, n: Rule)
    requires r1.Some? && r2.Some?
    requires forall t :: LookupMetadata(r1.value, t, o1) == LookupMetadata(r2.value, t, o2)
    ensures NodeResolves(r1, o1, n) <==> NodeResolves(r2, o2, n)
    ensures forall p :: RuleSetHas(r1, o1, n, p) <==> RuleSetHas(r2, o2, n, p)
    ensures NodeDisables(r1, o1, n) <==> NodeDisables(r2, o2, n)
    ensures NodeNeeds(r1, o1, n) <==> NodeNeeds(r2, o2, n)
    ensures NodeAdmissible(r1, o1, n) <==> NodeAdmissible(r2, o2, n)
  {
  }

  /** In the new mode the gate opens exactly when the stored update keeps the mode and the rules valid. */
  lemma GateInNewMode(s: State, tag: string, metadata: Metadata)
    requires s.started && !s.legacyMode && !s.closing
    ensures Gate(s, tag, metadata).Ok? <==> KeepsNewMode(s.rules, s.ruleSets[tag := metadata])
  {
    OverrideIsStore(s.rules, s.ruleSets, tag, metadata);
    ModeIsDecidedByNodes(Some(s.ruleSets), s.rules, map[tag := metadata]);
    ModeIsDecidedByNodes(Some(s.ruleSets[tag := metadata]), s.rules, map[]);
  }

  /** In the legacy mode it opens exactly when no node is left that the legacy mode cannot run. */
  lemma GateInLegacyMode(s: State, tag: string, metadata: Metadata)
    requires s.started && s.legacyMode && !s.closing
    ensures Gate(s, tag, metadata).Ok? <==> KeepsLegacyMode(s.rules, s.ruleSets[tag := metadata])
  {
    OverrideIsStore(s.rules, s.ruleSets, tag, metadata);
    ModeIsDecidedByNodes(Some(s.ruleSets), s.rules, map[tag := metadata]);
    NoRulesNoNodes(s);
  }

  lemma NoRulesNoNodes(s: State)
    ensures s.rules == [] ==> Nodes(s.rules) == iset{}
  {
  }

  /** Before the start the gate opens exactly when the router could be built on the stored update. */
  lemma GateBeforeStart(s: State, tag: string, metadata: Metadata)
    requires !s.started && !s.closing
    ensures Gate(s, tag, metadata).Ok? <==> Builds(s.rules, s.ruleSets[tag := metadata])
  {
    OverrideIsStore(s.rules, s.ruleSets, tag, metadata);
    ModeIsDecidedByNodes(Some(s.ruleSets), s.rules, map[tag := metadata]);
    ModeIsDecidedByNodes(Some(s.ruleSets[tag := metadata]), s.rules, map[]);
  }

  /** Without rules, and from the close on, every update may pass. */
  lemma ClosedGateOpens(s: State, tag: string, metadata: Metadata)
    requires s.rules == [] || s.closing
    ensures Gate(s, tag, metadata).Ok?
    ensures forall updates :: Step(Racing(s, updates), Close).state.closing
  {
  }

  /**
    Why a started router refuses: an unknown rule-set or a strategy conflict
    first; then what the new mode has against the rules, where that is the
    mode they are or would be run in; else that the mode would have to change.
   */
  lemma RefusalNames(s: State, tag: string, metadata: Metadata)
    requires s.started && !s.closing && Gate(s, tag, metadata).Err?
    ensures var after := Some(s.ruleSets[tag := metadata]);
            var mode := ResolveMode(Some(s.ruleSets), s.rules, map[tag := metadata]);
            var valid := Validate(Some(s.ruleSets), s.rules, map[tag := metadata], 0, false);
            var e := Gate(s, tag, metadata).error;
            && (mode.Err? ==> e == mode.error)
            && (mode.Ok? && SomeDisables(after, s.rules, map[]) && valid.Err? ==> e == valid.error)
            && (mode.Ok? && SomeDisables(after, s.rules, map[]) && valid.Ok? ==>
                  s.legacyMode && e == AddressFilterUnsupported)
            && (mode.Ok? && !SomeDisables(after, s.rules, map[]) ==>
                  !s.legacyMode && e == if SomeNeeds(after, s.rules, map[]) || valid.Ok? then AddressFilterUnsupported
                                        else valid.error)
  {
    OverrideIsStore(s.rules, s.ruleSets, tag, metadata);
    ModeIsDecidedByNodes(Some(s.ruleSets), s.rules, map[tag := metadata]);
    ModeIsDecidedByNodes(Some(s.ruleSets[tag := metadata]), s.rules, map[]);
  }

  // ----- every interleaving of updates with the start and the close

  // An update under way: the flags it has read, whether it has passed the check under them, and what the check saw.
  datatype Update = Update(
    tag: string,
    metadata: Metadata,
    started: bool,
    legacyMode: bool,
    closing: bool,
    passed: bool,
    seen: map<string, Metadata>)

  datatype Racing = Racing(state: State, updates: seq<Update>)

  datatype Event =
    | Read(tag: string, metadata: Metadata)   // a known rule-set has new content
    | Check(index: nat)
    | Store(index: nat)
    | Build
    | Publish
    | Close

  /** The check of an update: the flags are the ones it read, the other rule-sets those of now. */
  function CheckOf(s: State, u: Update): Result<()> {
    Gate(s.(started := u.started, legacyMode := u.legacyMode, closing := u.closing), u.tag, u.metadata)
  }

  function Stored(s: State, tag: string, metadata: Metadata): State {
    s.(ruleSets := s.ruleSets[tag := metadata])
  }

  function Step(r: Racing, e: Event): Racing {
    var s, updates := r.state, r.updates;
    match e
    case Read(tag, metadata) =>
      if tag !in s.ruleSets then r
      else r.(updates := updates + [Update(tag, metadata, s.started, s.legacyMode, s.closing, false, map[])])
    case Check(i) =>
      if i >= |updates| || updates[i].passed then r
      else if CheckOf(s, updates[i]).Ok? then
        r.(updates := updates[i := updates[i].(passed := true, seen := s.ruleSets)])
      else r.(updates := updates[..i] + updates[i + 1..])
    case Store(i) =>
      if i >= |updates| || !updates[i].passed then r
      else Racing(Stored(s, updates[i].tag, updates[i].metadata), updates[..i] + updates[i + 1..])
    case Build =>
      if s.built.Some? || !Builds(s.rules, s.ruleSets) then r
      else r.(state := s.(built := Some(ResolveMode(Some(s.ruleSets), s.rules, map[]).value.0)))
    case Publish =>
      if s.built.None? || s.started || s.closing then r
      else r.(state := s.(started := true, legacyMode := s.built.value))
    case Close => r.(state := s.(closing := true))
  }

  function Run(r: Racing, events: seq<Event>): Racing {
    if events == [] then r else Step(Run(r, events[..|events| - 1]), events[|events| - 1])
  }

  ghost predicate Unstarted(r: Racing) {
    r.state.built.None? && !r.state.started && r.updates == []
  }

  /** From the build to the close, the metadata in force are such that the mode built for can run them. */
  ghost predicate Sound(s: State) {
    s.built.Some? && !s.closing ==>
      if s.built.value then KeepsLegacyMode(s.rules, s.ruleSets) else KeepsNewMode(s.rules, s.ruleSets)
  }

  /** New metadata that no rule using the tag is disabled by. */
  ghost predicate Harmless(rules: seq<Rule>, tag: string, metadata: Metadata) {
    metadata.containsDNSQueryTypeRule ==>
      forall n :: n in Nodes(rules) && n.Default? ==> tag !in n.options.ruleSet
  }

  /**
    The flags that an update has read say what the router still does, it has
    passed the check of what it saw, and a late legacy check lets only harmless
    ones by.
   */
  ghost predicate UpdateAgrees(s: State, u: Update) {
    && u.tag in s.ruleSets
    && (u.started ==> s.started && u.legacyMode == s.legacyMode)
    && (u.closing ==> s.closing)
    && (u.passed ==> CheckOf(s.(ruleSets := u.seen), u).Ok?)
    && (u.passed && u.started && u.legacyMode && !u.closing ==> Harmless(s.rules, u.tag, u.metadata))
  }

  ghost predicate Inv(r: Racing) {
    && (r.state.started ==> r.state.built == Some(r.state.legacyMode))
    && forall i :: 0 <= i < |r.updates| ==> UpdateAgrees(r.state, r.updates[i])
  }

  /** What passes a check in the legacy mode is harmless, whatever else the rule-sets hold. */
  lemma KeepingMeansHarmless(rules: seq<Rule>, ruleSets: map<string, Metadata>, tag: string, metadata: Metadata)
    requires KeepsLegacyMode(rules, ruleSets[tag := metadata])
    ensures Harmless(rules, tag, metadata)
  {
    var router, none := Some(ruleSets[tag := metadata]), map[];
    forall n | n in Nodes(rules) && n.Default? && metadata.containsDNSQueryTypeRule ensures tag !in n.options.ruleSet {
      assert !NodeDisables(router, none, n);
    }
  }

  /** The legacy condition splits by rule-set: a harmless update can land at any later time. */
  lemma LegacyConditionIsLocal(rules: seq<Rule>, ruleSets: map<string, Metadata>, tag: string, metadata: Metadata)
    requires KeepsLegacyMode(rules, ruleSets) && tag in ruleSets
    ensures KeepsLegacyMode(rules, ruleSets[tag := metadata]) <==> Harmless(rules, tag, metadata)
  {
  }

  lemma StepKeepsInv(r: Racing, e: Event)
    requires Inv(r)
    ensures Inv(Step(r, e))
  {
    var n := Step(r, e);
    if e.Check? && e.index < |r.updates| && !r.updates[e.index].passed {
      var u := r.updates[e.index];
      assert UpdateAgrees(r.state, u);
      if CheckOf(r.state, u).Ok? && u.started && u.legacyMode && !u.closing {
        var seen := r.state.(started := u.started, legacyMode := u.legacyMode, closing := u.closing);
        GateInLegacyMode(seen, u.tag, u.metadata);
        KeepingMeansHarmless(r.state.rules, r.state.ruleSets, u.tag, u.metadata);
      }
    }
    forall i | 0 <= i < |n.updates| ensures UpdateAgrees(n.state, n.updates[i]) {
      if i < |r.updates| { assert UpdateAgrees(r.state, r.updates[i]); }
      if i + 1 < |r.updates| { assert UpdateAgrees(r.state, r.updates[i + 1]); }
    }
  }

  lemma {:induction false} RunKeepsInv(r: Racing, events: seq<Event>)
    requires Unstarted(r)
    ensures Inv(Run(r, events))
  {
    if events != [] {
      RunKeepsInv(r, events[..|events| - 1]);
      StepKeepsInv(Run(r, events[..|events| - 1]), events[|events| - 1]);
    }
  }

  /** The event stores an update while the mode is fixed and in use. */
  predicate StoresInUse(r: Racing, e: Event) {
    && e.Store? && e.index < |r.updates| && r.updates[e.index].passed
    && r.state.built.Some? && !r.state.closing
  }

  /** A check made at the moment of the store, by a router in its final mode, would let the update pass. */
  predicate StoreFits(r: Racing, e: Event) {
    StoresInUse(r, e) ==>
      var s, u := r.state, r.updates[e.index];
      Gate(s.(started := true, legacyMode := s.built.value), u.tag, u.metadata).Ok?
  }

  lemma StepKeepsSound(r: Racing, e: Event)
    requires Sound(r.state)
    ensures Sound(Step(r, e).state) <==> StoreFits(r, e)
  {
    var s := r.state;
    if StoresInUse(r, e) {
      var u := r.updates[e.index];
      var final := s.(started := true, legacyMode := s.built.value);
      if s.built.value { GateInLegacyMode(final, u.tag, u.metadata); } else { GateInNewMode(final, u.tag, u.metadata); }
    } else if e.Build? {
      ModeIsDecidedByNodes(Some(s.ruleSets), s.rules, map[]);
    }
  }

  /** At every point of the run. */
  ghost predicate AlwaysSound(r: Racing, events: seq<Event>) {
    Sound(Run(r, events).state) && (events != [] ==> AlwaysSound(r, events[..|events| - 1]))
  }

  ghost predicate StoresFit(r: Racing, events: seq<Event>) {
    events != [] ==>
      && StoresFit(r, events[..|events| - 1])
      && StoreFits(Run(r, events[..|events| - 1]), events[|events| - 1])
  }

  /**
    What a racing store does: the metadata in force always suit the running
    mode if and only if every store would pass a check made at its own moment.
   */
  lemma {:induction false} SoundIffStoresFit(r: Racing, events: seq<Event>)
    requires Unstarted(r)
    ensures AlwaysSound(r, events) <==> StoresFit(r, events)
  {
    if events != [] {
      var front, e := events[..|events| - 1], events[|events| - 1];
      SoundIffStoresFit(r, front);
      if AlwaysSound(r, front) { StepKeepsSound(Run(r, front), e); }
    }
  }

  /**
    The update read its flags after the publish, and no other rule-set has
    changed between its check and its store.
   */
  predicate Undisturbed(r: Racing, e: Event) {
    StoresInUse(r, e) ==>
      var u := r.updates[e.index];
      u.started && u.seen[u.tag := u.metadata] == r.state.ruleSets[u.tag := u.metadata]
  }

  ghost predicate AllUndisturbed(r: Racing, events: seq<Event>) {
    events != [] ==>
      && AllUndisturbed(r, events[..|events| - 1])
      && Undisturbed(Run(r, events[..|events| - 1]), events[|events| - 1])
  }

  /** The check that an undisturbed update has passed is one made at its store. */
  lemma UndisturbedFits(r: Racing, e: Event)
    requires Inv(r) && Undisturbed(r, e)
    ensures StoreFits(r, e)
  {
    if StoresInUse(r, e) {
      var s, u := r.state, r.updates[e.index];
      assert UpdateAgrees(s, u);
      var checked := s.(ruleSets := u.seen);
      if s.legacyMode {
        GateInLegacyMode(checked, u.tag, u.metadata);
        GateInLegacyMode(s, u.tag, u.metadata);
      } else {
        GateInNewMode(checked, u.tag, u.metadata);
        GateInNewMode(s, u.tag, u.metadata);
      }
    }
  }

  /**
    The gate does its work: in every run in which each update is checked by
    the started router and stored before another rule-set changes, the
    metadata in force always suit the running mode.
   */
  lemma {:induction false} RunKeepsMode(r: Racing, events: seq<Event>)
    requires Unstarted(r) && AllUndisturbed(r, events)
    ensures AlwaysSound(r, events)
  {
    if events != [] {
      var front, e := events[..|events| - 1], events[|events| - 1];
      RunKeepsMode(r, front);
      RunKeepsInv(r, front);
      UndisturbedFits(Run(r, front), e);
      StepKeepsSound(Run(r, front), e);
    }
  }

  /** The event does not store an update that read its flags before the publish and is harmful. */
  ghost predicate EarlyStoreHarmless(r: Racing, e: Event) {
    StoresInUse(r, e) && !r.updates[e.index].started ==>
      Harmless(r.state.rules, r.updates[e.index].tag, r.updates[e.index].metadata)
  }

  ghost predicate EarlyStoresHarmless(r: Racing, events: seq<Event>) {
    events != [] ==>
      && EarlyStoresHarmless(r, events[..|events| - 1])
      && EarlyStoreHarmless(Run(r, events[..|events| - 1]), events[|events| - 1])
  }

  lemma LegacyStore(r: Racing, e: Event)
    requires Inv(r) && Sound(r.state) && r.state.built != Some(false)
    ensures StoreFits(r, e) <==> EarlyStoreHarmless(r, e)
  {
    if StoresInUse(r, e) {
      var s, u := r.state, r.updates[e.index];
      assert UpdateAgrees(s, u);
      GateInLegacyMode(s.(started := true, legacyMode := true), u.tag, u.metadata);
      LegacyConditionIsLocal(s.rules, s.ruleSets, u.tag, u.metadata);
    }
  }

  /**
    A router of the legacy mode never holds disabling metadata, in every run,
    if and only if no update that entered before the publish and is stored
    after the build is harmful; later updates need no such condition, in
    whatever order they are checked and stored.
   */
  lemma {:induction false} LegacySurvivesRaces(r: Racing, events: seq<Event>)
    requires Unstarted(r) && Run(r, events).state.built != Some(false)
    ensures AlwaysSound(r, events) <==> EarlyStoresHarmless(r, events)
  {
    if events != [] {
      var front, e := events[..|events| - 1], events[|events| - 1];
      LegacySurvivesRaces(r, front);
      if AlwaysSound(r, front) {
        RunKeepsInv(r, front);
        StepKeepsSound(Run(r, front), e);
        LegacyStore(Run(r, front), e);
      }
    }
  }

  const PLAIN_SETTINGS := RouteSettings("dns", AsIs, false, false, None, 0, None)
  const PLAIN_ACTION := RuleAction(Route, PLAIN_SETTINGS, PLAIN_SETTINGS, RejectDefault)
  const TWO_SETS_RULE :=
    Default(DefaultRule(false, false, 0, 0, 0, 0, false, false, 0, 0, ["a", "b"], false, false, PLAIN_ACTION))
  const DOMAINS := Metadata(false, false, true)
  const QUERY_TYPES := Metadata(false, true, true)
  const MIXED := Metadata(true, false, true)

  lemma Extend(r: Racing, events: seq<Event>, e: Event) returns (longer: seq<Event>)
    ensures Run(r, longer) == Step(Run(r, events), e)
  {
    longer := events + [e];
    assert longer[..|events|] == events;
  }

  /** A rule-set with new content reads the flags and passes its check. */
  lemma ReadAndCheck(r: Racing, events: seq<Event>, u: Update) returns (longer: seq<Event>)
    requires u.passed && u.tag in Run(r, events).state.ruleSets && u.seen == Run(r, events).state.ruleSets
    requires var s := Run(r, events).state;
             u.started == s.started && u.legacyMode == s.legacyMode && u.closing == s.closing && CheckOf(s, u).Ok?
    ensures Run(r, longer) == Run(r, events).(updates := Run(r, events).updates + [u])
  {
    var m := Run(r, events);
    longer := Extend(r, events, Read(u.tag, u.metadata));
    assert (m.updates + [u.(passed := false, seen := map[])])[|m.updates| := u] == m.updates + [u];
    longer := Extend(r, longer, Check(|m.updates|));
  }

  lemma BuildAndPublish(r: Racing, events: seq<Event>, legacy: bool) returns (longer: seq<Event>)
    requires var s := Run(r, events).state;
             && s.built.None? && !s.started && !s.closing && Builds(s.rules, s.ruleSets)
             && ResolveMode(Some(s.ruleSets), s.rules, map[]).value.0 == legacy
    ensures var m := Run(r, events);
            Run(r, longer) == m.(state := m.state.(built := Some(legacy), started := true, legacyMode := legacy))
  {
    longer := Extend(r, events, Build);
    longer := Extend(r, longer, Publish);
  }

  lemma StoreFirst(r: Racing, events: seq<Event>) returns (longer: seq<Event>)
    requires Run(r, events).updates != [] && Run(r, events).updates[0].passed
    ensures var m, u := Run(r, events), Run(r, events).updates[0];
            Run(r, longer) == Racing(Stored(m.state, u.tag, u.metadata), m.updates[1..])
  {
    longer := Extend(r, events, Store(0));
  }

  /**
    Without the condition it fails in the legacy mode: "a" drops its addresses
    for query types, which passes the check of a router that is not started;
    the router then starts in the legacy mode on the old content of "a".
   */
  lemma StartRace(r: Racing) returns (events: seq<Event>)
    requires Unstarted(r) && !r.state.closing && r.state.rules == [TWO_SETS_RULE]
    requires r.state.ruleSets == map["a" := MIXED, "b" := DOMAINS]
    ensures var s := Run(r, events).state;
            s.started && s.legacyMode && !s.closing && !KeepsLegacyMode(s.rules, s.ruleSets)
  {
    var s := r.state;
    TwoSetsMode(s.ruleSets);
    TwoSetsMode(s.ruleSets["a" := QUERY_TYPES]);
    GateBeforeStart(s, "a", QUERY_TYPES);
    events := ReadAndCheck(r, [], Update("a", QUERY_TYPES, false, s.legacyMode, false, true, s.ruleSets));
    events := BuildAndPublish(r, events, true);
    events := StoreFirst(r, events);
  }

  /**
    It also fails in the new mode, between two updates of a started router:
    "a" keeps the mode by naming query types, so "b" may bring addresses; "b"
    has none, so "a" may drop its query types; both together leave a list that
    needs the legacy mode.
   */
  lemma NewModeRace(r: Racing) returns (events: seq<Event>)
    requires Unstarted(r) && !r.state.closing && r.state.rules == [TWO_SETS_RULE]
    requires r.state.ruleSets == map["a" := QUERY_TYPES, "b" := DOMAINS]
    ensures var s := Run(r, events).state;
            s.started && !s.legacyMode && !s.closing && ResolveMode(Some(s.ruleSets), s.rules, map[]).Ok?
            && ResolveMode(Some(s.ruleSets), s.rules, map[]).value.0
  {
    TwoSetsMode(r.state.ruleSets);
    events := BuildAndPublish(r, [], false);
    BothPass(Run(r, events).state);
    events := ReadAndCheck(r, events, Update("a", DOMAINS, true, false, false, true, r.state.ruleSets));
    events := ReadAndCheck(r, events, Update("b", MIXED, true, false, false, true, r.state.ruleSets));
    events := StoreFirst(r, events);
    events := StoreFirst(r, events);
    TwoSetsMode(r.state.ruleSets["a" := DOMAINS]["b" := MIXED]);
  }

  lemma BothPass(s: State)
    requires s.rules == [TWO_SETS_RULE] && s.ruleSets == map["a" := QUERY_TYPES, "b" := DOMAINS]
    requires s.started && !s.legacyMode && !s.closing
    ensures Gate(s, "a", DOMAINS).Ok? && Gate(s, "b", MIXED).Ok?
  {
    TwoSetsMode(s.ruleSets["a" := DOMAINS]);
    TwoSetsMode(s.ruleSets["b" := MIXED]);
    GateInNewMode(s, "a", DOMAINS);
    GateInNewMode(s, "b", MIXED);
  }

  lemma TwoSetsMode(ruleSets: map<string, Metadata>)
    requires "a" in ruleSets && "b" in ruleSets
    requires ruleSets["a"].containsNonIPCIDRRule && ruleSets["b"].containsNonIPCIDRRule
    ensures var types := ruleSets["a"].containsDNSQueryTypeRule || ruleSets["b"].containsDNSQueryTypeRule;
            var addresses := ruleSets["a"].containsIPCIDRRule || ruleSets["b"].containsIPCIDRRule;
            var mode := ResolveMode(Some(ruleSets), [TWO_SETS_RULE], map[]);
            && mode.Ok? && (mode.value.0 <==> addresses && !types)
            && Validate(Some(ruleSets), [TWO_SETS_RULE], map[], 0, false).Ok?
            && (KeepsLegacyMode([TWO_SETS_RULE], ruleSets) <==> !types)
  {
    var rules, router := [TWO_SETS_RULE], Some(ruleSets);
    var options := TWO_SETS_RULE.options;
    NodesCons(rules);
    assert rules[1..] == [] && Nodes(rules[1..]) == iset{};
    assert NodesIn(TWO_SETS_RULE) == iset{TWO_SETS_RULE};
    assert TWO_SETS_RULE in Nodes(rules);
    assert forall t :: t in options.ruleSet <==> t == "a" || t == "b";
    assert "a" in options.ruleSet && "b" in options.ruleSet;
    assert LookupMetadata(ruleSets, "a", map[]).Ok? && LookupMetadata(ruleSets, "b", map[]).Ok?;
    ModeIsDecidedByNodes(router, rules, map[]);
    AcceptedMeansEvaluateFirst(router, rules, map[]);
  }
}
