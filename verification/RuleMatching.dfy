/**
  How a rule is matched: every rule yields the set of states that its branches
  reach, a state being the groups (source and destination, address and port)
  in which something matched. Rule-sets inherit the state of the rule that
  uses them, so their groups merge with its own. The DNS rules are matched in
  three ways: by the new mode, and by the legacy mode before the query (with
  destination addresses left aside) and again with the response.
 */
module RuleMatching {
  import opened Wrappers
  import DnsInterpreter

  datatype Group = SourceAddress | SourcePort | DestinationAddress | DestinationPort

  // One bit per group.
  type State = set<Group>

  // What address items look at, beside the query: a rule-set's two switches and the response, if it is to be used.
  datatype View = View(matchSource: bool, acceptEmpty: bool, fromResponse: Option<DnsInterpreter.Msg>)

  type AddressItem = View -> bool

  // The branches are the rules of all its rule-sets.
  datatype RuleSetItem = RuleSetItem(branches: seq<Rule>, matchSource: bool, acceptEmpty: bool)

  // Items other than those of destination addresses come with their outcome for the query at hand.
  datatype Rule =
    | Default(
        sourceAddress: seq<bool>,
        sourcePort: seq<bool>,
        destinationAddress: seq<bool>,
        destinationPort: seq<bool>,
        addresses: seq<AddressItem>,
        items: seq<bool>,
        ruleSet: Option<RuleSetItem>,
        invert: bool,
        matchResponse: bool)
    | Logical(rules: seq<Rule>, conjunctive: bool, invert: bool)

  // ----- one rule of its own

  predicate AnyAddress(items: seq<AddressItem>, v: View) {
    exists i :: 0 <= i < |items| && items[i](v)
  }

  /** Destination addresses count for the source when a rule-set says so, and not at all before a legacy query. */
  predicate AddressesCount(r: Rule, v: View, ignore: bool, group: Group)
    requires r.Default?
  {
    !ignore && |r.addresses| > 0 && group == if v.matchSource then SourceAddress else DestinationAddress
  }

  function ItemsOf(r: Rule, group: Group): seq<bool>
    requires r.Default?
  {
    match group
    case SourceAddress => r.sourceAddress
    case SourcePort => r.sourcePort
    case DestinationAddress => r.destinationAddress
    case DestinationPort => r.destinationPort
  }

  /** The groups that the rule has a condition in. */
  function Required(r: Rule, v: View, ignore: bool): State
    requires r.Default?
  {
    set g: Group | ItemsOf(r, g) != [] || AddressesCount(r, v, ignore, g)
  }

  /** The groups in which one of its items matches. */
  function Matched(r: Rule, v: View, ignore: bool): State
    requires r.Default?
  {
    set g: Group | true in ItemsOf(r, g) || (AddressesCount(r, v, ignore, g) && AnyAddress(r.addresses, v))
  }

  predicate HasConditions(r: Rule)
    requires r.Default?
  {
    HasOtherConditions(r) || |r.addresses| > 0
  }

  predicate HasOtherConditions(r: Rule)
    requires r.Default?
  {
    r.sourceAddress != [] || r.sourcePort != [] || r.destinationAddress != [] || r.destinationPort != []
    || r.items != [] || r.ruleSet.Some?
  }

  // ----- states of a rule

  function Failure(invert: bool, base: State): set<State> {
    if invert then {base} else {}
  }

  function Combine(a: set<State>, b: set<State>): set<State> {
    set x, y | x in a && y in b :: x + y
  }

  /** The states that have all the groups required. */
  function Complete(states: set<State>, required: State): set<State> {
    set s | s in states && required <= s
  }

  function InSet(v: View, s: RuleSetItem): View {
    v.(matchSource := s.matchSource, acceptEmpty := s.acceptEmpty)
  }

  function Nested(v: View): View {
    v.(matchSource := false, acceptEmpty := false)
  }

  /** The states the rule reaches from an inherited one. */
  function StatesOf(r: Rule, v: View, ignore: bool, base: State): set<State>
    decreases r, 1
  {
    var inherited := if r.invert then {} else base;
    match r
    case Default(_, _, _, _, _, _, ruleSet, invert, _) =>
      if !HasConditions(r) then {base}
      else if false in r.items then Failure(invert, base)
      else
        var own := inherited + Matched(r, v, ignore);
        var reached := match ruleSet
                       case Some(used) => UnionOf(used.branches, InSet(v, used), ignore, own)
                       case None => {own};
        var kept := Complete(reached, Required(r, v, ignore));
        if kept == {} then Failure(invert, base)
        else if invert then if ignore && !HasOtherConditions(r) then {base} else {}
        else kept
    case Logical(rules, conjunctive, invert) =>
      var reached := if conjunctive then ProductOf(rules, Nested(v), ignore, inherited)
                     else UnionOf(rules, Nested(v), ignore, inherited);
      if reached == {} then Failure(invert, base) else if invert then {} else reached
  }

  function UnionOf(rules: seq<Rule>, v: View, ignore: bool, base: State): set<State>
    decreases rules, 0
  {
    if rules == [] then {}
    else UnionOf(rules[..|rules| - 1], v, ignore, base) + StatesOf(rules[|rules| - 1], v, ignore, base)
  }

  function ProductOf(rules: seq<Rule>, v: View, ignore: bool, base: State): set<State>
    decreases rules, 0
  {
    if rules == [] then {base}
    else Combine(ProductOf(rules[..|rules| - 1], v, ignore, base), StatesOf(rules[|rules| - 1], v, ignore, base))
  }

  /** matchStatesWithBase: the groups in turn, then the items, the rule-set, and what is still missing. */
  method MatchStates(r: Rule, v: View, ignore: bool, base: State) returns (states: set<State>)
    ensures states == StatesOf(r, v, ignore, base)
    decreases r, 1
  {
    var inherited := if r.invert then {} else base;
    match r
    case Default(_, _, _, _, _, _, _, _, _) =>
      if !HasConditions(r) { return {base}; }
      var own := OwnState(r, v, ignore, inherited);
      if false in r.items { return Failure(r.invert, base); }
      var reached := {own};
      if r.ruleSet.Some? {
        reached := MatchAny(r.ruleSet.value.branches, InSet(v, r.ruleSet.value), ignore, own);
      }
      var kept := Complete(reached, Required(r, v, ignore));
      if kept == {} { return Failure(r.invert, base); }
      if r.invert { return if ignore && !HasOtherConditions(r) then {base} else {}; }
      return kept;
    case Logical(_, _, _) =>
      var reached;
      if r.conjunctive {
        reached := MatchAll(r.rules, Nested(v), ignore, inherited);
      } else {
        reached := MatchAny(r.rules, Nested(v), ignore, inherited);
      }
      if reached == {} { return Failure(r.invert, base); }
      return if r.invert then {} else reached;
  }

  method OwnState(r: Rule, v: View, ignore: bool, inherited: State) returns (state: State)
    requires r.Default?
    ensures state == inherited + Matched(r, v, ignore)
  {
    var address := AddressMatches(r.addresses, v);
    state := inherited + Bit(SourceAddress, true in r.sourceAddress);
    state := state + Bit(SourceAddress, AddressesCount(r, v, ignore, SourceAddress) && address);
    state := state + Bit(SourcePort, true in r.sourcePort);
    state := state + Bit(DestinationAddress, true in r.destinationAddress);
    state := state + Bit(DestinationAddress, AddressesCount(r, v, ignore, DestinationAddress) && address);
    state := state + Bit(DestinationPort, true in r.destinationPort);
    MatchedBits(r, v, ignore);
  }

  function Bit(g: Group, on: bool): (s: State)
    ensures forall h :: h in s <==> h == g && on
  {
    if on then {g} else {}
  }

  lemma MatchedBits(r: Rule, v: View, ignore: bool)
    requires r.Default?
    ensures var address := AnyAddress(r.addresses, v);
            Matched(r, v, ignore)
            == Bit(SourceAddress, true in r.sourceAddress)
             + Bit(SourceAddress, AddressesCount(r, v, ignore, SourceAddress) && address)
             + Bit(SourcePort, true in r.sourcePort)
             + Bit(DestinationAddress, true in r.destinationAddress)
             + Bit(DestinationAddress, AddressesCount(r, v, ignore, DestinationAddress) && address)
             + Bit(DestinationPort, true in r.destinationPort)
  {
  }

  method AddressMatches(items: seq<AddressItem>, v: View) returns (found: bool)
    ensures found == AnyAddress(items, v)
  {
    for i := 0 to |items|
      invariant forall j :: 0 <= j < i ==> !items[j](v)
    {
      if items[i](v) { return true; }
    }
    return false;
  }

  method MatchAny(rules: seq<Rule>, v: View, ignore: bool, base: State) returns (states: set<State>)
    ensures states == UnionOf(rules, v, ignore, base)
    decreases rules, 0
  {
    states := {};
    for i := 0 to |rules|
      invariant states == UnionOf(rules[..i], v, ignore, base)
    {
      assert rules[..i + 1][..i] == rules[..i];
      var more := MatchStates(rules[i], v, ignore, base);
      states := states + more;
    }
    assert rules[..|rules|] == rules;
  }

  /** Stops at the first rule that reaches nothing. */
  method MatchAll(rules: seq<Rule>, v: View, ignore: bool, base: State) returns (states: set<State>)
    ensures states == ProductOf(rules, v, ignore, base)
    decreases rules, 0
  {
    states := {base};
    for i := 0 to |rules|
      invariant states == ProductOf(rules[..i], v, ignore, base)
    {
      assert rules[..i + 1][..i] == rules[..i];
      var more := MatchStates(rules[i], v, ignore, base);
      if more == {} {
        ProductFails(rules, v, ignore, base, i);
        return {};
      }
      states := Combine(states, more);
    }
    assert rules[..|rules|] == rules;
  }

  lemma {:induction false} ProductFails(rules: seq<Rule>, v: View, ignore: bool, base: State, i: nat)
    requires i < |rules| && StatesOf(rules[i], v, ignore, base) == {}
    ensures ProductOf(rules, v, ignore, base) == {}
  {
    var front := rules[..|rules| - 1];
    if i < |front| { ProductFails(front, v, ignore, base, i); }
  }

  // ----- the inherited state is never lost

  lemma {:induction false} BaseIsKept(r: Rule, v: View, ignore: bool, base: State)
    ensures forall s :: s in StatesOf(r, v, ignore, base) ==> base <= s
    decreases r, 1
  {
    match r
    case Default(_, _, _, _, _, _, ruleSet, invert, _) =>
      if ruleSet.Some? && !invert {
        var own := base + Matched(r, v, ignore);
        UnionKeepsBase(ruleSet.value.branches, InSet(v, ruleSet.value), ignore, own);
      }
    case Logical(rules, conjunctive, invert) =>
      if !invert {
        ProductKeepsBase(rules, Nested(v), ignore, base);
        UnionKeepsBase(rules, Nested(v), ignore, base);
      }
  }

  lemma {:induction false} UnionKeepsBase(rules: seq<Rule>, v: View, ignore: bool, base: State)
    ensures forall s :: s in UnionOf(rules, v, ignore, base) ==> base <= s
    decreases rules, 0
  {
    if rules != [] {
      UnionKeepsBase(rules[..|rules| - 1], v, ignore, base);
      BaseIsKept(rules[|rules| - 1], v, ignore, base);
    }
  }

  lemma {:induction false} ProductKeepsBase(rules: seq<Rule>, v: View, ignore: bool, base: State)
    ensures forall s :: s in ProductOf(rules, v, ignore, base) ==> base <= s
    decreases rules, 0
  {
    if rules != [] {
      ProductKeepsBase(rules[..|rules| - 1], v, ignore, base);
      BaseIsKept(rules[|rules| - 1], v, ignore, base);
    }
  }

  // ----- what a match means

  lemma {:induction false} UnionMember(rules: seq<Rule>, v: View, ignore: bool, base: State, s: State)
    ensures s in UnionOf(rules, v, ignore, base)
            <==> exists i :: 0 <= i < |rules| && s in StatesOf(rules[i], v, ignore, base)
  {
    if rules != [] {
      var front := rules[..|rules| - 1];
      UnionMember(front, v, ignore, base, s);
      assert forall i :: 0 <= i < |front| ==> front[i] == rules[i];
    }
  }

  lemma CombineEmpty(a: set<State>, b: set<State>)
    ensures Combine(a, b) == {} <==> a == {} || b == {}
  {
    if a != {} && b != {} {
      var x :| x in a;
      var y :| y in b;
      assert x + y in Combine(a, b);
    }
  }

  lemma {:induction false} ProductEmpty(rules: seq<Rule>, v: View, ignore: bool, base: State)
    ensures ProductOf(rules, v, ignore, base) == {}
            <==> exists i :: 0 <= i < |rules| && StatesOf(rules[i], v, ignore, base) == {}
  {
    if rules != [] {
      var front := rules[..|rules| - 1];
      ProductEmpty(front, v, ignore, base);
      CombineEmpty(ProductOf(front, v, ignore, base), StatesOf(rules[|rules| - 1], v, ignore, base));
      assert forall i :: 0 <= i < |front| ==> front[i] == rules[i];
    }
  }

  /** The states of one pick from each of the rules, put together with the inherited one. */
  ghost function Together(base: State, picks: seq<State>): State {
    if picks == [] then base else Together(base, picks[..|picks| - 1]) + picks[|picks| - 1]
  }

  ghost predicate PicksFrom(rules: seq<Rule>, v: View, ignore: bool, base: State, picks: seq<State>) {
    |picks| == |rules| && forall i :: 0 <= i < |rules| ==> picks[i] in StatesOf(rules[i], v, ignore, base)
  }

  lemma {:induction false} PicksOf(rules: seq<Rule>, v: View, ignore: bool, base: State, s: State)
    returns (picks: seq<State>)
    requires s in ProductOf(rules, v, ignore, base)
    ensures PicksFrom(rules, v, ignore, base, picks) && s == Together(base, picks)
  {
    if rules == [] {
      picks := [];
    } else {
      var front, last := rules[..|rules| - 1], rules[|rules| - 1];
      var x, y :| x in ProductOf(front, v, ignore, base) && y in StatesOf(last, v, ignore, base) && s == x + y;
      var earlier := PicksOf(front, v, ignore, base, x);
      picks := earlier + [y];
      assert picks[..|picks| - 1] == earlier;
      forall i | 0 <= i < |rules| ensures picks[i] in StatesOf(rules[i], v, ignore, base) {
        if i < |front| { assert picks[i] == earlier[i] && front[i] == rules[i]; }
      }
    }
  }

  lemma {:induction false} PicksReach(rules: seq<Rule>, v: View, ignore: bool, base: State, picks: seq<State>)
    requires PicksFrom(rules, v, ignore, base, picks)
    ensures Together(base, picks) in ProductOf(rules, v, ignore, base)
  {
    if rules != [] {
      var front, earlier := rules[..|rules| - 1], picks[..|picks| - 1];
      forall i | 0 <= i < |front| ensures earlier[i] in StatesOf(front[i], v, ignore, base) {
        assert earlier[i] == picks[i] && front[i] == rules[i];
      }
      PicksReach(front, v, ignore, base, earlier);
      assert picks[|picks| - 1] in StatesOf(rules[|rules| - 1], v, ignore, base);
    }
  }

  /** A conjunction reaches exactly the states that put one state of each of its rules together. */
  lemma ProductMember(rules: seq<Rule>, v: View, ignore: bool, base: State, s: State)
    ensures s in ProductOf(rules, v, ignore, base)
            <==> exists picks :: PicksFrom(rules, v, ignore, base, picks) && s == Together(base, picks)
  {
    if s in ProductOf(rules, v, ignore, base) {
      var picks := PicksOf(rules, v, ignore, base, s);
    }
    if picks :| PicksFrom(rules, v, ignore, base, picks) && s == Together(base, picks) {
      PicksReach(rules, v, ignore, base, picks);
    }
  }

  /** Rules that are inverted, or have no conditions, add nothing to the inherited state. */
  lemma AddsNothing(r: Rule, v: View, ignore: bool, base: State)
    requires r.invert || (r.Default? && !HasConditions(r))
    ensures StatesOf(r, v, ignore, base) <= {base}
    ensures r.Default? && !HasConditions(r) ==> StatesOf(r, v, ignore, base) == {base}
  {
  }

  /** No rule-set is used anywhere in the tree. */
  predicate Plain(r: Rule) {
    match r
    case Default(_, _, _, _, _, _, ruleSet, _, _) => ruleSet.None?
    case Logical(rules, _, _) => forall i :: 0 <= i < |rules| ==> Plain(rules[i])
  }

  /** The Boolean reading: in each group one item, inherited or matching; all other items; and, or, not. */
  predicate Holds(r: Rule, v: View, ignore: bool, base: State)
    decreases r
  {
    var inherited := if r.invert then {} else base;
    match r
    case Default(_, _, _, _, _, items, _, invert, _) =>
      var inner := false !in items && Required(r, v, ignore) <= inherited + Matched(r, v, ignore);
      if !HasConditions(r) then true
      else if invert then !inner || (ignore && !HasOtherConditions(r))
      else inner
    case Logical(rules, conjunctive, invert) =>
      invert != if conjunctive then forall i :: 0 <= i < |rules| ==> Holds(rules[i], Nested(v), ignore, inherited)
                else exists i :: 0 <= i < |rules| && Holds(rules[i], Nested(v), ignore, inherited)
  }

  /** For rules without rule-sets the states are a detour. */
  lemma {:induction false} PlainMatchIsBoolean(r: Rule, v: View, ignore: bool, base: State)
    requires Plain(r)
    ensures StatesOf(r, v, ignore, base) != {} <==> Holds(r, v, ignore, base)
    decreases r
  {
    match r
    case Default(_, _, _, _, _, _, _, _, _) => DefaultIsBoolean(r, v, ignore, base);
    case Logical(rules, conjunctive, invert) =>
      var inherited := if invert then {} else base;
      forall i | 0 <= i < |rules|
        ensures StatesOf(rules[i], Nested(v), ignore, inherited) != {}
                <==> Holds(rules[i], Nested(v), ignore, inherited)
      {
        PlainMatchIsBoolean(rules[i], Nested(v), ignore, inherited);
      }
      ProductEmpty(rules, Nested(v), ignore, inherited);
      UnionEmpty(rules, Nested(v), ignore, inherited);
  }

  lemma CompleteSingle(own: State, required: State)
    ensures Complete({own}, required) == if required <= own then {own} else {}
  {
  }

  lemma DefaultIsBoolean(r: Rule, v: View, ignore: bool, base: State)
    requires r.Default? && r.ruleSet.None?
    ensures StatesOf(r, v, ignore, base) != {} <==> Holds(r, v, ignore, base)
  {
    var own := (if r.invert then {} else base) + Matched(r, v, ignore);
    CompleteSingle(own, Required(r, v, ignore));
  }

  lemma UnionEmpty(rules: seq<Rule>, v: View, ignore: bool, base: State)
    ensures UnionOf(rules, v, ignore, base) == {}
            <==> forall i :: 0 <= i < |rules| ==> StatesOf(rules[i], v, ignore, base) == {}
  {
    forall s ensures s in UnionOf(rules, v, ignore, base)
                     <==> exists i :: 0 <= i < |rules| && s in StatesOf(rules[i], v, ignore, base) {
      UnionMember(rules, v, ignore, base, s);
    }
    forall i | 0 <= i < |rules| && StatesOf(rules[i], v, ignore, base) != {}
      ensures UnionOf(rules, v, ignore, base) != {}
    {
      var s :| s in StatesOf(rules[i], v, ignore, base);
      assert s in UnionOf(rules, v, ignore, base);
    }
  }

  // ----- rule-sets merge their groups with those of the rule that uses them

  /** A rule of a rule-set that is a list of conditions. */
  predicate Simple(r: Rule) {
    r.Default? && !r.invert && r.ruleSet.None? && HasConditions(r)
  }

  /** Rule and branch together: all items of both, and in every group that either has, one item of either. */
  predicate Fits(r: Rule, b: Rule, v: View, ignore: bool, base: State)
    requires r.Default? && r.ruleSet.Some?
  {
    var inner := InSet(v, r.ruleSet.value);
    && b.Default? && false !in r.items && false !in b.items
    && Required(r, v, ignore) + Required(b, inner, ignore) <= base + Matched(r, v, ignore) + Matched(b, inner, ignore)
  }

  predicate SomeBranchFits(r: Rule, v: View, ignore: bool, base: State)
    requires r.Default? && r.ruleSet.Some?
  {
    exists i :: 0 <= i < |r.ruleSet.value.branches| && Fits(r, r.ruleSet.value.branches[i], v, ignore, base)
  }

  predicate UsesSimpleSet(r: Rule) {
    && r.Default? && !r.invert && r.ruleSet.Some?
    && forall i :: 0 <= i < |r.ruleSet.value.branches| ==> Simple(r.ruleSet.value.branches[i])
  }

  lemma SimpleStates(b: Rule, v: View, ignore: bool, base: State)
    requires Simple(b)
    ensures StatesOf(b, v, ignore, base)
            == if false !in b.items && Required(b, v, ignore) <= base + Matched(b, v, ignore)
               then {base + Matched(b, v, ignore)} else {}
  {
    CompleteSingle(base + Matched(b, v, ignore), Required(b, v, ignore));
  }

  /** The branch reaches a state that completes the rule. */
  ghost predicate BranchCompletes(r: Rule, b: Rule, v: View, ignore: bool, base: State)
    requires r.Default? && r.ruleSet.Some?
  {
    exists s :: s in StatesOf(b, InSet(v, r.ruleSet.value), ignore, base + Matched(r, v, ignore))
                && Required(r, v, ignore) <= s
  }

  lemma BranchFits(r: Rule, b: Rule, v: View, ignore: bool, base: State)
    requires r.Default? && r.ruleSet.Some? && Simple(b)
    ensures Fits(r, b, v, ignore, base) <==> false !in r.items && BranchCompletes(r, b, v, ignore, base)
  {
    var inner, own := InSet(v, r.ruleSet.value), base + Matched(r, v, ignore);
    SimpleStates(b, inner, ignore, own);
    var reached := own + Matched(b, inner, ignore);
    assert Required(b, inner, ignore) <= reached && Required(r, v, ignore) <= reached
           <==> Required(r, v, ignore) + Required(b, inner, ignore) <= reached;
  }

  lemma SetCompletes(r: Rule, v: View, ignore: bool, base: State)
    requires r.Default? && !r.invert && r.ruleSet.Some?
    ensures StatesOf(r, v, ignore, base) != {}
            <==> && false !in r.items
                 && exists i :: 0 <= i < |r.ruleSet.value.branches|
                                && BranchCompletes(r, r.ruleSet.value.branches[i], v, ignore, base)
  {
    var branches, inner := r.ruleSet.value.branches, InSet(v, r.ruleSet.value);
    var own, required := base + Matched(r, v, ignore), Required(r, v, ignore);
    var kept := Complete(UnionOf(branches, inner, ignore, own), required);
    if i :| 0 <= i < |branches| && BranchCompletes(r, branches[i], v, ignore, base) {
      var s :| s in StatesOf(branches[i], inner, ignore, own) && required <= s;
      UnionMember(branches, inner, ignore, own, s);
      assert s in kept;
    }
    if s :| s in kept {
      UnionMember(branches, inner, ignore, own, s);
      var i :| 0 <= i < |branches| && s in StatesOf(branches[i], inner, ignore, own);
      assert BranchCompletes(r, branches[i], v, ignore, base);
    }
  }

  /** A rule with a rule-set matches exactly when one of the set's rules fits with it, their groups merged. */
  lemma MergedGroups(r: Rule, v: View, ignore: bool, base: State)
    requires UsesSimpleSet(r)
    ensures StatesOf(r, v, ignore, base) != {} <==> SomeBranchFits(r, v, ignore, base)
  {
    SetCompletes(r, v, ignore, base);
    var branches := r.ruleSet.value.branches;
    forall i | 0 <= i < |branches|
      ensures Fits(r, branches[i], v, ignore, base)
              <==> false !in r.items && BranchCompletes(r, branches[i], v, ignore, base)
    {
      BranchFits(r, branches[i], v, ignore, base);
    }
  }

  /** One group of rule and branch: no condition in it, or one that matches. */
  predicate GroupFits(r: Rule, b: Rule, v: View, ignore: bool, g: Group)
    requires r.Default? && r.ruleSet.Some? && b.Default?
  {
    var inner, own := InSet(v, r.ruleSet.value), ItemsOf(r, g) + ItemsOf(b, g);
    var first, second := AddressesCount(r, v, ignore, g), AddressesCount(b, inner, ignore, g);
    || (own == [] && !first && !second) || true in own
    || (first && AnyAddress(r.addresses, v)) || (second && AnyAddress(b.addresses, inner))
  }

  lemma GroupFitsMeans(r: Rule, b: Rule, v: View, ignore: bool, g: Group)
    requires r.Default? && r.ruleSet.Some? && b.Default?
    ensures var inner := InSet(v, r.ruleSet.value);
            GroupFits(r, b, v, ignore, g)
            <==> (g in Required(r, v, ignore) + Required(b, inner, ignore) ==>
                    g in Matched(r, v, ignore) + Matched(b, inner, ignore))
  {
  }

  lemma SubsetByGroups(required: State, matched: State)
    ensures required <= matched <==>
              && (SourceAddress in required ==> SourceAddress in matched)
              && (SourcePort in required ==> SourcePort in matched)
              && (DestinationAddress in required ==> DestinationAddress in matched)
              && (DestinationPort in required ==> DestinationPort in matched)
  {
    if !(required <= matched) {
      var g :| g in required && g !in matched;
      match g
      case SourceAddress =>
      case SourcePort =>
      case DestinationAddress =>
      case DestinationPort =>
    }
  }

  lemma FitsByGroups(r: Rule, b: Rule, v: View, ignore: bool)
    requires r.Default? && r.ruleSet.Some? && b.Default?
    ensures Fits(r, b, v, ignore, {})
            <==> && false !in r.items && false !in b.items
                 && GroupFits(r, b, v, ignore, SourceAddress) && GroupFits(r, b, v, ignore, SourcePort)
                 && GroupFits(r, b, v, ignore, DestinationAddress) && GroupFits(r, b, v, ignore, DestinationPort)
  {
    var inner := InSet(v, r.ruleSet.value);
    GroupFitsMeans(r, b, v, ignore, SourceAddress);
    GroupFitsMeans(r, b, v, ignore, SourcePort);
    GroupFitsMeans(r, b, v, ignore, DestinationAddress);
    GroupFitsMeans(r, b, v, ignore, DestinationPort);
    var matched := Matched(r, v, ignore) + Matched(b, inner, ignore);
    assert {} + Matched(r, v, ignore) + Matched(b, inner, ignore) == matched;
    SubsetByGroups(Required(r, v, ignore) + Required(b, inner, ignore), matched);
  }

  // ----- the three ways to match a DNS rule

  /** matchStatesForMatch: a rule on the response reads the one at hand, and fails without one. */
  function NewStates(r: Rule, response: Option<DnsInterpreter.Msg>): set<State>
    decreases r, 1
  {
    match r
    case Default(_, _, _, _, _, _, _, invert, matchResponse) =>
      if matchResponse then
        if response.None? then Failure(invert, {}) else StatesOf(r, View(false, false, response), false, {})
      else StatesOf(r, View(false, false, None), false, {})
    case Logical(rules, conjunctive, invert) =>
      var reached := if conjunctive then NewProduct(rules, response) else NewUnion(rules, response);
      if reached == {} then Failure(invert, {}) else if invert then {} else reached
  }

  function NewUnion(rules: seq<Rule>, response: Option<DnsInterpreter.Msg>): set<State>
    decreases rules, 0
  {
    if rules == [] then {} else NewUnion(rules[..|rules| - 1], response) + NewStates(rules[|rules| - 1], response)
  }

  function NewProduct(rules: seq<Rule>, response: Option<DnsInterpreter.Msg>): set<State>
    decreases rules, 0
  {
    if rules == [] then {{}}
    else Combine(NewProduct(rules[..|rules| - 1], response), NewStates(rules[|rules| - 1], response))
  }

  method MatchStatesForMatch(r: Rule, response: Option<DnsInterpreter.Msg>) returns (states: set<State>)
    ensures states == NewStates(r, response)
    // a rule on the response is matched with it, and has failed without one
    ensures r.Default? && r.matchResponse && response.Some? ==> (states != {} <==> MatchesLimit(r, response.value))
    ensures r.Default? && r.matchResponse && response.None? ==> (states != {} <==> r.invert)
    decreases r, 1
  {
    match r
    case Default(_, _, _, _, _, _, _, _, _) =>
      if r.matchResponse {
        if response.None? { return Failure(r.invert, {}); }
        states := MatchStates(r, View(false, false, response), false, {});
      } else {
        states := MatchStates(r, View(false, false, None), false, {});
      }
    case Logical(_, _, _) =>
      if r.conjunctive {
        states := MatchAllForMatch(r.rules, response);
      } else {
        states := MatchAnyForMatch(r.rules, response);
      }
      if states == {} { return Failure(r.invert, {}); }
      if r.invert { return {}; }
  }

  method MatchAnyForMatch(rules: seq<Rule>, response: Option<DnsInterpreter.Msg>) returns (states: set<State>)
    ensures states == NewUnion(rules, response)
    decreases rules, 0
  {
    states := {};
    for i := 0 to |rules|
      invariant states == NewUnion(rules[..i], response)
    {
      assert rules[..i + 1][..i] == rules[..i];
      var more := MatchStatesForMatch(rules[i], response);
      states := states + more;
    }
    assert rules[..|rules|] == rules;
  }

  method MatchAllForMatch(rules: seq<Rule>, response: Option<DnsInterpreter.Msg>) returns (states: set<State>)
    ensures states == NewProduct(rules, response)
    decreases rules, 0
  {
    states := {{}};
    for i := 0 to |rules|
      invariant states == NewProduct(rules[..i], response)
    {
      assert rules[..i + 1][..i] == rules[..i];
      var more := MatchStatesForMatch(rules[i], response);
      if more == {} {
        NewProductFails(rules, response, i);
        return {};
      }
      states := Combine(states, more);
    }
    assert rules[..|rules|] == rules;
  }

  lemma {:induction false} NewProductFails(rules: seq<Rule>, response: Option<DnsInterpreter.Msg>, i: nat)
    requires i < |rules| && NewStates(rules[i], response) == {}
    ensures NewProduct(rules, response) == {}
  {
    var front := rules[..|rules| - 1];
    if i < |front| { NewProductFails(front, response, i); }
  }

  /** Match, of the new mode, with the response of the latest evaluate. */
  predicate Matches(r: Rule, response: Option<DnsInterpreter.Msg>) {
    NewStates(r, response) != {}
  }

  /** LegacyPreMatch, before the query is sent. */
  predicate PreMatches(r: Rule) {
    !(r.Default? && r.matchResponse) && StatesOf(r, View(false, false, None), true, {}) != {}
  }

  /** MatchAddressLimit, with the response to the query. */
  predicate MatchesLimit(r: Rule, response: DnsInterpreter.Msg) {
    StatesOf(r, View(false, false, Some(response)), false, {}) != {}
  }

  ghost predicate HasAddresses(r: Rule) {
    match r
    case Default(_, _, _, _, addresses, _, ruleSet, _, _) =>
      |addresses| > 0 || (ruleSet.Some? && exists b :: b in ruleSet.value.branches && HasAddresses(b))
    case Logical(rules, _, _) => exists b :: b in rules && HasAddresses(b)
  }

  /** WithAddressLimit: the response is checked, and other than address queries skip the rule. */
  ghost predicate AddressLimit(r: Rule) {
    match r
    case Default(_, _, _, _, addresses, _, ruleSet, _, _) =>
      || |addresses| > 0
      || (ruleSet.Some? && !ruleSet.value.matchSource && exists b :: b in ruleSet.value.branches && HasAddresses(b))
    case Logical(rules, _, _) => exists b :: b in rules && AddressLimit(b)
  }

  /** Some rule-set that holds addresses is to be matched against the source. */
  ghost predicate SourceSetHasAddresses(r: Rule) {
    match r
    case Default(_, _, _, _, _, _, ruleSet, _, _) =>
      ruleSet.Some? && ruleSet.value.matchSource && exists b :: b in ruleSet.value.branches && HasAddresses(b)
    case Logical(rules, _, _) => exists b :: b in rules && SourceSetHasAddresses(b)
  }

  ghost predicate OnResponse(r: Rule) {
    match r
    case Default(_, _, _, _, _, _, _, _, matchResponse) => matchResponse
    case Logical(rules, _, _) => exists b :: b in rules && OnResponse(b)
  }

  /** The address limit does not see the addresses of source rule-sets, and nothing else. */
  lemma {:induction false} LimitMissesSourceSets(r: Rule)
    ensures HasAddresses(r) <==> AddressLimit(r) || SourceSetHasAddresses(r)
  {
    if r.Logical? {
      forall b | b in r.rules ensures HasAddresses(b) <==> AddressLimit(b) || SourceSetHasAddresses(b) {
        LimitMissesSourceSets(b);
      }
    }
  }

  // ----- both modes match alike without addresses

  lemma {:induction false} IgnoreIsIdle(r: Rule, v: View, base: State)
    requires !HasAddresses(r)
    ensures StatesOf(r, v, true, base) == StatesOf(r, v, false, base)
    decreases r, 1
  {
    match r
    case Default(_, _, _, _, _, _, ruleSet, invert, _) =>
      assert Required(r, v, true) == Required(r, v, false) && Matched(r, v, true) == Matched(r, v, false);
      if ruleSet.Some? {
        var own := (if invert then {} else base) + Matched(r, v, false);
        IgnoreIsIdleInAll(ruleSet.value.branches, InSet(v, ruleSet.value), own);
      }
    case Logical(rules, _, invert) =>
      IgnoreIsIdleInAll(rules, Nested(v), if invert then {} else base);
  }

  lemma {:induction false} IgnoreIsIdleInAll(rules: seq<Rule>, v: View, base: State)
    requires forall b :: b in rules ==> !HasAddresses(b)
    ensures UnionOf(rules, v, true, base) == UnionOf(rules, v, false, base)
    ensures ProductOf(rules, v, true, base) == ProductOf(rules, v, false, base)
    decreases rules, 0
  {
    if rules != [] {
      IgnoreIsIdleInAll(rules[..|rules| - 1], v, base);
      IgnoreIsIdle(rules[|rules| - 1], v, base);
    }
  }

  lemma {:induction false} NewIsPlainStates(r: Rule, response: Option<DnsInterpreter.Msg>)
    requires !OnResponse(r)
    ensures NewStates(r, response) == StatesOf(r, View(false, false, None), false, {})
    decreases r, 1
  {
    if r.Logical? { NewIsPlainInAll(r.rules, response); }
  }

  lemma {:induction false} NewIsPlainInAll(rules: seq<Rule>, response: Option<DnsInterpreter.Msg>)
    requires forall b :: b in rules ==> !OnResponse(b)
    ensures NewUnion(rules, response) == UnionOf(rules, View(false, false, None), false, {})
    ensures NewProduct(rules, response) == ProductOf(rules, View(false, false, None), false, {})
    decreases rules, 0
  {
    if rules != [] {
      NewIsPlainInAll(rules[..|rules| - 1], response);
      NewIsPlainStates(rules[|rules| - 1], response);
    }
  }

  /** Rules on neither addresses nor responses are matched alike by both modes. */
  lemma ModesMatchAlike(r: Rule, response: Option<DnsInterpreter.Msg>)
    requires !AddressLimit(r) && !SourceSetHasAddresses(r) && !OnResponse(r)
    ensures PreMatches(r) <==> Matches(r, response)
  {
    LimitMissesSourceSets(r);
    NewIsPlainStates(r, response);
    IgnoreIsIdle(r, View(false, false, None), {});
  }

  // ----- what each way of matching means, item by item

  /** All conditions but those on the destination address. */
  predicate RestHolds(r: Rule)
    requires r.Default?
  {
    && false !in r.items && (r.sourceAddress == [] || true in r.sourceAddress)
    && (r.sourcePort == [] || true in r.sourcePort) && (r.destinationPort == [] || true in r.destinationPort)
  }

  lemma DefaultHolds(r: Rule, v: View, ignore: bool)
    requires r.Default? && !v.matchSource
    ensures Required(r, v, ignore) <= Matched(r, v, ignore) && false !in r.items
            <==> RestHolds(r) && ((r.destinationAddress == [] && (ignore || |r.addresses| == 0))
                                  || true in r.destinationAddress || (!ignore && AnyAddress(r.addresses, v)))
  {
    SubsetByGroups(Required(r, v, ignore), Matched(r, v, ignore));
  }

  /** The destination group: no condition in it, a matching item, or an address when these count. */
  predicate DestinationHolds(r: Rule, fromResponse: Option<DnsInterpreter.Msg>, ignore: bool)
    requires r.Default?
  {
    || (r.destinationAddress == [] && (ignore || |r.addresses| == 0)) || true in r.destinationAddress
    || (!ignore && AnyAddress(r.addresses, View(false, false, fromResponse)))
  }

  /** A rule without rule-sets: all its conditions, or inverted not all; without conditions it always matches. */
  lemma DefaultReading(r: Rule, fromResponse: Option<DnsInterpreter.Msg>, ignore: bool)
    requires r.Default? && r.ruleSet.None?
    ensures StatesOf(r, View(false, false, fromResponse), ignore, {}) != {}
            <==> || !HasConditions(r)
                 || r.invert != (RestHolds(r) && DestinationHolds(r, fromResponse, ignore))
                 || (r.invert && ignore && !HasOtherConditions(r))
  {
    DefaultIsBoolean(r, View(false, false, fromResponse), ignore, {});
    DefaultHolds(r, View(false, false, fromResponse), ignore);
  }

  /** A logical rule: all or some of its rules, or inverted not so; the switches of a rule-set do not reach them. */
  lemma LogicalReading(r: Rule, v: View, ignore: bool)
    requires r.Logical?
    ensures StatesOf(r, v, ignore, {}) != {}
            <==> var nested := View(false, false, v.fromResponse);
                 r.invert != if r.conjunctive
                             then forall b :: b in r.rules ==> StatesOf(b, nested, ignore, {}) != {}
                             else exists b :: b in r.rules && StatesOf(b, nested, ignore, {}) != {}
  {
    ProductEmpty(r.rules, Nested(v), ignore, {});
    UnionEmpty(r.rules, Nested(v), ignore, {});
  }

  /** The new mode matches a rule on the response with the response at hand, and takes it for failed without one. */
  lemma OnResponseMatches(r: Rule, response: DnsInterpreter.Msg)
    requires r.Default? && r.matchResponse
    ensures Matches(r, Some(response)) <==> MatchesLimit(r, response)
    ensures Matches(r, None) <==> r.invert
  {
  }

  /** Item by item: a rule without rule-sets in the new mode, with addresses of the response if it asks for them. */
  lemma MatchesReading(r: Rule, response: DnsInterpreter.Msg)
    requires r.Default? && r.ruleSet.None?
    ensures Matches(r, Some(response))
            <==> || !HasConditions(r)
                 || r.invert != (&& RestHolds(r)
                                 && DestinationHolds(r, if r.matchResponse then Some(response) else None, false))
  {
    DefaultReading(r, if r.matchResponse then Some(response) else None, false);
  }

  lemma {:induction false} NewUnionEmpty(rules: seq<Rule>, response: Option<DnsInterpreter.Msg>)
    ensures NewUnion(rules, response) == {} <==> forall i :: 0 <= i < |rules| ==> NewStates(rules[i], response) == {}
  {
    if rules != [] {
      var front := rules[..|rules| - 1];
      NewUnionEmpty(front, response);
      assert forall i :: 0 <= i < |front| ==> front[i] == rules[i];
    }
  }

  lemma {:induction false} NewProductEmpty(rules: seq<Rule>, response: Option<DnsInterpreter.Msg>)
    ensures NewProduct(rules, response) == {} <==> exists i :: 0 <= i < |rules| && NewStates(rules[i], response) == {}
  {
    if rules != [] {
      var front := rules[..|rules| - 1];
      NewProductEmpty(front, response);
      CombineEmpty(NewProduct(front, response), NewStates(rules[|rules| - 1], response));
      assert forall i :: 0 <= i < |front| ==> front[i] == rules[i];
    }
  }

  /** A logical rule in the new mode, each of its rules with the same response. */
  lemma LogicalMatches(r: Rule, response: Option<DnsInterpreter.Msg>)
    requires r.Logical?
    ensures Matches(r, response)
            <==> r.invert != if r.conjunctive then forall i :: 0 <= i < |r.rules| ==> Matches(r.rules[i], response)
                             else exists i :: 0 <= i < |r.rules| && Matches(r.rules[i], response)
  {
    NewUnionEmpty(r.rules, response);
    NewProductEmpty(r.rules, response);
  }

  // ----- source rule-sets in the legacy mode

  /** Rule and branch fit in everything but the source address. */
  predicate RestFits(r: Rule, b: Rule)
    requires r.Default? && b.Default?
  {
    && false !in r.items && false !in b.items
    && (r.sourcePort + b.sourcePort == [] || true in r.sourcePort + b.sourcePort)
    && (r.destinationAddress + b.destinationAddress == [] || true in r.destinationAddress + b.destinationAddress)
    && (r.destinationPort + b.destinationPort == [] || true in r.destinationPort + b.destinationPort)
  }

  /** The source addresses of both, and with them the set's own unless they are left aside. */
  predicate SourceFits(r: Rule, b: Rule, ignore: bool)
    requires r.Default? && r.ruleSet.Some? && b.Default?
  {
    var own, counted := r.sourceAddress + b.sourceAddress, !ignore && |b.addresses| > 0;
    || (own == [] && !counted) || true in own
    || (counted && AnyAddress(b.addresses, View(true, r.ruleSet.value.acceptEmpty, None)))
  }

  lemma FitsBySource(r: Rule, b: Rule, ignore: bool)
    requires r.Default? && r.addresses == [] && r.ruleSet.Some? && r.ruleSet.value.matchSource && b.Default?
    ensures Fits(r, b, View(false, false, None), ignore, {}) <==> RestFits(r, b) && SourceFits(r, b, ignore)
  {
    FitsByGroups(r, b, View(false, false, None), ignore);
  }

  ghost predicate SourceSetFits(r: Rule, ignore: bool)
    requires r.Default? && r.ruleSet.Some?
  {
    exists b :: b in r.ruleSet.value.branches && b.Default? && RestFits(r, b) && SourceFits(r, b, ignore)
  }

  /**
    A rule with a source rule-set has no address limit, and the legacy mode
    leaves the set's addresses aside without ever checking them: the modes
    differ exactly when these addresses decide.
   */
  lemma SourceSetDecides(r: Rule)
    requires UsesSimpleSet(r) && r.ruleSet.value.matchSource && r.addresses == [] && !r.matchResponse
    ensures !AddressLimit(r)
    ensures Matches(r, None) <==> SourceSetFits(r, false)
    ensures PreMatches(r) <==> SourceSetFits(r, true)
  {
    SourceSetMeans(r, false);
    SourceSetMeans(r, true);
  }

  lemma SourceSetMeans(r: Rule, ignore: bool)
    requires UsesSimpleSet(r) && r.ruleSet.value.matchSource && r.addresses == []
    ensures StatesOf(r, View(false, false, None), ignore, {}) != {} <==> SourceSetFits(r, ignore)
  {
    var branches := r.ruleSet.value.branches;
    MergedGroups(r, View(false, false, None), ignore, {});
    forall i | 0 <= i < |branches|
      ensures Fits(r, branches[i], View(false, false, None), ignore, {})
              <==> RestFits(r, branches[i]) && SourceFits(r, branches[i], ignore)
    {
      FitsBySource(r, branches[i], ignore);
    }
    if SourceSetFits(r, ignore) {
      var b :| b in branches && b.Default? && RestFits(r, b) && SourceFits(r, b, ignore);
      var i :| 0 <= i < |branches| && branches[i] == b;
      assert Fits(r, branches[i], View(false, false, None), ignore, {});
    }
  }

  /** A rule on nothing but such a set is taken by the legacy mode for every source, whatever addresses it names. */
  lemma SourceSetIgnored(r: Rule, b: Rule, outside: AddressItem)
    requires forall v :: !outside(v)
    requires b == Default([], [], [], [], [outside], [], None, false, false)
    requires r == Default([], [], [], [], [], [], Some(RuleSetItem([b], true, false)), false, false)
    ensures !AddressLimit(r) && !OnResponse(r) && PreMatches(r) && !Matches(r, None)
  {
    assert r.ruleSet.value.branches[0] == b;
    SourceSetDecides(r);
    assert b in r.ruleSet.value.branches && RestFits(r, b) && SourceFits(r, b, true);
  }

  // ----- rules that the legacy mode passes over

  /**
    The pre-match gives up a rule that the response would have matched, exactly
    when the rest of the rule holds and the addresses decide: as the only
    destination that matches, beside others that do not; or, inverted, as the
    only condition that fails.
   */
  lemma PassedOverExactly(r: Rule, response: DnsInterpreter.Msg)
    requires r.Default? && r.ruleSet.None? && !r.matchResponse
    ensures MatchesLimit(r, response) && !PreMatches(r)
            <==> && RestHolds(r) && |r.addresses| > 0
                 && var address := AnyAddress(r.addresses, View(false, false, Some(response)));
                    if r.invert then HasOtherConditions(r) && r.destinationAddress == [] && !address
                    else r.destinationAddress != [] && true !in r.destinationAddress && address
  {
    DefaultIsBoolean(r, View(false, false, Some(response)), false, {});
    DefaultIsBoolean(r, View(false, false, None), true, {});
    DefaultHolds(r, View(false, false, Some(response)), false);
    DefaultHolds(r, View(false, false, None), true);
  }

  /** Rule and branch fit in everything but the destination address. */
  predicate RestFitsBeside(r: Rule, b: Rule)
    requires r.Default? && b.Default?
  {
    && false !in r.items && false !in b.items
    && (r.sourceAddress + b.sourceAddress == [] || true in r.sourceAddress + b.sourceAddress)
    && (r.sourcePort + b.sourcePort == [] || true in r.sourcePort + b.sourcePort)
    && (r.destinationPort + b.destinationPort == [] || true in r.destinationPort + b.destinationPort)
  }

  /** The destinations of both, and with them their addresses unless these are left aside. */
  predicate DestinationFits(r: Rule, b: Rule, v: View, ignore: bool)
    requires r.Default? && r.ruleSet.Some? && b.Default?
  {
    var own, counted := r.destinationAddress + b.destinationAddress, !ignore && |r.addresses| + |b.addresses| > 0;
    || (own == [] && !counted) || true in own
    || (counted && (AnyAddress(r.addresses, v)
                    || AnyAddress(b.addresses, View(false, r.ruleSet.value.acceptEmpty, v.fromResponse))))
  }

  lemma FitsByDestination(r: Rule, b: Rule, v: View, ignore: bool)
    requires r.Default? && !v.matchSource && r.ruleSet.Some? && !r.ruleSet.value.matchSource && b.Default?
    ensures Fits(r, b, v, ignore, {}) <==> RestFitsBeside(r, b) && DestinationFits(r, b, v, ignore)
  {
    FitsByGroups(r, b, v, ignore);
  }

  ghost predicate DestinationSetFits(r: Rule, v: View, ignore: bool)
    requires r.Default? && r.ruleSet.Some?
  {
    exists b :: b in r.ruleSet.value.branches && b.Default? && RestFitsBeside(r, b) && DestinationFits(r, b, v, ignore)
  }

  lemma DestinationSetMeans(r: Rule, v: View, ignore: bool)
    requires UsesSimpleSet(r) && !r.ruleSet.value.matchSource && !v.matchSource
    ensures StatesOf(r, v, ignore, {}) != {} <==> DestinationSetFits(r, v, ignore)
  {
    var branches := r.ruleSet.value.branches;
    MergedGroups(r, v, ignore, {});
    forall i | 0 <= i < |branches|
      ensures Fits(r, branches[i], v, ignore, {})
              <==> RestFitsBeside(r, branches[i]) && DestinationFits(r, branches[i], v, ignore)
    {
      FitsByDestination(r, branches[i], v, ignore);
    }
    if DestinationSetFits(r, v, ignore) {
      var b :| b in branches && b.Default? && RestFitsBeside(r, b) && DestinationFits(r, b, v, ignore);
      var i :| 0 <= i < |branches| && branches[i] == b;
      assert Fits(r, branches[i], v, ignore, {});
    }
  }

  /** With a rule-set: the rule is passed over exactly when a branch fits by its addresses and none without them. */
  lemma SetPassedOverExactly(r: Rule, response: DnsInterpreter.Msg)
    requires UsesSimpleSet(r) && !r.ruleSet.value.matchSource && !r.matchResponse
    ensures MatchesLimit(r, response) && !PreMatches(r)
            <==> && DestinationSetFits(r, View(false, false, Some(response)), false)
                 && forall b :: b in r.ruleSet.value.branches && b.Default? && RestFitsBeside(r, b) ==>
                      r.destinationAddress + b.destinationAddress != []
                      && true !in r.destinationAddress + b.destinationAddress
  {
    DestinationSetMeans(r, View(false, false, Some(response)), false);
    DestinationSetMeans(r, View(false, false, None), true);
  }
}
