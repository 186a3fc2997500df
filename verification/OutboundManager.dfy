/**
  The outbound registry: creating, replacing and removing outbounds, the
  record of who depends on whom, and the start with its fallback outbound.
 */
module OutboundManager {
  import opened StartOrder
  import opened Wrappers

  datatype Registry = Registry(
    outbounds: seq<Item>,
    byTag: map<string, Item>,
    dependBy: map<string, seq<string>>,
    default: Option<Item>)

  const EMPTY_REGISTRY := Registry([], map[], map[], None)

  /** The list has one item per tag, and the tag map sends each tag to that item. */
  ghost predicate WellFormed(r: Registry) {
    && DistinctTags(r.outbounds)
    && r.byTag.Keys == Tags(r.outbounds)
    && Registered(r.outbounds, r.byTag)
  }

  /** Without a configured default tag, only an empty list has no default. */
  ghost predicate HasDefault(defaultTag: string, r: Registry) {
    defaultTag == "" && r.default.None? ==> r.outbounds == []
  }

  /** Every listed outbound is on record with each of its dependencies. */
  ghost predicate Recorded(r: Registry) {
    RecordedIn(r.outbounds, r.dependBy)
  }

  ghost predicate RecordedIn(items: seq<Item>, m: map<string, seq<string>>) {
    forall x, d :: x in items && d in x.dependencies ==> x.tag in Lookup(m, d)
  }

  function Lookup(m: map<string, seq<string>>, key: string): seq<string> {
    if key in m then m[key] else []
  }

  // ----- specification of the list and map updates

  function WithoutItem(items: seq<Item>, x: Item): (r: seq<Item>)
    ensures forall y :: y in r ==> y in items
  {
    if items == [] then []
    else if items[0] == x then items[1..]
    else [items[0]] + WithoutItem(items[1..], x)
  }

  function Without(tags: seq<string>, tag: string): (r: seq<string>)
    ensures forall t :: t in r <==> t in tags && t != tag
  {
    if tags == [] then []
    else if tags[0] == tag then Without(tags[1..], tag)
    else [tags[0]] + Without(tags[1..], tag)
  }

  function Record(m: map<string, seq<string>>, dependencies: seq<string>, tag: string): map<string, seq<string>> {
    if dependencies == [] then m
    else
      var n := |dependencies| - 1;
      var earlier := Record(m, dependencies[..n], tag);
      earlier[dependencies[n] := Lookup(earlier, dependencies[n]) + [tag]]
  }

  /** One round of the removal loop: a lone entry is deleted, a longer one filtered. */
  function ForgetOne(m: map<string, seq<string>>, dependency: string, tag: string): map<string, seq<string>> {
    if |Lookup(m, dependency)| == 1 then m - {dependency}
    else m[dependency := Without(Lookup(m, dependency), tag)]
  }

  function Forget(m: map<string, seq<string>>, dependencies: seq<string>, tag: string): map<string, seq<string>> {
    if dependencies == [] then m
    else
      var n := |dependencies| - 1;
      ForgetOne(Forget(m, dependencies[..n], tag), dependencies[n], tag)
  }

  /** The list without the outbound that holds the tag. */
  function Kept(r: Registry, tag: string): seq<Item> {
    if tag in r.byTag then WithoutItem(r.outbounds, r.byTag[tag]) else r.outbounds
  }

  /** The registry after `x` was created under its tag. */
  function Created(defaultTag: string, r: Registry, x: Item): Registry {
    Registry(Kept(r, x.tag) + [x], r.byTag[x.tag := x], Record(r.dependBy, x.dependencies, x.tag),
             if x.tag == defaultTag || (defaultTag == "" && r.default.None?) then Some(x) else r.default)
  }

  /** The registry after a removal of a present tag, refused for its dependents or not. */
  function Removed(r: Registry, tag: string): Registry
    requires tag in r.byTag
  {
    var x := r.byTag[tag];
    var kept := Kept(r, tag);
    Registry(kept, r.byTag - {tag},
             if Lookup(r.dependBy, tag) != [] then r.dependBy else Forget(r.dependBy, x.dependencies, tag),
             if r.default != Some(x) then r.default else if kept != [] then Some(kept[0]) else None)
  }

  function FellBack(r: Registry, direct: Item): Registry {
    Registry(r.outbounds + [direct], r.byTag[direct.tag := direct], r.dependBy, Some(direct))
  }

  // ----- the list stays a faithful image of the map

  lemma {:induction false} WithoutItemFacts(items: seq<Item>, x: Item)
    requires DistinctTags(items) && x in items
    ensures DistinctTags(WithoutItem(items, x))
    ensures forall y :: y in WithoutItem(items, x) <==> y in items && y != x
    ensures Tags(WithoutItem(items, x)) == Tags(items) - {x.tag}
  {
    var first, rest := items[0], items[1..];
    assert items == [first] + rest;
    DistinctCons(first, rest);
    if first == x {
      forall y | y in rest ensures y.tag != x.tag { assert y.tag in Tags(rest); }
    } else {
      assert x in rest;
      WithoutItemFacts(rest, x);
      var shorter := WithoutItem(rest, x);
      DistinctCons(first, shorter);
      assert x.tag in Tags(rest);
    }
  }

  lemma {:induction false} WithoutItemAt(items: seq<Item>, x: Item, index: nat)
    requires index < |items| && items[index] == x && forall j :: 0 <= j < index ==> items[j] != x
    ensures WithoutItem(items, x) == items[..index] + items[index + 1..]
  {
    if index > 0 {
      WithoutItemAt(items[1..], x, index - 1);
      assert items[..index] == [items[0]] + items[1..][..index - 1];
      assert items[index + 1..] == items[1..][index..];
    }
  }

  lemma KeptFacts(r: Registry, tag: string)
    requires WellFormed(r)
    ensures DistinctTags(Kept(r, tag)) && Tags(Kept(r, tag)) == Tags(r.outbounds) - {tag}
    ensures forall y :: y in Kept(r, tag) <==> y in r.outbounds && y.tag != tag
  {
    var kept := Kept(r, tag);
    if tag in r.byTag {
      WithoutItemFacts(r.outbounds, r.byTag[tag]);
      forall y | y in kept ensures y.tag != tag { assert y.tag in Tags(kept); }
    } else {
      forall y | y in kept ensures y.tag != tag { assert y.tag in Tags(r.outbounds); }
    }
  }

  lemma AppendDistinct(items: seq<Item>, x: Item)
    requires DistinctTags(items) && x.tag !in Tags(items)
    ensures DistinctTags(items + [x]) && Tags(items + [x]) == Tags(items) + {x.tag}
  {
  }

  lemma CreatedKeeps(defaultTag: string, r: Registry, x: Item)
    requires WellFormed(r) && HasDefault(defaultTag, r)
    ensures WellFormed(Created(defaultTag, r, x)) && HasDefault(defaultTag, Created(defaultTag, r, x))
    ensures forall y :: y in Created(defaultTag, r, x).outbounds <==> y == x || (y in r.outbounds && y.tag != x.tag)
  {
    KeptFacts(r, x.tag);
    AppendDistinct(Kept(r, x.tag), x);
    var n := Created(defaultTag, r, x);
    forall t | t in n.byTag ensures n.byTag[t].tag == t && n.byTag[t] in n.outbounds {
      if t != x.tag { assert r.byTag[t] in Kept(r, x.tag); }
    }
  }

  lemma RemovedKeeps(defaultTag: string, r: Registry, tag: string)
    requires WellFormed(r) && HasDefault(defaultTag, r) && tag in r.byTag
    ensures WellFormed(Removed(r, tag)) && HasDefault(defaultTag, Removed(r, tag))
    ensures forall y :: y in Removed(r, tag).outbounds <==> y in r.outbounds && y.tag != tag
  {
    KeptFacts(r, tag);
    var n := Removed(r, tag);
    forall t | t in n.byTag ensures n.byTag[t].tag == t && n.byTag[t] in n.outbounds {
      assert r.byTag[t] in Kept(r, tag);
    }
  }

  /** A list without one of its items, the others in their order. */
  ghost predicate CutFrom(items: seq<Item>, x: Item, rest: seq<Item>) {
    exists i :: 0 <= i < |items| && items[i] == x && rest == items[..i] + items[i + 1..]
  }

  ghost function IndexOf(items: seq<Item>, x: Item): (i: nat)
    requires x in items
    ensures i < |items| && items[i] == x && forall j :: 0 <= j < i ==> items[j] != x
  {
    if items[0] == x then 0 else 1 + IndexOf(items[1..], x)
  }

  lemma WithoutItemCuts(items: seq<Item>, x: Item)
    requires x in items
    ensures CutFrom(items, x, WithoutItem(items, x))
  {
    WithoutItemAt(items, x, IndexOf(items, x));
  }

  /**
    A creation appends the outbound, in place of the one that had its tag; it
    becomes the default if it is the configured one, or the first without a
    configured one.
   */
  lemma CreatedMeans(defaultTag: string, r: Registry, x: Item)
    requires WellFormed(r)
    ensures var n := Created(defaultTag, r, x);
            && n.outbounds != [] && n.outbounds[|n.outbounds| - 1] == x
            && (var rest := n.outbounds[..|n.outbounds| - 1];
                if x.tag in r.byTag then CutFrom(r.outbounds, r.byTag[x.tag], rest) else rest == r.outbounds)
            && (forall t :: t in n.byTag <==> t == x.tag || t in r.byTag)
            && n.byTag[x.tag] == x && (forall t :: t in r.byTag && t != x.tag ==> n.byTag[t] == r.byTag[t])
            && (defaultTag != "" && x.tag == defaultTag ==> n.default == Some(x))
            && (defaultTag != "" && x.tag != defaultTag ==> n.default == r.default)
            && (defaultTag == "" && x.tag != "" ==> n.default == if r.default.Some? then r.default else Some(x))
  {
    var n := Created(defaultTag, r, x);
    assert n.outbounds[..|n.outbounds| - 1] == Kept(r, x.tag);
    if x.tag in r.byTag { WithoutItemCuts(r.outbounds, r.byTag[x.tag]); }
  }

  /** A removal cuts the outbound out; if it was the default, the first of the others takes its place. */
  lemma RemovedMeans(r: Registry, tag: string)
    requires WellFormed(r) && tag in r.byTag
    ensures var n := Removed(r, tag);
            && CutFrom(r.outbounds, r.byTag[tag], n.outbounds)
            && (forall t :: t in n.byTag <==> t != tag && t in r.byTag)
            && (forall t :: t in n.byTag ==> n.byTag[t] == r.byTag[t])
            && (r.default != Some(r.byTag[tag]) ==> n.default == r.default)
            && (r.default == Some(r.byTag[tag]) && n.outbounds == [] ==> n.default == None)
            && (r.default == Some(r.byTag[tag]) && n.outbounds != [] ==> n.default == Some(n.outbounds[0]))
            && (Lookup(r.dependBy, tag) != [] ==> n.dependBy == r.dependBy)
  {
    WithoutItemCuts(r.outbounds, r.byTag[tag]);
  }

  datatype Op = CreateOp(item: Item) | RemoveOp(tag: string) | FallbackOp(direct: Item)

  /** One accepted management call; refused calls that change nothing are not listed. */
  function Apply(defaultTag: string, r: Registry, op: Op): Registry {
    match op
    case CreateOp(x) => Created(defaultTag, r, x)
    case RemoveOp(tag) => if tag in r.byTag then Removed(r, tag) else r
    case FallbackOp(direct) => if defaultTag == "" && r.default.None? then FellBack(r, direct) else r
  }

  function Run(defaultTag: string, ops: seq<Op>): Registry {
    if ops == [] then EMPTY_REGISTRY else Apply(defaultTag, Run(defaultTag, ops[..|ops| - 1]), ops[|ops| - 1])
  }

  /** In every run the list and the tag map agree, and the fallback only ever enters an empty list. */
  lemma {:induction false} RunKeeps(defaultTag: string, ops: seq<Op>)
    ensures WellFormed(Run(defaultTag, ops)) && HasDefault(defaultTag, Run(defaultTag, ops))
  {
    if ops != [] {
      var prev := Run(defaultTag, ops[..|ops| - 1]);
      RunKeeps(defaultTag, ops[..|ops| - 1]);
      match ops[|ops| - 1]
      case CreateOp(x) => CreatedKeeps(defaultTag, prev, x);
      case RemoveOp(tag) => if tag in prev.byTag { RemovedKeeps(defaultTag, prev, tag); }
      case FallbackOp(direct) =>
    }
  }

  // ----- the default outbound

  ghost predicate DefaultListed(r: Registry) {
    r.default.Some? ==> r.default.value in r.outbounds
  }

  /**
    Re-creating a tag leaves a dangling default exactly when the outbound it
    replaces is the default and its tag is not the configured default tag.
   */
  lemma CreateDanglesDefault(defaultTag: string, r: Registry, x: Item)
    requires WellFormed(r) && HasDefault(defaultTag, r) && DefaultListed(r) && x !in r.outbounds
    ensures !DefaultListed(Created(defaultTag, r, x))
            <==> x.tag in r.byTag && r.default == Some(r.byTag[x.tag]) && x.tag != defaultTag
  {
    CreatedKeeps(defaultTag, r, x);
    if r.default.Some? {
      var previous := r.default.value;
      assert previous.tag in Tags(r.outbounds);
      SameTagSameItem(r, previous, r.byTag[previous.tag]);
    }
  }

  // ----- the dependents on record

  lemma {:induction false} RecordLookup(m: map<string, seq<string>>, dependencies: seq<string>, tag: string,
          key: string, t: string)
    ensures t in Lookup(Record(m, dependencies, tag), key)
            <==> t in Lookup(m, key) || (t == tag && key in dependencies)
  {
    if dependencies != [] {
      var n := |dependencies| - 1;
      RecordLookup(m, dependencies[..n], tag, key, t);
      assert dependencies == dependencies[..n] + [dependencies[n]];
    }
  }

  function Repeated(tag: string, times: nat): (s: seq<string>)
    ensures |s| == times && forall t :: t in s ==> t == tag
  {
    if times == 0 then [] else Repeated(tag, times - 1) + [tag]
  }

  /** A creation puts the tag at the end of each entry, as often as it names the dependency. */
  lemma {:induction false} RecordAppends(m: map<string, seq<string>>, dependencies: seq<string>, tag: string,
          key: string)
    ensures Lookup(Record(m, dependencies, tag), key)
            == Lookup(m, key) + Repeated(tag, multiset(dependencies)[key])
  {
    if dependencies != [] {
      var n := |dependencies| - 1;
      var front := dependencies[..n];
      RecordAppends(m, front, tag, key);
      assert dependencies == front + [dependencies[n]];
      assert multiset(dependencies) == multiset(front) + multiset{dependencies[n]};
      RecordedOnce(m, front, dependencies[n], tag, key);
      AppendRepeated(Lookup(m, key), tag, multiset(front)[key]);
    }
  }

  lemma RecordedOnce(m: map<string, seq<string>>, front: seq<string>, d: string, tag: string, key: string)
    ensures var earlier := Lookup(Record(m, front, tag), key);
            Lookup(Record(m, front + [d], tag), key) == if d == key then earlier + [tag] else earlier
  {
    assert (front + [d])[..|front|] == front;
  }

  lemma AppendRepeated(entry: seq<string>, tag: string, times: nat)
    ensures entry + Repeated(tag, times) + [tag] == entry + Repeated(tag, times + 1)
  {
  }

  /** What is left under one key: nothing changes, one filter, or the second round's deletion. */
  function Residue(entry: seq<string>, tag: string, occurrences: nat): seq<string> {
    var filtered := Without(entry, tag);
    if occurrences == 0 then entry
    else if occurrences >= 2 && |filtered| == 1 then []
    else filtered
  }

  lemma {:induction false} WithoutTwice(tags: seq<string>, tag: string)
    ensures tag !in tags ==> Without(tags, tag) == tags
  {
    if tags != [] { WithoutTwice(tags[1..], tag); }
  }

  /** One more round on what is left of an entry that held the tag. */
  lemma ResidueStep(entry: seq<string>, tag: string, occurrences: nat)
    requires tag in entry
    ensures var left := Residue(entry, tag, occurrences);
            (if |left| == 1 then [] else Without(left, tag)) == Residue(entry, tag, occurrences + 1)
  {
    WithoutTwice(Without(entry, tag), tag);
    if |entry| == 1 {
      assert entry == [tag] && Without(entry[1..], tag) == [] == Without(entry, tag);
    }
  }

  lemma {:induction false} ForgetLookup(m: map<string, seq<string>>, dependencies: seq<string>, tag: string,
          key: string)
    requires key in dependencies ==> tag in Lookup(m, key)
    ensures Lookup(Forget(m, dependencies, tag), key) == Residue(Lookup(m, key), tag, multiset(dependencies)[key])
  {
    if dependencies != [] {
      var n := |dependencies| - 1;
      var front := dependencies[..n];
      assert dependencies == front + [dependencies[n]];
      assert multiset(dependencies) == multiset(front) + multiset{dependencies[n]};
      ForgetLookup(m, front, tag, key);
      if dependencies[n] == key { ResidueStep(Lookup(m, key), tag, multiset(front)[key]); }
    }
  }

  /** Removing `x` without being refused deletes the entry of `d`, although one other dependent is left in it. */
  predicate ForgetsUnder(r: Registry, x: Item, d: string) {
    multiset(x.dependencies)[d] >= 2 && |Without(Lookup(r.dependBy, d), x.tag)| == 1
  }

  /** A successful removal forgets a remaining dependent exactly in this case. */
  ghost predicate ForgetsDependent(r: Registry, x: Item) {
    exists y, d :: y in r.outbounds && y != x && d in y.dependencies && ForgetsUnder(r, x, d)
  }

  /** What a successful removal of `x` leaves on record for another outbound. */
  lemma RemainingRecord(r: Registry, x: Item, y: Item, d: string)
    requires Recorded(r) && x in r.outbounds && y in r.outbounds && y.tag != x.tag && d in y.dependencies
    ensures y.tag in Lookup(Forget(r.dependBy, x.dependencies, x.tag), d) <==> !ForgetsUnder(r, x, d)
  {
    ForgetLookup(r.dependBy, x.dependencies, x.tag, d);
    assert y.tag in Lookup(r.dependBy, d);
    assert y.tag in Without(Lookup(r.dependBy, d), x.tag);
  }

  lemma ForgottenBreaksRecord(r: Registry, x: Item, y: Item, d: string, kept: seq<Item>)
    requires Recorded(r) && x in r.outbounds && y in r.outbounds && y.tag != x.tag && y in kept
    requires d in y.dependencies && ForgetsUnder(r, x, d)
    ensures !RecordedIn(kept, Forget(r.dependBy, x.dependencies, x.tag))
  {
    RemainingRecord(r, x, y, d);
  }

  lemma OthersStayRecorded(r: Registry, x: Item, kept: seq<Item>)
    requires Recorded(r) && x in r.outbounds && !ForgetsDependent(r, x)
    requires forall y :: y in kept ==> y in r.outbounds && y.tag != x.tag
    ensures RecordedIn(kept, Forget(r.dependBy, x.dependencies, x.tag))
  {
    var m := Forget(r.dependBy, x.dependencies, x.tag);
    forall y, d | y in kept && d in y.dependencies ensures y.tag in Lookup(m, d) {
      RemainingRecord(r, x, y, d);
    }
  }

  lemma RemoveKeepsRecord(r: Registry, tag: string)
    requires WellFormed(r) && Recorded(r) && tag in r.byTag
    ensures Recorded(Removed(r, tag)) <==> Lookup(r.dependBy, tag) != [] || !ForgetsDependent(r, r.byTag[tag])
  {
    var x := r.byTag[tag];
    var n := Removed(r, tag);
    KeptFacts(r, tag);
    if Lookup(r.dependBy, tag) == [] {
      if ForgetsDependent(r, x) {
        var y, d :| y in r.outbounds && y != x && d in y.dependencies && ForgetsUnder(r, x, d);
        SameTagSameItem(r, x, y);
        ForgottenBreaksRecord(r, x, y, d, n.outbounds);
      } else {
        OthersStayRecorded(r, x, n.outbounds);
      }
    }
  }

  lemma SameTagSameItem(r: Registry, x: Item, y: Item)
    requires DistinctTags(r.outbounds) && x in r.outbounds && y in r.outbounds
    ensures x.tag == y.tag ==> x == y
  {
  }

  ghost predicate DistinctDependencies(op: Op) {
    op.CreateOp? ==> Distinct(op.item.dependencies)
  }

  lemma {:induction false} DistinctOnce(s: seq<string>, t: string)
    requires Distinct(s)
    ensures multiset(s)[t] <= 1
  {
    if s != [] {
      var n := |s| - 1;
      assert s == s[..n] + [s[n]];
      DistinctOnce(s[..n], t);
    }
  }

  /** When no outbound names a dependency twice, every run keeps the record complete. */
  lemma {:induction false} RunKeepsRecord(defaultTag: string, ops: seq<Op>)
    requires forall i :: 0 <= i < |ops| ==> DistinctDependencies(ops[i])
    requires forall i :: 0 <= i < |ops| && ops[i].FallbackOp? ==> ops[i].direct.dependencies == []
    ensures Recorded(Run(defaultTag, ops))
    ensures forall x :: x in Run(defaultTag, ops).outbounds ==> Distinct(x.dependencies)
  {
    if ops != [] {
      var front := ops[..|ops| - 1];
      var prev := Run(defaultTag, front);
      RunKeepsRecord(defaultTag, front);
      RunKeeps(defaultTag, front);
      match ops[|ops| - 1]
      case CreateOp(x) =>
        var n := Created(defaultTag, prev, x);
        CreatedKeeps(defaultTag, prev, x);
        assert DistinctDependencies(ops[|ops| - 1]);
        forall y, d | y in n.outbounds && d in y.dependencies ensures y.tag in Lookup(n.dependBy, d) {
          RecordLookup(prev.dependBy, x.dependencies, x.tag, d, y.tag);
        }
      case RemoveOp(tag) =>
        if tag in prev.byTag {
          RemovedKeeps(defaultTag, prev, tag);
          RemoveKeepsRecord(prev, tag);
          forall d ensures multiset(prev.byTag[tag].dependencies)[d] <= 1 {
            DistinctOnce(prev.byTag[tag].dependencies, d);
          }
        }
      case FallbackOp(direct) =>
    }
  }

  /** So in every such run an outbound that another one depends on is on record for it, and its removal is refused. */
  lemma DependentsBlockRemoval(defaultTag: string, ops: seq<Op>, y: Item, tag: string)
    requires forall i :: 0 <= i < |ops| ==> DistinctDependencies(ops[i])
    requires forall i :: 0 <= i < |ops| && ops[i].FallbackOp? ==> ops[i].direct.dependencies == []
    requires y in Run(defaultTag, ops).outbounds && tag in y.dependencies
    ensures y.tag in Lookup(Run(defaultTag, ops).dependBy, tag)
  {
    RunKeepsRecord(defaultTag, ops);
  }

  lemma RecordSnoc(m: map<string, seq<string>>, front: seq<string>, d: string, tag: string)
    ensures var earlier := Record(m, front, tag);
            Record(m, front + [d], tag) == earlier[d := Lookup(earlier, d) + [tag]]
  {
  }

  lemma DoubledEntryIsDeleted(m: map<string, seq<string>>)
    requires m == map["hop" := ["a", "a", "b"]]
    ensures Lookup(Forget(m, ["hop", "hop"], "a"), "hop") == []
  {
    ForgetLookup(m, ["hop", "hop"], "a", "hop");
    assert ["a", "a", "b"][1..] == ["a", "b"] && ["a", "b"][1..] == ["b"] && ["b"][1..] == [];
    assert Without(["b"], "a") == ["b"];
    assert Without(["a", "b"], "a") == ["b"];
    assert multiset(["hop", "hop"])["hop"] == 2;
  }

  lemma ThreeCreated(hop: Item, a: Item, b: Item)
    requires hop == Item(0, "hop", []) && a == Item(1, "a", ["hop", "hop"]) && b == Item(2, "b", ["hop"])
    ensures Run("", [CreateOp(hop), CreateOp(a), CreateOp(b)])
            == Registry([hop, a, b], map["hop" := hop, "a" := a, "b" := b], map["hop" := ["a", "a", "b"]], Some(hop))
  {
    var ops := [CreateOp(hop), CreateOp(a), CreateOp(b)];
    assert ops[..2] == [CreateOp(hop), CreateOp(a)] && ops[..2][..1] == [CreateOp(hop)] && [CreateOp(hop)][..0] == [];
    RecordTwice();
    assert Run("", [CreateOp(hop)]) == Registry([hop], map["hop" := hop], map[], Some(hop));
    assert Run("", ops[..2]) == Registry([hop, a], map["hop" := hop, "a" := a], map["hop" := ["a", "a"]], Some(hop));
    RecordThird();
  }

  lemma RecordTwice()
    ensures Record(map[], ["hop", "hop"], "a") == map["hop" := ["a", "a"]]
  {
    var none: map<string, seq<string>> := map[];
    RecordSnoc(none, [], "hop", "a");
    assert [] + ["hop"] == ["hop"] && [] + ["a"] == ["a"];
    RecordSnoc(none, ["hop"], "hop", "a");
    assert ["hop"] + ["hop"] == ["hop", "hop"] && ["a"] + ["a"] == ["a", "a"];
  }

  lemma RecordThird()
    ensures Record(map["hop" := ["a", "a"]], ["hop"], "b") == map["hop" := ["a", "a", "b"]]
  {
    RecordSnoc(map["hop" := ["a", "a"]], [], "hop", "b");
    assert [] + ["hop"] == ["hop"] && ["a", "a"] + ["b"] == ["a", "a", "b"];
  }

  /** With a dependency named twice it is: "hop" can go although "b" still depends on it. */
  lemma DoubledDependencyIsForgotten(hop: Item, a: Item, b: Item)
    requires hop == Item(0, "hop", []) && a == Item(1, "a", ["hop", "hop"]) && b == Item(2, "b", ["hop"])
    ensures var r := Run("", [CreateOp(hop), CreateOp(a), CreateOp(b), RemoveOp("a")]);
            b in r.outbounds && "hop" in b.dependencies && "hop" in r.byTag && Lookup(r.dependBy, "hop") == []
  {
    var ops := [CreateOp(hop), CreateOp(a), CreateOp(b), RemoveOp("a")];
    assert ops[..3] == [CreateOp(hop), CreateOp(a), CreateOp(b)];
    ThreeCreated(hop, a, b);
    var r := Run("", ops[..3]);
    DoubledEntryIsDeleted(r.dependBy);
    RunKeeps("", ops[..3]);
    KeptFacts(r, "a");
  }

  // ----- dependents on record that are gone

  /** Every dependent on record is listed and still depends. */
  ghost predicate Justified(r: Registry) {
    forall d, t :: t in Lookup(r.dependBy, d) ==> DependsOn(r.outbounds, t, d)
  }

  /**
    A creation replaces an outbound that is on record with something the new
    one does not depend on, or a refused removal takes out one that is on record.
   */
  ghost predicate LeavesStale(r: Registry, op: Op) {
    match op
    case CreateOp(x) => exists d :: x.tag in Lookup(r.dependBy, d) && d !in x.dependencies
    case RemoveOp(tag) =>
      tag in r.byTag && Lookup(r.dependBy, tag) != [] && exists d :: tag in Lookup(r.dependBy, d)
    case FallbackOp(_) => false
  }

  lemma {:induction false} ForgetShrinks(m: map<string, seq<string>>, dependencies: seq<string>, tag: string,
          key: string)
    ensures forall t :: t in Lookup(Forget(m, dependencies, tag), key) ==> t in Lookup(m, key)
    ensures key in dependencies ==> tag !in Lookup(Forget(m, dependencies, tag), key)
  {
    if dependencies != [] {
      var n := |dependencies| - 1;
      ForgetShrinks(m, dependencies[..n], tag, key);
      assert dependencies == dependencies[..n] + [dependencies[n]];
    }
  }

  /** A dependent that stays listed is justified as before, whoever else comes or goes. */
  lemma StaysJustified(before: seq<Item>, after: seq<Item>, t: string, d: string)
    requires forall y: Item :: y.tag == t ==> (y in before <==> y in after)
    ensures DependsOn(before, t, d) <==> DependsOn(after, t, d)
  {
  }

  lemma CreateStalesExactly(defaultTag: string, r: Registry, x: Item)
    requires WellFormed(r) && HasDefault(defaultTag, r) && Justified(r)
    ensures Justified(Created(defaultTag, r, x)) <==> !LeavesStale(r, CreateOp(x))
  {
    CreatedKeeps(defaultTag, r, x);
    var n := Created(defaultTag, r, x);
    forall d, t
      ensures t in Lookup(n.dependBy, d) <==> t in Lookup(r.dependBy, d) || (t == x.tag && d in x.dependencies)
      ensures DependsOn(n.outbounds, t, d) <==> if t == x.tag then d in x.dependencies else DependsOn(r.outbounds, t, d)
    {
      RecordLookup(r.dependBy, x.dependencies, x.tag, d, t);
      if t != x.tag { StaysJustified(r.outbounds, n.outbounds, t, d); }
    }
    if LeavesStale(r, CreateOp(x)) {
      var d :| x.tag in Lookup(r.dependBy, d) && d !in x.dependencies;
      assert x.tag in Lookup(n.dependBy, d) && !DependsOn(n.outbounds, x.tag, d);
    }
  }

  lemma RemovedDepends(defaultTag: string, r: Registry, tag: string, t: string, d: string)
    requires WellFormed(r) && HasDefault(defaultTag, r) && tag in r.byTag
    ensures DependsOn(Removed(r, tag).outbounds, t, d) <==> t != tag && DependsOn(r.outbounds, t, d)
    ensures DependsOn(r.outbounds, tag, d) <==> d in r.byTag[tag].dependencies
  {
    RemovedKeeps(defaultTag, r, tag);
    if t != tag { StaysJustified(r.outbounds, Removed(r, tag).outbounds, t, d); }
    if DependsOn(r.outbounds, tag, d) {
      var y :| y in r.outbounds && y.tag == tag && d in y.dependencies;
      SameTagSameItem(r, y, r.byTag[tag]);
    }
  }

  lemma RemoveStalesExactly(defaultTag: string, r: Registry, tag: string)
    requires WellFormed(r) && HasDefault(defaultTag, r) && Justified(r) && tag in r.byTag
    ensures Justified(Removed(r, tag)) <==> !LeavesStale(r, RemoveOp(tag))
  {
    var n := Removed(r, tag);
    forall t, d
      ensures DependsOn(n.outbounds, t, d) <==> t != tag && DependsOn(r.outbounds, t, d)
      ensures DependsOn(r.outbounds, tag, d) <==> d in r.byTag[tag].dependencies
    {
      RemovedDepends(defaultTag, r, tag, t, d);
    }
    if Lookup(r.dependBy, tag) == [] {
      forall d, t | t in Lookup(n.dependBy, d) ensures DependsOn(n.outbounds, t, d) {
        ForgetShrinks(r.dependBy, r.byTag[tag].dependencies, tag, d);
        assert DependsOn(r.outbounds, t, d);
      }
    } else if LeavesStale(r, RemoveOp(tag)) {
      var d :| tag in Lookup(r.dependBy, d);
      assert tag in Lookup(n.dependBy, d) && !DependsOn(n.outbounds, tag, d);
    }
  }

  lemma FallbackStalesNothing(defaultTag: string, r: Registry, direct: Item)
    requires HasDefault(defaultTag, r) && Justified(r)
    ensures Justified(Apply(defaultTag, r, FallbackOp(direct)))
  {
    var n := Apply(defaultTag, r, FallbackOp(direct));
    forall d, t | t in Lookup(n.dependBy, d) ensures DependsOn(n.outbounds, t, d) {
      assert DependsOn(r.outbounds, t, d);
    }
  }

  /** At every point of the run. */
  ghost predicate AlwaysJustified(defaultTag: string, ops: seq<Op>) {
    Justified(Run(defaultTag, ops)) && (ops != [] ==> AlwaysJustified(defaultTag, ops[..|ops| - 1]))
  }

  ghost predicate NothingStale(defaultTag: string, ops: seq<Op>) {
    ops != [] ==>
      && NothingStale(defaultTag, ops[..|ops| - 1])
      && !LeavesStale(Run(defaultTag, ops[..|ops| - 1]), ops[|ops| - 1])
  }

  /** In every run, all dependents on record are real if and only if no call leaves one behind. */
  lemma {:induction false} RecordIsRealExactly(defaultTag: string, ops: seq<Op>)
    ensures AlwaysJustified(defaultTag, ops) <==> NothingStale(defaultTag, ops)
  {
    if ops != [] {
      var front := ops[..|ops| - 1];
      var r := Run(defaultTag, front);
      RecordIsRealExactly(defaultTag, front);
      RunKeeps(defaultTag, front);
      if AlwaysJustified(defaultTag, front) {
        match ops[|ops| - 1]
        case CreateOp(x) => CreateStalesExactly(defaultTag, r, x);
        case RemoveOp(tag) => if tag in r.byTag { RemoveStalesExactly(defaultTag, r, tag); }
        case FallbackOp(direct) => FallbackStalesNothing(defaultTag, r, direct);
      }
    }
  }

  lemma RecordOnce()
    ensures Record(map[], ["hop"], "a") == map["hop" := ["a"]]
  {
    RecordSnoc(map[], [], "hop", "a");
    assert [] + ["hop"] == ["hop"] && [] + ["a"] == ["a"];
  }

  lemma TwoCreated(hop: Item, a: Item)
    requires hop == Item(0, "hop", []) && a == Item(1, "a", ["hop"])
    ensures Run("", [CreateOp(hop), CreateOp(a)])
            == Registry([hop, a], map["hop" := hop, "a" := a], map["hop" := ["a"]], Some(hop))
  {
    var ops := [CreateOp(hop), CreateOp(a)];
    assert ops[..1] == [CreateOp(hop)] && [CreateOp(hop)][..0] == [];
    RecordOnce();
    assert Run("", [CreateOp(hop)]) == Registry([hop], map["hop" := hop], map[], Some(hop));
  }

  /** A run that leaves one behind: "a" is replaced without its dependency, and "hop" stays refused for it. */
  lemma StaleRecordBlocksRemoval(hop: Item, a: Item, b: Item)
    requires hop == Item(0, "hop", []) && a == Item(1, "a", ["hop"]) && b == Item(2, "a", [])
    ensures var r := Run("", [CreateOp(hop), CreateOp(a), CreateOp(b)]);
            && "hop" in r.byTag && Lookup(r.dependBy, "hop") == ["a"]
            && forall x :: x in r.outbounds ==> "hop" !in x.dependencies
  {
    var ops := [CreateOp(hop), CreateOp(a), CreateOp(b)];
    assert ops[..2] == [CreateOp(hop), CreateOp(a)];
    TwoCreated(hop, a);
    RunKeeps("", ops[..2]);
    CreatedKeeps("", Run("", ops[..2]), b);
  }

  // ----- the start list

  /**
    The configuration check makes tags distinct over outbounds and endpoints;
    the started list stays distinct exactly when the fallback outbound, if it
    is used, does not share its tag with an endpoint.
   */
  lemma StartListDistinct(r: Registry, endpoints: seq<Item>, direct: Item)
    requires r.outbounds == [] && DistinctTags(endpoints)
    ensures DistinctTags(FellBack(r, direct).outbounds + endpoints) <==> direct.tag !in Tags(endpoints)
  {
    assert FellBack(r, direct).outbounds + endpoints == [direct] + endpoints;
    DistinctCons(direct, endpoints);
  }

  datatype CreateOutcome = CreateDone | InvalidTag | RegistryError | StartError | CloseError

  datatype RemoveOutcome = RemoveDone | UnknownTag | DependedBy(dependents: seq<string>) | CloseFailed

  datatype Stage = Initialize | AtStart | PostStart | AtStarted

  function Order(stage: Stage): nat {
    match stage
    case Initialize => 0
    case AtStart => 1
    case PostStart => 2
    case AtStarted => 3
  }

  datatype StartResult =
    | AlreadyStarted                // the panic on a stage that is not a later one
    | DefaultNotFound
    | FallbackError
    | Loop(outcome: Outcome)        // the start stage
    | StageDone                     // any other stage
    | StageFailed(item: Item)

  class Manager {
    const defaultTag: string
    const endpoints: seq<Item>
    var started: bool
    var stage: Stage
    var outbounds: seq<Item>
    var outboundByTag: map<string, Item>
    var dependByTag: map<string, seq<string>>
    var defaultOutbound: Option<Item>

    ghost function State(): Registry
      reads this
    {
      Registry(outbounds, outboundByTag, dependByTag, defaultOutbound)
    }

    ghost predicate Valid()
      reads this
    {
      WellFormed(State()) && HasDefault(defaultTag, State())
    }

    constructor (defaultTag: string, endpoints: seq<Item>)
      ensures Valid() && State() == EMPTY_REGISTRY && !started
      ensures this.defaultTag == defaultTag && this.endpoints == endpoints
    {
      this.defaultTag := defaultTag;
      this.endpoints := endpoints;
      started, stage := false, Initialize;
      outbounds, outboundByTag, dependByTag, defaultOutbound := [], map[], map[], None;
    }

    /** Cuts the one occurrence of `x` out of the list; the index is always found. */
    method CutOut(x: Item)
      requires x in outbounds
      modifies this`outbounds
      ensures outbounds == WithoutItem(old(outbounds), x)
    {
      var index := 0;
      while outbounds[index] != x
        invariant 0 <= index < |outbounds| && forall j :: 0 <= j < index ==> outbounds[j] != x
        decreases |outbounds| - index
      {
        index := index + 1;
      }
      WithoutItemAt(outbounds, x, index);
      outbounds := outbounds[..index] + outbounds[index + 1..];
    }

    /** `made` is what the registry built; the flags are the outcomes of starting and closing. */
    method Create(tag: string, made: Option<Item>, startFails: bool, closeFails: bool) returns (err: CreateOutcome)
      requires Valid() && (made.Some? ==> made.value.tag == tag)
      modifies this
      ensures Valid() && started == old(started)
      ensures err == if tag == "" then InvalidTag
                     else if made.None? then RegistryError
                     else if started && startFails then StartError
                     else if started && closeFails && tag in old(outboundByTag) then CloseError
                     else CreateDone
      ensures State() == if err.CreateDone? then Created(defaultTag, old(State()), made.value) else old(State())
    {
      if tag == "" { return InvalidTag; }
      if made.None? { return RegistryError; }
      var outbound := made.value;
      if started && startFails { return StartError; }
      if tag in outboundByTag && started && closeFails { return CloseError; }
      CreatedKeeps(defaultTag, State(), outbound);
      Register(outbound);
      return CreateDone;
    }

    /** The part of a creation that changes the registry. */
    method Register(outbound: Item)
      requires WellFormed(State())
      modifies this`outbounds, this`outboundByTag, this`dependByTag, this`defaultOutbound
      ensures State() == Created(defaultTag, old(State()), outbound)
    {
      var tag := outbound.tag;
      if tag in outboundByTag { CutOut(outboundByTag[tag]); }
      outbounds := outbounds + [outbound];
      outboundByTag := outboundByTag[tag := outbound];
      RecordDependencies(outbound);
      if tag == defaultTag || (defaultTag == "" && defaultOutbound.None?) {
        defaultOutbound := Some(outbound);
      }
    }

    method RecordDependencies(outbound: Item)
      modifies this`dependByTag
      ensures dependByTag == Record(old(dependByTag), outbound.dependencies, outbound.tag)
    {
      for i := 0 to |outbound.dependencies|
        invariant dependByTag == Record(old(dependByTag), outbound.dependencies[..i], outbound.tag)
      {
        var dependency := outbound.dependencies[i];
        assert outbound.dependencies[..i + 1][..i] == outbound.dependencies[..i];
        var entry := if dependency in dependByTag then dependByTag[dependency] else [];
        dependByTag := dependByTag[dependency := entry + [outbound.tag]];
      }
      assert outbound.dependencies[..|outbound.dependencies|] == outbound.dependencies;
    }

    /** A refused removal has already taken the outbound out of the list and the map. */
    method Remove(tag: string, closeFails: bool) returns (err: RemoveOutcome)
      requires Valid()
      modifies this
      ensures Valid() && started == old(started)
      ensures err == if tag !in old(outboundByTag) then UnknownTag
                     else if Lookup(old(dependByTag), tag) != [] then DependedBy(Lookup(old(dependByTag), tag))
                     else if started && closeFails then CloseFailed
                     else RemoveDone
      ensures State() == if err.UnknownTag? then old(State()) else Removed(old(State()), tag)
    {
      if tag !in outboundByTag { return UnknownTag; }
      RemovedKeeps(defaultTag, State(), tag);
      var outbound := outboundByTag[tag];
      outboundByTag := outboundByTag - {tag};
      CutOut(outbound);
      if defaultOutbound == Some(outbound) {
        defaultOutbound := if |outbounds| > 0 then Some(outbounds[0]) else None;
      }
      var dependBy := Lookup(dependByTag, tag);
      if |dependBy| > 0 { return DependedBy(dependBy); }
      ForgetDependencies(outbound);
      if started && closeFails { return CloseFailed; }
      return RemoveDone;
    }

    method ForgetDependencies(outbound: Item)
      modifies this`dependByTag
      ensures dependByTag == Forget(old(dependByTag), outbound.dependencies, outbound.tag)
    {
      for i := 0 to |outbound.dependencies|
        invariant dependByTag == Forget(old(dependByTag), outbound.dependencies[..i], outbound.tag)
      {
        var dependency := outbound.dependencies[i];
        assert outbound.dependencies[..i + 1][..i] == outbound.dependencies[..i];
        if |Lookup(dependByTag, dependency)| == 1 {
          dependByTag := dependByTag - {dependency};
        } else {
          dependByTag := dependByTag[dependency := Without(Lookup(dependByTag, dependency), outbound.tag)];
        }
      }
      assert outbound.dependencies[..|outbound.dependencies|] == outbound.dependencies;
    }

    method EndpointByTag(tag: string) returns (found: Option<Item>)
      ensures found.Some? ==> found.value in endpoints && found.value.tag == tag
      ensures found.None? ==> tag !in Tags(endpoints)
    {
      for i := 0 to |endpoints|
        invariant forall j :: 0 <= j < i ==> endpoints[j].tag != tag
      {
        if endpoints[i].tag == tag { return Some(endpoints[i]); }
      }
      return None;
    }

    /** Finds a default before the start: the configured endpoint, or the fallback outbound. */
    method SettleDefault(fallback: Option<Item>) returns (failure: Option<StartResult>)
      requires Valid()
      modifies this`outbounds, this`outboundByTag, this`defaultOutbound
      ensures Valid()
      ensures failure == if old(defaultOutbound).Some? then None
                         else if defaultTag != "" then
                           if defaultTag in Tags(endpoints) then None else Some(DefaultNotFound)
                         else if fallback.Some? then None else Some(FallbackError)
      ensures if old(defaultOutbound).Some? || failure.Some? then State() == old(State())
              else if defaultTag == "" then
                // the fallback enters only an empty list, so it never displaces an entry
                old(outbounds) == [] && State() == FellBack(old(State()), fallback.value)
              else
                && State() == old(State()).(default := defaultOutbound) && defaultOutbound.Some?
                && defaultOutbound.value in endpoints && defaultOutbound.value.tag == defaultTag
    {
      if defaultTag != "" && defaultOutbound.None? {
        var endpoint := EndpointByTag(defaultTag);
        if endpoint.None? { return Some(DefaultNotFound); }
        assert defaultTag in Tags(endpoints);
        defaultOutbound := endpoint;
      }
      if defaultOutbound.None? {
        if fallback.None? { return Some(FallbackError); }
        var direct := fallback.value;
        outbounds := outbounds + [direct];
        outboundByTag := outboundByTag[direct.tag := direct];
        defaultOutbound := Some(direct);
        assert outbounds == [direct];
      }
      return None;
    }

    /** Any stage but the start: the outbounds are told in list order until one fails. */
    method RunStage(startFails: Item -> bool) returns (result: StartResult, order: seq<Item>)
      ensures order <= outbounds
      ensures result == StageDone <==> forall x :: x in outbounds ==> !startFails(x)
      ensures if result == StageDone then order == outbounds
              else order != [] && result == StageFailed(order[|order| - 1]) && startFails(order[|order| - 1])
                   && forall x :: x in order[..|order| - 1] ==> !startFails(x)
    {
      for i := 0 to |outbounds|
        invariant forall j :: 0 <= j < i ==> !startFails(outbounds[j])
      {
        if startFails(outbounds[i]) {
          assert outbounds[i] in outbounds && outbounds[..i + 1][..i] == outbounds[..i];
          return StageFailed(outbounds[i]), outbounds[..i + 1];
        }
      }
      return StageDone, outbounds;
    }

    /** At the start stage: settle the default, then run the start loop over outbounds and endpoints. */
    method Start(stage: Stage, fallback: Option<Item>, startFails: Item -> bool)
      returns (result: StartResult, order: seq<Item>)
      requires Valid()
      modifies this
      ensures Valid()
      // stages only go forward
      ensures result.AlreadyStarted? <==> old(started) && Order(stage) <= Order(old(this.stage))
      ensures result.AlreadyStarted? ==>
              this.stage == old(this.stage) && started && State() == old(State()) && order == []
      ensures !result.AlreadyStarted? ==> started && this.stage == stage
      // the other stages
      ensures result.StageDone? || result.StageFailed? <==> !result.AlreadyStarted? && stage != AtStart
      ensures result.StageDone? || result.StageFailed? ==> State() == old(State()) && order <= outbounds
      ensures result.StageDone? ==> order == outbounds && forall x :: x in outbounds ==> !startFails(x)
      ensures result.StageFailed? ==> order != [] && order[|order| - 1] == result.item && startFails(result.item)
                                      && forall x :: x in order[..|order| - 1] ==> !startFails(x)
      // the start stage
      ensures result.DefaultNotFound? <==> !result.AlreadyStarted? && stage == AtStart && old(defaultOutbound).None?
                                           && defaultTag != "" && defaultTag !in Tags(endpoints)
      ensures result.FallbackError? <==> !result.AlreadyStarted? && stage == AtStart && old(defaultOutbound).None?
                                         && defaultTag == "" && fallback.None?
      ensures result.DefaultNotFound? || result.FallbackError? ==> State() == old(State()) && order == []
      ensures result.Loop? ==>
                && defaultOutbound.Some? && DistinctTags(order) && DependenciesFirst(order)
                && State() == (if old(defaultOutbound).None? && defaultTag == "" && fallback.Some?
                               then FellBack(old(State()), fallback.value)
                               else old(State()).(default := defaultOutbound))
                && (outbounds != old(outbounds) ==> old(outbounds) == [])
      ensures result.Loop? && !result.outcome.StartFailed? ==>
                (result.outcome.Started? <==>
                 var list := outbounds + endpoints;
                 DistinctTags(list) && DependenciesPresent(list) && Acyclic(list))
      ensures result == Loop(Started) ==> multiset(order) == multiset(outbounds + endpoints)
      ensures result.Loop? && result.outcome.NotFound? && (forall e :: e in endpoints ==> e.dependencies == []) ==>
                result.outcome.dependency !in Tags(outbounds + endpoints)
    {
      if started && Order(this.stage) >= Order(stage) { return AlreadyStarted, []; }
      started := true;
      this.stage := stage;
      if stage != AtStart {
        result, order := RunStage(startFails);
        return;
      }
      var failure := SettleDefault(fallback);
      if failure.Some? { return failure.value, []; }
      var list := outbounds + endpoints;
      forall t | t in outboundByTag ensures outboundByTag[t].tag == t && outboundByTag[t] in list {
        assert outboundByTag[t] in outbounds;
      }
      var outcome;
      outcome, order := StartAll(list, outboundByTag, startFails);
      result := Loop(outcome);
    }
  }
}
