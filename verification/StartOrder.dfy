/**
  The dependency-ordered start loop shared by the outbound manager and the DNS
  transport manager, with the recursion that explains a loop that is stuck.

  A pass over the list starts every item whose dependencies are all started;
  passes repeat until every tag is started or a pass starts nothing. Starting
  an item is an uninterpreted effect that may fail (`startFails`).
 */
module StartOrder {

  // `id` stands for the identity of the Go object behind the interface value.
  datatype Item = Item(id: int, tag: string, dependencies: seq<string>)

  datatype Outcome =
    | Started
    | StartFailed(item: Item)
    // "circular dependency": the printed chain, ending in the repeated tag
    | Circular(chain: seq<string>)
    // "dependency not found for ..."
    | NotFound(dependency: string, dependent: string)
    // the loop looked for an unstarted item and there was none
    | NilDereference

  ghost function Tags(items: seq<Item>): set<string> {
    set x | x in items :: x.tag
  }

  ghost function Elements(s: seq<string>): set<string> {
    set t | t in s
  }

  /** Some listed item tagged `a` names `b` as a dependency. */
  ghost predicate DependsOn(items: seq<Item>, a: string, b: string) {
    exists x :: x in items && x.tag == a && b in x.dependencies
  }

  ghost predicate IsChain(items: seq<Item>, p: seq<string>) {
    forall i :: 0 <= i < |p| - 1 ==> DependsOn(items, p[i], p[i + 1])
  }

  ghost predicate IsCycle(items: seq<Item>, p: seq<string>) {
    2 <= |p| && p[0] == p[|p| - 1] && IsChain(items, p)
  }

  ghost predicate Acyclic(items: seq<Item>) {
    forall p :: !IsCycle(items, p)
  }

  ghost predicate DependenciesPresent(items: seq<Item>) {
    forall x, d :: x in items && d in x.dependencies ==> d in Tags(items)
  }

  ghost predicate DistinctTags(items: seq<Item>) {
    forall i, j :: 0 <= i < j < |items| ==> items[i].tag != items[j].tag
  }

  ghost predicate Distinct(s: seq<string>) {
    forall i, j :: 0 <= i < j < |s| ==> s[i] != s[j]
  }

  /** The tag map holds listed items under their own tags. */
  ghost predicate Registered(items: seq<Item>, byTag: map<string, Item>) {
    forall t :: t in byTag ==> byTag[t].tag == t && byTag[t] in items
  }

  /** Every dependency of every started item was started before it. */
  ghost predicate DependenciesFirst(order: seq<Item>) {
    forall k, d :: 0 <= k < |order| && d in order[k].dependencies ==> d in Tags(order[..k])
  }

  /** An item is either started or held back by an unstarted dependency. */
  ghost predicate Settled(x: Item, started: set<string>) {
    x.tag in started || exists d :: d in x.dependencies && d !in started
  }

  ghost predicate Stuck(items: seq<Item>, started: set<string>) {
    forall x :: x in items ==> Settled(x, started)
  }

  // ----- the diagnostic recursion

  ghost predicate IsFirstUnstarted(dependencies: seq<string>, started: set<string>, d: string) {
    exists i :: 0 <= i < |dependencies| && dependencies[i] == d && d !in started
                && forall j :: 0 <= j < i ==> dependencies[j] in started
  }

  lemma FirstOfRest(dependencies: seq<string>, started: set<string>, d: string)
    requires dependencies != [] && dependencies[0] in started && IsFirstUnstarted(dependencies[1..], started, d)
    ensures IsFirstUnstarted(dependencies, started, d)
  {
    var i :| 0 <= i < |dependencies[1..]| && dependencies[1..][i] == d && d !in started
             && forall j :: 0 <= j < i ==> dependencies[1..][j] in started;
    assert dependencies[i + 1] == d;
    assert forall j :: 0 < j < i + 1 ==> dependencies[j] == dependencies[1..][j - 1];
  }

  /** The first dependency that is not started; the empty string when all are. */
  function FirstUnstarted(dependencies: seq<string>, started: set<string>): (d: string)
    ensures (exists e :: e in dependencies && e !in started) ==> d in dependencies && d !in started
  {
    if dependencies == [] then ""
    else if dependencies[0] !in started then dependencies[0]
    else FirstUnstarted(dependencies[1..], started)
  }

  lemma {:induction false} FirstUnstartedMeans(dependencies: seq<string>, started: set<string>)
    requires exists e :: e in dependencies && e !in started
    ensures IsFirstUnstarted(dependencies, started, FirstUnstarted(dependencies, started))
  {
    if dependencies[0] in started {
      var e :| e in dependencies && e !in started;
      assert e in dependencies[1..];
      FirstUnstartedMeans(dependencies[1..], started);
      FirstOfRest(dependencies, started, FirstUnstarted(dependencies, started));
    } else {
      assert dependencies[0] == FirstUnstarted(dependencies, started);
    }
  }

  function Lint(byTag: map<string, Item>, started: set<string>, tree: seq<string>, current: Item): (r: Outcome)
    decreases |byTag.Keys - Elements(tree)|
  {
    var problem := FirstUnstarted(current.dependencies, started);
    if problem in tree then Circular(tree + [problem])
    else if problem !in byTag then NotFound(problem, current.tag)
    else
      assert byTag.Keys - Elements(tree + [problem]) == byTag.Keys - Elements(tree) - {problem};
      Lint(byTag, started, tree + [problem], byTag[problem])
  }

  /** Some listed item with this tag is unstarted, and `d` is the first dependency it waits for. */
  ghost predicate HeldBack(items: seq<Item>, started: set<string>, tag: string, d: string) {
    tag !in started && exists x :: x in items && x.tag == tag && IsFirstUnstarted(x.dependencies, started, d)
  }

  /** What a diagnosis of a stuck loop claims. */
  ghost predicate TrueDiagnosis(items: seq<Item>, byTag: map<string, Item>, started: set<string>, r: Outcome) {
    match r
    case Circular(chain) =>
      && 2 <= |chain| <= |byTag| + 2
      && IsChain(items, chain)
      && chain[|chain| - 1] in chain[..|chain| - 1]
      && Distinct(chain[..|chain| - 1])
      && (forall t :: t in chain ==> t !in started)
    case NotFound(d, dependent) =>
      d !in byTag && d !in started && d != dependent && HeldBack(items, started, dependent, d)
    case _ => false
  }

  lemma DistinctBound(s: seq<string>, bound: set<string>)
    requires Distinct(s) && Elements(s) <= bound
    ensures |s| <= |bound|
  {
    if s != [] {
      var last := s[|s| - 1];
      forall t | t in s[..|s| - 1] ensures t in bound - {last} { assert t in s; }
      DistinctBound(s[..|s| - 1], bound - {last});
    }
  }

  lemma ChainSnoc(items: seq<Item>, p: seq<string>, d: string)
    requires p != [] && IsChain(items, p) && DependsOn(items, p[|p| - 1], d)
    ensures IsChain(items, p + [d])
  {
  }

  lemma CircularIsTrue(items: seq<Item>, byTag: map<string, Item>, started: set<string>, tree: seq<string>,
          problem: string)
    requires tree != [] && IsChain(items, tree + [problem]) && Distinct(tree) && problem in tree
    requires forall t :: t in tree[1..] ==> t in byTag
    requires forall t :: t in tree ==> t !in started
    ensures TrueDiagnosis(items, byTag, started, Circular(tree + [problem]))
  {
    var chain := tree + [problem];
    assert chain[..|chain| - 1] == tree;
    DistinctBound(tree[1..], byTag.Keys);
  }

  lemma DistinctSnoc(s: seq<string>, t: string)
    requires Distinct(s) && t !in s
    ensures Distinct(s + [t])
  {
  }

  /** The recursion ends within the registered items, and what it reports is real. */
  lemma {:induction false} LintIsTrue(items: seq<Item>, byTag: map<string, Item>, started: set<string>,
                                      tree: seq<string>, current: Item)
    requires Registered(items, byTag) && Stuck(items, started)
    requires current in items && tree != [] && tree[|tree| - 1] == current.tag
    requires IsChain(items, tree) && Distinct(tree)
    requires forall t :: t in tree[1..] ==> t in byTag
    requires forall t :: t in tree ==> t !in started
    ensures TrueDiagnosis(items, byTag, started, Lint(byTag, started, tree, current))
    decreases |byTag.Keys - Elements(tree)|
  {
    var problem := FirstUnstarted(current.dependencies, started);
    assert current.tag in tree;
    assert Settled(current, started);
    FirstUnstartedMeans(current.dependencies, started);
    assert DependsOn(items, current.tag, problem);
    ChainSnoc(items, tree, problem);
    if problem in tree {
      CircularIsTrue(items, byTag, started, tree, problem);
    } else if problem in byTag {
      var longer := tree + [problem];
      DistinctSnoc(tree, problem);
      assert longer[1..] == tree[1..] + [problem];
      assert byTag.Keys - Elements(longer) == byTag.Keys - Elements(tree) - {problem};
      LintIsTrue(items, byTag, started, longer, byTag[problem]);
    }
  }

  /** The tail of a circular report, from the first visit of the repeated tag, is a cycle. */
  lemma CircularHasCycle(items: seq<Item>, chain: seq<string>)
    requires 2 <= |chain| && IsChain(items, chain) && chain[|chain| - 1] in chain[..|chain| - 1]
    ensures !Acyclic(items)
  {
    var i :| 0 <= i < |chain| - 1 && chain[i] == chain[|chain| - 1];
    var p := chain[i..];
    forall k | 0 <= k < |p| - 1 ensures DependsOn(items, p[k], p[k + 1]) {
      assert p[k] == chain[i + k] && p[k + 1] == chain[i + k + 1];
    }
    assert IsCycle(items, p);
  }

  // ----- the start order and acyclicity

  ghost function ByTag(items: seq<Item>): (m: map<string, Item>)
    ensures Registered(items, m) && m.Keys == Tags(items)
  {
    if items == [] then map[] else
      var rest := ByTag(items[1..]);
      assert items == [items[0]] + items[1..];
      rest[items[0].tag := items[0]]
  }

  /** A stuck loop with an unstarted item left means a missing or a circular dependency. */
  lemma StuckMeansUnstartable(items: seq<Item>, started: set<string>, x: Item)
    requires Stuck(items, started) && x in items && x.tag !in started
    ensures !(DependenciesPresent(items) && Acyclic(items))
  {
    LintIsTrue(items, ByTag(items), started, [x.tag], x);
    var r := Lint(ByTag(items), started, [x.tag], x);
    if r.Circular? {
      CircularHasCycle(items, r.chain);
    } else {
      assert r.dependency !in Tags(items);
    }
  }

  /** The place of a tag in the start order. */
  ghost function Rank(order: seq<Item>, t: string): (k: nat)
    requires t in Tags(order)
    ensures k < |order| && order[k].tag == t
  {
    var x :| x in order && x.tag == t;
    var k :| 0 <= k < |order| && order[k] == x;
    k
  }

  /** Along a chain of dependencies the start order strictly falls. */
  lemma {:induction false} ChainDescends(order: seq<Item>, p: seq<string>)
    requires DistinctTags(order) && DependenciesFirst(order)
    requires p != [] && IsChain(order, p) && p[0] in Tags(order)
    ensures p[|p| - 1] in Tags(order)
    ensures 1 < |p| ==> Rank(order, p[|p| - 1]) < Rank(order, p[0])
  {
    if 1 < |p| {
      assert DependsOn(order, p[0], p[1]);
      var x :| x in order && x.tag == p[0] && p[1] in x.dependencies;
      var k :| 0 <= k < |order| && order[k] == x;
      var r := Rank(order, p[0]);
      assert r == k;
      assert p[1] in Tags(order[..k]);
      var y :| y in order[..k] && y.tag == p[1];
      var j :| 0 <= j < k && order[..k][j] == y;
      assert y in order;
      var r1 := Rank(order, p[1]);
      assert r1 == j;
      forall i | 0 <= i < |p[1..]| - 1 ensures DependsOn(order, p[1..][i], p[1..][i + 1]) {
        assert DependsOn(order, p[i + 1], p[i + 2]);
      }
      ChainDescends(order, p[1..]);
    }
  }

  lemma OrderMeansAcyclic(order: seq<Item>)
    requires DistinctTags(order) && DependenciesFirst(order)
    ensures Acyclic(order) && DependenciesPresent(order)
  {
    forall p | IsCycle(order, p) ensures false {
      assert DependsOn(order, p[0], p[1]);
      var x :| x in order && x.tag == p[0];
      ChainDescends(order, p);
    }
    forall x, d | x in order && d in x.dependencies ensures d in Tags(order) {
      var k :| 0 <= k < |order| && order[k] == x;
      var y :| y in order[..k] && y.tag == d;
      assert y in order;
    }
  }

  lemma SameElementsSameGraph(a: seq<Item>, b: seq<Item>)
    requires forall x :: x in a <==> x in b
    requires Acyclic(a) && DependenciesPresent(a)
    ensures Acyclic(b) && DependenciesPresent(b)
  {
    assert Tags(a) == Tags(b);
    forall p | IsCycle(b, p) ensures false {
      forall i | 0 <= i < |p| - 1 ensures DependsOn(a, p[i], p[i + 1]) {
        assert DependsOn(b, p[i], p[i + 1]);
      }
      assert IsCycle(a, p);
    }
  }

  // ----- counting tags

  /** A list with one more item in front is distinct when the item's tag is new. */
  lemma DistinctCons(x: Item, rest: seq<Item>)
    ensures DistinctTags([x] + rest) <==> x.tag !in Tags(rest) && DistinctTags(rest)
    ensures Tags([x] + rest) == Tags(rest) + {x.tag}
  {
    var list := [x] + rest;
    if x.tag in Tags(rest) {
      var y :| y in rest && y.tag == x.tag;
      var i :| 0 <= i < |rest| && rest[i] == y;
      assert list[0].tag == list[i + 1].tag;
    } else if DistinctTags(rest) {
      forall i, j | 0 <= i < j < |list| ensures list[i].tag != list[j].tag {
        if i == 0 { assert rest[j - 1] in rest; } else { assert rest[i - 1].tag != rest[j - 1].tag; }
      }
    } else {
      var i, j :| 0 <= i < j < |rest| && rest[i].tag == rest[j].tag;
      assert list[i + 1].tag == list[j + 1].tag;
    }
  }

  lemma {:induction false} TagCount(items: seq<Item>)
    ensures |Tags(items)| <= |items|
    ensures |Tags(items)| == |items| <==> DistinctTags(items)
  {
    if items != [] {
      var x, rest := items[0], items[1..];
      assert items == [x] + rest;
      DistinctCons(x, rest);
      TagCount(rest);
      if x.tag in Tags(rest) { assert Tags(items) == Tags(rest); }
    }
  }

  lemma {:induction false} DistinctMultiset(items: seq<Item>, x: Item)
    requires DistinctTags(items)
    ensures multiset(items)[x] == if x in items then 1 else 0
  {
    if items != [] {
      var n := |items| - 1;
      assert items == items[..n] + [items[n]];
      DistinctMultiset(items[..n], x);
      assert items[n] !in items[..n];
    }
  }

  /** Distinctly tagged items that cover every tag of a distinct list are a rearrangement of it. */
  lemma OrderIsPermutation(items: seq<Item>, order: seq<Item>)
    requires DistinctTags(items) && DistinctTags(order)
    requires (forall x :: x in order ==> x in items) && Tags(order) == Tags(items)
    ensures multiset(order) == multiset(items) && |order| == |items|
    ensures forall x :: x in order <==> x in items
  {
    forall x | x in items ensures x in order {
      assert x.tag in Tags(order);
      var y :| y in order && y.tag == x.tag;
      var i :| 0 <= i < |items| && items[i] == x;
      var j :| 0 <= j < |items| && items[j] == y;
    }
    forall x ensures multiset(order)[x] == multiset(items)[x] {
      DistinctMultiset(items, x);
      DistinctMultiset(order, x);
    }
    TagCount(items);
    TagCount(order);
  }

  lemma TagsSnoc(order: seq<Item>, x: Item)
    ensures Tags(order + [x]) == Tags(order) + {x.tag}
  {
  }

  lemma AppendKeepsOrder(order: seq<Item>, x: Item)
    requires DependenciesFirst(order) && DistinctTags(order)
    requires x.tag !in Tags(order) && forall d :: d in x.dependencies ==> d in Tags(order)
    ensures DependenciesFirst(order + [x]) && DistinctTags(order + [x])
  {
    var longer := order + [x];
    forall k, d | 0 <= k < |longer| && d in longer[k].dependencies ensures d in Tags(longer[..k]) {
      if k < |order| {
        assert longer[..k] == order[..k] && d in order[k].dependencies;
      } else {
        assert longer[..k] == order;
      }
    }
    forall i | 0 <= i < |order| ensures longer[i].tag != x.tag { assert order[i] in order; }
  }

  lemma AllStarted(items: seq<Item>, order: seq<Item>)
    requires DependenciesFirst(order) && DistinctTags(order)
    requires (forall x :: x in order ==> x in items) && |Tags(order)| == |items|
    ensures DistinctTags(items) && DependenciesPresent(items) && Acyclic(items)
    ensures multiset(order) == multiset(items)
  {
    TagCount(items);
    assert Tags(order) <= Tags(items);
    SubsetEqual(Tags(order), Tags(items));
    OrderIsPermutation(items, order);
    OrderMeansAcyclic(order);
    SameElementsSameGraph(order, items);
  }

  lemma SubsetEqual(a: set<string>, b: set<string>)
    requires a <= b && |b| <= |a|
    ensures a == b
  {
    if a != b {
      var t :| t in b && t !in a;
      SubsetSize(a, b - {t});
    }
  }

  lemma SubsetSize(a: set<string>, b: set<string>)
    requires a <= b
    ensures |a| <= |b|
  {
    assert b == a + (b - a);
    assert a !! (b - a);
  }

  // ----- when a not-found report is wrong

  /** The report says that a listed item does not exist. */
  ghost predicate Misreports(items: seq<Item>, r: Outcome) {
    r.NotFound? && r.dependency in Tags(items)
  }

  /** Listed items that are not in the tag map (endpoints) depend on nothing. */
  ghost predicate HiddenAreFree(items: seq<Item>, byTag: map<string, Item>) {
    forall x :: x in items && x.tag !in byTag ==> x.dependencies == []
  }

  /** The first unstarted dependency of `x` is registered as `y`. */
  predicate WaitsFor(byTag: map<string, Item>, started: set<string>, x: Item, y: Item) {
    var d := FirstUnstarted(x.dependencies, started);
    d in byTag && byTag[d] == y && y.tag == d
  }

  /** The walk of the diagnosis: each item waits first for the next one, and no tag comes twice. */
  ghost predicate IsWalk(byTag: map<string, Item>, started: set<string>, p: seq<Item>) {
    p != [] &&
    (|p| > 1 ==>
       var front, last := p[..|p| - 1], p[|p| - 1];
       && IsWalk(byTag, started, front)
       && WaitsFor(byTag, started, front[|front| - 1], last) && last.tag !in TagList(front))
  }

  /** It ends at an item that waits first for a listed tag outside the map, other than the tag it began with. */
  ghost predicate EndsAtHidden(items: seq<Item>, byTag: map<string, Item>, started: set<string>, p: seq<Item>)
    requires p != []
  {
    var d := FirstUnstarted(p[|p| - 1].dependencies, started);
    d in Tags(items) && d !in byTag && d != p[0].tag
  }

  function TagList(p: seq<Item>): (tree: seq<string>)
    ensures |tree| == |p| && forall i :: 0 <= i < |p| ==> tree[i] == p[i].tag
  {
    seq(|p|, i requires 0 <= i < |p| => p[i].tag)
  }

  lemma WalkSnoc(byTag: map<string, Item>, started: set<string>, p: seq<Item>, next: Item)
    requires IsWalk(byTag, started, p)
    ensures IsWalk(byTag, started, p + [next])
            <==> WaitsFor(byTag, started, p[|p| - 1], next) && next.tag !in TagList(p)
  {
    assert (p + [next])[..|p|] == p;
  }

  lemma {:induction false} WalkPrefix(byTag: map<string, Item>, started: set<string>, q: seq<Item>, n: nat)
    requires IsWalk(byTag, started, q) && 0 < n <= |q|
    ensures IsWalk(byTag, started, q[..n])
  {
    if n < |q| {
      WalkPrefix(byTag, started, q[..|q| - 1], n);
      assert q[..|q| - 1][..n] == q[..n];
    } else {
      assert q[..n] == q;
    }
  }

  /** All but the first item of a walk are registered, so it has not met a tag outside the map. */
  lemma {:induction false} WalkMeetsRegistered(byTag: map<string, Item>, started: set<string>, p: seq<Item>, d: string)
    requires IsWalk(byTag, started, p) && d !in byTag && d != p[0].tag
    ensures d !in TagList(p)
  {
    if |p| > 1 {
      var front, last := p[..|p| - 1], p[|p| - 1];
      WalkMeetsRegistered(byTag, started, front, d);
      assert TagList(p) == TagList(front) + [last.tag];
    }
  }

  /** The walk that a wrong report has taken. */
  lemma {:induction false} WalkOfReport(items: seq<Item>, byTag: map<string, Item>, started: set<string>, p: seq<Item>)
    returns (q: seq<Item>)
    requires Registered(items, byTag) && IsWalk(byTag, started, p)
    requires Misreports(items, Lint(byTag, started, TagList(p), p[|p| - 1]))
    ensures p <= q && IsWalk(byTag, started, q) && EndsAtHidden(items, byTag, started, q)
    decreases |byTag.Keys - Elements(TagList(p))|
  {
    var tree, d := TagList(p), FirstUnstarted(p[|p| - 1].dependencies, started);
    if d in byTag {
      var longer := p + [byTag[d]];
      WalkSnoc(byTag, started, p, byTag[d]);
      assert TagList(longer) == tree + [d];
      assert byTag.Keys - Elements(tree + [d]) == byTag.Keys - Elements(tree) - {d};
      q := WalkOfReport(items, byTag, started, longer);
    } else {
      assert tree[0] == p[0].tag;
      q := p;
    }
  }

  /** The diagnosis follows such a walk from any of its items to its end. */
  lemma {:induction false} WalkIsReported(items: seq<Item>, byTag: map<string, Item>, started: set<string>,
          q: seq<Item>, n: nat)
    requires IsWalk(byTag, started, q) && EndsAtHidden(items, byTag, started, q) && 0 < n <= |q|
    ensures Misreports(items, Lint(byTag, started, TagList(q[..n]), q[n - 1]))
    decreases |q| - n
  {
    var d := FirstUnstarted(q[n - 1].dependencies, started);
    if n == |q| {
      assert q[..n] == q;
      WalkMeetsRegistered(byTag, started, q, d);
    } else {
      WalkPrefix(byTag, started, q, n + 1);
      assert q[..n + 1][..n] == q[..n];
      assert TagList(q[..n + 1]) == TagList(q[..n]) + [d];
      WalkIsReported(items, byTag, started, q, n + 1);
    }
  }

  ghost predicate LeadsToHidden(items: seq<Item>, byTag: map<string, Item>, started: set<string>, x: Item) {
    exists q :: q != [] && q[0] == x && IsWalk(byTag, started, q) && EndsAtHidden(items, byTag, started, q)
  }

  /**
    The diagnosis from an item denies a listed one if and only if the walk
    along first unstarted dependencies leads from it, through distinct
    registered items, to one that waits first for a listed tag outside the map.
   */
  lemma MisreportExactly(items: seq<Item>, byTag: map<string, Item>, started: set<string>, x: Item)
    requires Registered(items, byTag)
    ensures Misreports(items, Lint(byTag, started, [x.tag], x)) <==> LeadsToHidden(items, byTag, started, x)
  {
    assert TagList([x]) == [x.tag];
    if Misreports(items, Lint(byTag, started, [x.tag], x)) {
      var q := WalkOfReport(items, byTag, started, [x]);
    }
    if LeadsToHidden(items, byTag, started, x) {
      var q :| q != [] && q[0] == x && IsWalk(byTag, started, q) && EndsAtHidden(items, byTag, started, q);
      assert q[..1] == [x];
      WalkIsReported(items, byTag, started, q, 1);
    }
  }

  /** When the items outside the map depend on nothing, what is reported missing is missing. */
  lemma FreeMeansNoMisreport(items: seq<Item>, byTag: map<string, Item>, started: set<string>, r: Outcome)
    requires Stuck(items, started) && HiddenAreFree(items, byTag)
    requires r.NotFound? && TrueDiagnosis(items, byTag, started, r)
    ensures r.dependency !in Tags(items) && !DependenciesPresent(items)
  {
  }

  lemma DiagnoseStuck(items: seq<Item>, byTag: map<string, Item>, order: seq<Item>, x: Item)
    requires Registered(items, byTag) && Stuck(items, Tags(order)) && x in items && x.tag !in Tags(order)
    ensures TrueDiagnosis(items, byTag, Tags(order), Lint(byTag, Tags(order), [x.tag], x))
    ensures Lint(byTag, Tags(order), [x.tag], x).Circular? ==> !Acyclic(items)
    ensures Lint(byTag, Tags(order), [x.tag], x).NotFound? && HiddenAreFree(items, byTag) ==>
              Lint(byTag, Tags(order), [x.tag], x).dependency !in Tags(items) && !DependenciesPresent(items)
    ensures !(DependenciesPresent(items) && Acyclic(items))
  {
    LintIsTrue(items, byTag, Tags(order), [x.tag], x);
    var r := Lint(byTag, Tags(order), [x.tag], x);
    if r.Circular? { CircularHasCycle(items, r.chain); }
    StuckMeansUnstartable(items, Tags(order), x);
    if r.NotFound? && HiddenAreFree(items, byTag) { FreeMeansNoMisreport(items, byTag, Tags(order), r); }
  }

  // ----- the loop

  ghost predicate FirstUnstartedAt(items: seq<Item>, started: set<string>, k: int) {
    0 <= k < |items| && items[k].tag !in started && forall j :: 0 <= j < k ==> items[j].tag in started
  }

  /**
    Runs the start passes. `order` is the sequence of items whose start was
    attempted. The list may hold items that are not in the tag map (endpoints),
    and nothing is assumed about its tags.
   */
  method StartAll(items: seq<Item>, byTag: map<string, Item>, startFails: Item -> bool)
    returns (outcome: Outcome, order: seq<Item>)
    requires Registered(items, byTag)
    // each started item is listed, no tag starts twice, dependencies come first
    ensures forall x :: x in order ==> x in items
    ensures DistinctTags(order) && DependenciesFirst(order)
    // a failed start is the last one attempted
    ensures outcome.StartFailed? <==> exists x :: x in order && startFails(x)
    ensures outcome.StartFailed? ==> order != [] && order[|order| - 1] == outcome.item && startFails(outcome.item)
                                     && forall x :: x in order[..|order| - 1] ==> !startFails(x)
    // without a failed start: success exactly on distinct, closed and acyclic lists
    ensures outcome.Started? ==> multiset(order) == multiset(items)
    ensures !outcome.StartFailed? ==>
              (outcome.Started? <==> DistinctTags(items) && DependenciesPresent(items) && Acyclic(items))
    // otherwise nothing more could be started; the report is the diagnosis of the first unstarted item, and true
    ensures !outcome.StartFailed? ==> Stuck(items, Tags(order))
    ensures outcome.Circular? || outcome.NotFound? ==> TrueDiagnosis(items, byTag, Tags(order), outcome)
    ensures outcome.Circular? || outcome.NotFound? ==>
              exists k :: FirstUnstartedAt(items, Tags(order), k)
                          && outcome == Lint(byTag, Tags(order), [items[k].tag], items[k])
                          && (Misreports(items, outcome) <==> LeadsToHidden(items, byTag, Tags(order), items[k]))
    ensures outcome.Circular? ==> !Acyclic(items)
    // a report of a missing dependency is right when items outside the map depend on nothing
    ensures outcome.NotFound? && HiddenAreFree(items, byTag) ==>
              outcome.dependency !in Tags(items) && !DependenciesPresent(items)
    // the loop panics exactly when all tags start but some are listed twice
    ensures !outcome.StartFailed? ==>
              (outcome.NilDereference? <==> Tags(order) == Tags(items) && !DistinctTags(items))
  {
    var started: set<string> := {};
    order := [];
    while true
      invariant started == Tags(order)
      invariant forall x :: x in order ==> x in items && !startFails(x)
      invariant DistinctTags(order) && DependenciesFirst(order)
      decreases Tags(items) - started
    {
      var canContinue := false;
      ghost var before := started;
      for i := 0 to |items|
        invariant started == Tags(order)
        invariant forall x :: x in order ==> x in items && !startFails(x)
        invariant DistinctTags(order) && DependenciesFirst(order)
        invariant before <= started && (canContinue <==> started != before)
        invariant !canContinue ==> forall j :: 0 <= j < i ==> Settled(items[j], started)
      {
        var item := items[i];
        if item.tag !in started {
          var ready := AllIn(item.dependencies, started);
          if ready {
            TagsSnoc(order, item);
            AppendKeepsOrder(order, item);
            assert order == (order + [item])[..|order|];
            started := started + {item.tag};
            order := order + [item];
            canContinue := true;
            if startFails(item) {
              outcome := StartFailed(item);
              return;
            }
          }
        }
      }
      assert started <= Tags(items);
      if |started| == |items| {
        AllStarted(items, order);
        forall x | x in items ensures Settled(x, started) {
          assert multiset(items)[x] > 0;
          assert x in multiset(order);
        }
        outcome := Started;
        return;
      }
      if !canContinue {
        assert Stuck(items, started);
        var k := FirstUnstartedItem(items, started);
        if k == |items| {
          assert Tags(items) == started;
          TagCount(items);
          outcome := NilDereference;
        } else {
          DiagnoseStuck(items, byTag, order, items[k]);
          MisreportExactly(items, byTag, started, items[k]);
          assert FirstUnstartedAt(items, started, k);
          outcome := Lint(byTag, started, [items[k].tag], items[k]);
        }
        return;
      }
      assert Tags(items) - started < Tags(items) - before;
    }
  }

  method AllIn(dependencies: seq<string>, started: set<string>) returns (ready: bool)
    ensures ready <==> forall d :: d in dependencies ==> d in started
  {
    for i := 0 to |dependencies|
      invariant forall j :: 0 <= j < i ==> dependencies[j] in started
    {
      if dependencies[i] !in started { return false; }
    }
    return true;
  }

  method FirstUnstartedItem(items: seq<Item>, started: set<string>) returns (k: nat)
    ensures k <= |items| && (forall j :: 0 <= j < k ==> items[j].tag in started)
    ensures k < |items| ==> items[k].tag !in started
  {
    k := 0;
    while k < |items| && items[k].tag in started
      invariant k <= |items| && forall j :: 0 <= j < k ==> items[j].tag in started
    {
      k := k + 1;
    }
  }

  /**
    A "not found" report does not mean that the dependency is missing from the
    list: an outbound held back by an endpoint is told that the endpoint does
    not exist, because endpoints are listed but not in the tag map.
   */
  lemma EndpointReportedMissing(outbound: Item, endpoint: Item)
    requires outbound.tag == "proxy" && outbound.dependencies == ["wg"]
    requires endpoint.tag == "wg" && endpoint.dependencies == ["gone"]
    ensures var items, byTag := [outbound, endpoint], map["proxy" := outbound];
            && Registered(items, byTag) && Stuck(items, {})
            && Lint(byTag, {}, ["proxy"], outbound) == NotFound("wg", "proxy")
            && "wg" in Tags(items)
  {
    var items := [outbound, endpoint];
    assert endpoint in items;
    assert FirstUnstarted(["wg"], {}) == "wg";
    assert "wg" in outbound.dependencies && "gone" in endpoint.dependencies;
  }
}
