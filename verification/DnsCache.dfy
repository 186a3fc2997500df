/**
  The DNS client's memory cache. Messages and records are heap objects that
  callers may keep and change, so the cache stores and hands out copies; the
  TTL of a cached answer counts down to its expiry, and an expired answer may
  be served for a while with TTL 1 when optimistic caching is on.
 */
module DnsCache {
  import opened Wrappers

  const SECOND: int := 1_000_000_000
  const TWO_32: int := 0x1_0000_0000

  const RCODE_SUCCESS: nat := 0
  const RCODE_NAME_ERROR: nat := 3

  // OPT is the EDNS pseudo-record, whose TTL field is not a TTL.
  datatype Kind = OPT | SOA(minimum: nat) | Plain

  // ----- the time to live of an answer, on values

  datatype RR = RR(kind: Kind, ttl: nat)

  datatype Sections = Sections(answer: seq<RR>, ns: seq<RR>, extra: seq<RR>)

  function All(s: Sections): seq<RR> {
    s.answer + s.ns + s.extra
  }

  function FirstSOA(records: seq<RR>): (r: Option<nat>)
    ensures r.None? <==> forall i :: 0 <= i < |records| ==> !records[i].kind.SOA?
  {
    if records == [] then None
    else if records[0].kind.SOA? then
      Some(if records[0].ttl < records[0].kind.minimum then records[0].ttl else records[0].kind.minimum)
    else FirstSOA(records[1..])
  }

  /** The smaller of TTL and minimum of the SOA at `i`, before which there is none. */
  ghost predicate IsFirstSOA(records: seq<RR>, i: int, t: nat) {
    && 0 <= i < |records| && records[i].kind.SOA? && (forall j :: 0 <= j < i ==> !records[j].kind.SOA?)
    && t <= records[i].ttl && t <= records[i].kind.minimum && (t == records[i].ttl || t == records[i].kind.minimum)
  }

  lemma {:induction false} FirstSOAMeans(records: seq<RR>) returns (i: int)
    requires FirstSOA(records).Some?
    ensures IsFirstSOA(records, i, FirstSOA(records).value)
  {
    if records[0].kind.SOA? {
      i := 0;
    } else {
      i := FirstSOAMeans(records[1..]);
      assert records[1..][i] == records[i + 1];
      assert forall j :: 0 < j < i + 1 ==> records[j] == records[1..][j - 1];
      i := i + 1;
    }
  }

  /** The smallest positive TTL over the records that have one, or 0. */
  ghost predicate IsLeastTTL(t: nat, records: seq<RR>) {
    && (forall i :: 0 <= i < |records| && !records[i].kind.OPT? && records[i].ttl > 0 ==> 0 < t <= records[i].ttl)
    && (t > 0 ==> exists i :: 0 <= i < |records| && !records[i].kind.OPT? && records[i].ttl == t)
  }

  /** The time to live of an answer: of the first SOA for an empty answer that has one, else the least TTL. */
  ghost predicate IsTimeToLive(t: nat, s: Sections) {
    if s.answer == [] && FirstSOA(s.ns).Some? then t == FirstSOA(s.ns).value else IsLeastTTL(t, All(s))
  }

  lemma TimeToLiveUnique(t: nat, u: nat, s: Sections)
    requires IsTimeToLive(t, s) && IsTimeToLive(u, s)
    ensures t == u
  {
  }

  function Reset(r: RR, t: nat): RR {
    if r.kind.OPT? then r else r.(ttl := t)
  }

  function Normalized(records: seq<RR>, t: nat): (n: seq<RR>)
    ensures |n| == |records| && forall i :: 0 <= i < |n| ==> n[i] == Reset(records[i], t)
  {
    if records == [] then [] else [Reset(records[0], t)] + Normalized(records[1..], t)
  }

  function NormalizedSections(s: Sections, t: nat): Sections {
    Sections(Normalized(s.answer, t), Normalized(s.ns, t), Normalized(s.extra, t))
  }

  lemma {:induction false} FirstSOANormalized(records: seq<RR>, t: nat)
    requires FirstSOA(records).Some? && FirstSOA(records).value == t
    ensures FirstSOA(Normalized(records, t)) == Some(t)
  {
    if !records[0].kind.SOA? {
      FirstSOANormalized(records[1..], t);
      assert Normalized(records, t)[1..] == Normalized(records[1..], t);
    }
  }

  /** Computing the time to live again after resetting all TTLs to it gives the same value. */
  lemma NormalizedIsFixed(s: Sections, t: nat)
    requires IsTimeToLive(t, s)
    ensures IsTimeToLive(t, NormalizedSections(s, t))
  {
    var n := NormalizedSections(s, t);
    var records, reset := All(s), All(n);
    assert forall i :: 0 <= i < |records| ==> reset[i] == Reset(records[i], t);
    if s.answer == [] && FirstSOA(s.ns).Some? {
      FirstSOANormalized(s.ns, t);
    } else if t > 0 {
      var i :| 0 <= i < |records| && !records[i].kind.OPT? && records[i].ttl == t;
      assert reset[i].ttl == t && !reset[i].kind.OPT?;
    }
  }

  // ----- messages on the heap

  // `data` stands for everything in a record but its kind and TTL.
  class Record {
    const kind: Kind
    const data: string
    var ttl: nat

    constructor (kind: Kind, data: string, ttl: nat)
      ensures this.kind == kind && this.data == data && this.ttl == ttl
    {
      this.kind, this.data := kind, data;
      this.ttl := ttl;
    }
  }

  /** The records say the same, TTLs apart. */
  ghost predicate SameRecords(a: seq<Record>, b: seq<Record>) {
    |a| == |b| && forall i :: 0 <= i < |a| ==> a[i].kind == b[i].kind && a[i].data == b[i].data
  }

  /** The messages say the same, ids and TTLs apart. */
  ghost predicate SameContent(a: Message, b: Message)
    reads a, b
  {
    && a.rcode == b.rcode
    && SameRecords(a.answer, b.answer) && SameRecords(a.ns, b.ns) && SameRecords(a.extra, b.extra)
  }

  class Message {
    var id: int
    var rcode: nat
    var answer: seq<Record>
    var ns: seq<Record>
    var extra: seq<Record>

    constructor (id: int, rcode: nat, answer: seq<Record>, ns: seq<Record>, extra: seq<Record>)
      ensures this.id == id && this.rcode == rcode
      ensures this.answer == answer && this.ns == ns && this.extra == extra
    {
      this.id, this.rcode := id, rcode;
      this.answer, this.ns, this.extra := answer, ns, extra;
    }

    ghost function Records(): set<Record>
      reads this
    {
      set r | r in answer + ns + extra
    }

    /** The message object and all it reaches. */
    ghost function Reach(): set<object>
      reads this
    {
      {this} + Records()
    }
  }

  ghost function ValuesOf(records: seq<Record>): (v: seq<RR>)
    reads records
    ensures |v| == |records| && forall i :: 0 <= i < |v| ==> v[i] == RR(records[i].kind, records[i].ttl)
  {
    seq(|records|, i requires 0 <= i < |records| reads records => RR(records[i].kind, records[i].ttl))
  }

  ghost function SectionsOf(m: Message): Sections
    reads m, m.Records()
  {
    Sections(ValuesOf(m.answer), ValuesOf(m.ns), ValuesOf(m.extra))
  }

  /** Every TTL of the message is `t`. */
  ghost predicate TTLsAre(m: Message, t: nat)
    reads m, m.Records()
  {
    forall r :: r in m.Records() && !r.kind.OPT? ==> r.ttl == t
  }

  lemma SameSectionsSameTTL(m: Message, c: Message, t: nat)
    requires SectionsOf(c) == SectionsOf(m) && TTLsAre(m, t)
    ensures TTLsAre(c, t)
  {
  }

  method CopyRecords(records: seq<Record>) returns (copies: seq<Record>)
    ensures |copies| == |records|
    ensures forall i :: 0 <= i < |copies| ==>
              fresh(copies[i]) && copies[i].ttl == records[i].ttl
    ensures SameRecords(copies, records)
  {
    copies := [];
    for i := 0 to |records|
      invariant |copies| == i
      invariant forall j :: 0 <= j < i ==>
                  fresh(copies[j]) && copies[j].kind == records[j].kind && copies[j].data == records[j].data
                  && copies[j].ttl == records[j].ttl
    {
      var c := new Record(records[i].kind, records[i].data, records[i].ttl);
      copies := copies + [c];
    }
  }

  method Copy(m: Message) returns (c: Message)
    ensures fresh(c.Reach())
    ensures c.id == m.id && SameContent(c, m)
    ensures SectionsOf(c) == SectionsOf(m)
  {
    var answer := CopyRecords(m.answer);
    var ns := CopyRecords(m.ns);
    var extra := CopyRecords(m.extra);
    c := new Message(m.id, m.rcode, answer, ns, extra);
    assert ValuesOf(c.answer) == ValuesOf(m.answer);
    assert ValuesOf(c.ns) == ValuesOf(m.ns);
    assert ValuesOf(c.extra) == ValuesOf(m.extra);
  }

  /** normalizeTTL: every TTL of the message becomes `t`, the OPT field stays. */
  method NormalizeTTL(m: Message, t: nat)
    modifies m.Records()
    ensures TTLsAre(m, t)
    ensures forall r :: r in m.Records() && r.kind.OPT? ==> r.ttl == old(r.ttl)
    ensures SectionsOf(m) == NormalizedSections(old(SectionsOf(m)), t)
  {
    ResetAll(m.answer + m.ns + m.extra, t);
    assert forall r :: r in m.Records() ==> r in m.answer + m.ns + m.extra;
    assert forall i :: 0 <= i < |m.answer| ==> m.answer[i] in m.Records();
    assert forall i :: 0 <= i < |m.ns| ==> m.ns[i] in m.Records();
    assert forall i :: 0 <= i < |m.extra| ==> m.extra[i] in m.Records();
    assert ValuesOf(m.answer) == Normalized(old(ValuesOf(m.answer)), t);
    assert ValuesOf(m.ns) == Normalized(old(ValuesOf(m.ns)), t);
    assert ValuesOf(m.extra) == Normalized(old(ValuesOf(m.extra)), t);
  }

  method ResetAll(records: seq<Record>, t: nat)
    modifies records
    ensures forall r :: r in records ==> r.ttl == if r.kind.OPT? then old(r.ttl) else t
  {
    for i := 0 to |records|
      invariant forall j :: 0 <= j < i ==> records[j].ttl == if records[j].kind.OPT? then old(records[j].ttl) else t
      invariant forall r :: r in records && r.kind.OPT? ==> r.ttl == old(r.ttl)
    {
      if !records[i].kind.OPT? { records[i].ttl := t; }
    }
  }

  /** extractNegativeTTL: the smaller of TTL and minimum of the first SOA. */
  method ExtractNegativeTTL(records: seq<Record>) returns (r: Option<nat>)
    ensures r == FirstSOA(ValuesOf(records))
  {
    ghost var values := ValuesOf(records);
    assert values[0..] == values;
    for i := 0 to |records|
      invariant values == ValuesOf(records) && FirstSOA(values) == FirstSOA(values[i..])
    {
      assert values[i..][1..] == values[i + 1..] && values[i..][0] == RR(records[i].kind, records[i].ttl);
      if records[i].kind.SOA? {
        var soaTTL, soaMinimum := records[i].ttl, records[i].kind.minimum;
        if soaTTL < soaMinimum { return Some(soaTTL); }
        return Some(soaMinimum);
      }
    }
    return None;
  }

  /** computeTimeToLive, with the accumulator that starts over at every zero. */
  method ComputeTimeToLive(m: Message) returns (timeToLive: nat)
    ensures IsTimeToLive(timeToLive, SectionsOf(m))
  {
    if |m.answer| == 0 {
      var soa := ExtractNegativeTTL(m.ns);
      if soa.Some? { return soa.value; }
    }
    timeToLive := LeastTTL(m.answer + m.ns + m.extra);
    assert ValuesOf(m.answer + m.ns + m.extra) == All(SectionsOf(m));
  }

  /** The scan over all sections. */
  method LeastTTL(records: seq<Record>) returns (t: nat)
    ensures IsLeastTTL(t, ValuesOf(records))
  {
    t := 0;
    ghost var values := ValuesOf(records);
    for i := 0 to |records|
      invariant IsLeastTTL(t, values[..i])
    {
      assert values[..i + 1] == values[..i] + [RR(records[i].kind, records[i].ttl)];
      LeastTTLSnoc(t, values[..i], RR(records[i].kind, records[i].ttl));
      if !records[i].kind.OPT? {
        if t == 0 || (records[i].ttl > 0 && records[i].ttl < t) { t := records[i].ttl; }
      }
    }
    assert values[..|records|] == values;
  }

  lemma LeastTTLSnoc(t: nat, records: seq<RR>, r: RR)
    requires IsLeastTTL(t, records)
    ensures IsLeastTTL(if !r.kind.OPT? && (t == 0 || (r.ttl > 0 && r.ttl < t)) then r.ttl else t, records + [r])
  {
    var longer := records + [r];
    assert longer[|records|] == r;
    if t > 0 {
      var i :| 0 <= i < |records| && !records[i].kind.OPT? && records[i].ttl == t;
      assert longer[i] == records[i];
    }
  }

  /** applyResponseOptions without the HTTPS hints: one TTL for all records, rewritten if asked. */
  method ApplyResponseOptions(response: Message, rewriteTTL: Option<nat>) returns (timeToLive: nat)
    modifies response.Records()
    ensures TTLsAre(response, timeToLive)
    ensures rewriteTTL.Some? ==> timeToLive == rewriteTTL.value
    ensures rewriteTTL.None? ==>
            IsTimeToLive(timeToLive, old(SectionsOf(response))) && IsTimeToLive(timeToLive, SectionsOf(response))
    ensures old(TTLsFit(response)) && (rewriteTTL.Some? ==> rewriteTTL.value < TWO_32) ==> timeToLive < TWO_32
  {
    if TTLsFit(response) { TimeToLiveFits(response); }
    timeToLive := ComputeTimeToLive(response);
    if rewriteTTL.None? { NormalizedIsFixed(SectionsOf(response), timeToLive); }
    if rewriteTTL.Some? { timeToLive := rewriteTTL.value; }
    NormalizeTTL(response, timeToLive);
  }

  /** A copy that keeps the one TTL of its original. */
  method CopyKeepingTTL(m: Message, t: nat) returns (c: Message)
    requires TTLsAre(m, t)
    ensures fresh(c.Reach()) && c.id == m.id && SameContent(c, m) && TTLsAre(c, t)
  {
    c := Copy(m);
    SameSectionsSameTTL(m, c, t);
  }

  method CopyWithTTL(m: Message, t: nat) returns (c: Message)
    ensures fresh(c.Reach()) && c.id == m.id && SameContent(c, m) && TTLsAre(c, t)
  {
    c := Copy(m);
    NormalizeTTL(c, t);
  }

  // ----- the cache

  type Key = (string, nat, string)

  // `lifetime` in seconds, `expireAt` in nanoseconds.
  datatype Entry = Entry(message: Message, lifetime: nat, expireAt: int)

  datatype QueryOptions = QueryOptions(disableCache: bool, disableOptimisticCache: bool, rewriteTTL: Option<nat>)

  // The verdict of a response checker, if the query has one.
  datatype Checker = NoChecker | Accepts | Rejects

  datatype Failure = ResponseRejected | TransportError

  predicate Cacheable(rcode: nat) {
    rcode == RCODE_SUCCESS || rcode == RCODE_NAME_ERROR
  }

  /** Successful answers and names that do not exist. */
  ghost predicate MayBeKept(rcode: nat) {
    rcode == 0 || rcode == 3
  }

  /** A checker refuses what cannot be cached and what it rejects. */
  ghost predicate IsRefused(checker: Checker, rcode: nat) {
    !checker.NoChecker? && (!MayBeKept(rcode) || checker.Rejects?)
  }

  /** The answer is refused, or gets its one TTL. */
  method CheckAndApply(response: Message, options: QueryOptions, checker: Checker, ghost received: Sections)
    returns (err: Option<Failure>, timeToLive: nat)
    requires received == SectionsOf(response)
    requires TTLsFit(response) && (options.rewriteTTL.Some? ==> options.rewriteTTL.value < TWO_32)
    modifies response.Records()
    ensures err == if IsRefused(checker, response.rcode) then Some(ResponseRejected) else None
    ensures err.None? ==>
              && timeToLive < TWO_32 && TTLsAre(response, timeToLive)
              && if options.rewriteTTL.Some? then timeToLive == options.rewriteTTL.value
                 else IsTimeToLive(timeToLive, received)
  {
    if !checker.NoChecker? && (!Cacheable(response.rcode) || checker.Rejects?) { return Some(ResponseRejected), 0; }
    timeToLive := ApplyResponseOptions(response, options.rewriteTTL);
    return None, timeToLive;
  }

  class Client {
    const disableCache: bool
    const disableExpire: bool
    const optimisticTimeout: int
    var cache: map<Key, Entry>

    // Everything the cached messages reach, and everything callers were handed.
    ghost var Repr: set<object>
    ghost var given: set<object>

    /** A cached message is a cacheable answer with one positive TTL, its lifetime. */
    ghost predicate GoodEntry(e: Entry)
      reads e.message, e.message.Records()
    {
      && MayBeKept(e.message.rcode)
      && 0 < e.lifetime < TWO_32
      && TTLsAre(e.message, e.lifetime)
    }

    ghost predicate Valid()
      reads this, Repr
    {
      && this !in Repr && this !in given && Repr !! given
      && forall k :: k in cache ==>
           && cache[k].message in Repr && cache[k].message.Reach() <= Repr
           && GoodEntry(cache[k])
    }

    constructor (disableCache: bool, disableExpire: bool, optimisticTimeout: int)
      ensures Valid() && cache == map[] && given == {} && Repr == {}
      ensures this.disableCache == disableCache && this.disableExpire == disableExpire
      ensures this.optimisticTimeout == optimisticTimeout
    {
      this.disableCache, this.disableExpire := disableCache, disableExpire;
      this.optimisticTimeout := optimisticTimeout;
      cache, Repr, given := map[], {}, {};
    }

    /** Objects outside the cache are now in a caller's hands. */
    ghost method HandOut(objects: set<object>)
      requires Valid() && objects !! Repr && this !in objects
      modifies this`given
      ensures Valid() && given == old(given) + objects
    {
      given := given + objects;
    }

    /** The entry says what the message says, and lasts as long as the message's TTL tells. */
    ghost predicate Kept(e: Entry, m: Message, now: int)
      reads e.message, m, m.Records()
    {
      SameContent(e.message, m) && TTLsAre(m, e.lifetime) && e.expireAt == now + e.lifetime * SECOND
    }

    /** The cache keeps a copy: the caller's message stays the caller's. */
    method StoreCache(key: Key, message: Message, timeToLive: nat, now: int)
      requires Valid() && timeToLive < TWO_32
      requires MayBeKept(message.rcode) && TTLsAre(message, timeToLive)
      modifies this`cache, this`Repr
      ensures Valid() && fresh(Repr - old(Repr))
      ensures if timeToLive == 0 then cache == old(cache)
              else && key in cache && cache == old(cache)[key := cache[key]]
                   && cache[key].lifetime == timeToLive && Kept(cache[key], message, now)
    {
      if timeToLive == 0 { return; }
      var copy := CopyKeepingTTL(message, timeToLive);
      Repr := Repr + copy.Reach();
      cache := cache[key := Entry(copy, timeToLive, now + timeToLive * SECOND)];
    }

    /** The least recently used entries may go at any time. */
    method Evict(keys: set<Key>)
      requires Valid()
      modifies this`cache
      ensures Valid() && cache == old(cache) - keys
    {
      cache := cache - keys;
    }

    /** A caller does what it likes with what it was handed. */
    method CallerChangesRecord(r: Record, ttl: nat)
      requires Valid() && r in given
      modifies r
      ensures Valid()
    {
      r.ttl := ttl;
    }

    method CallerChangesMessage(m: Message, rcode: nat, answer: seq<Record>)
      requires Valid() && m in given
      modifies m
      ensures Valid()
    {
      m.rcode := rcode;
      m.answer := answer;
    }

    predicate Stale(e: Entry, now: int) {
      !disableExpire && now > e.expireAt && optimisticTimeout > 0 && now < e.expireAt + optimisticTimeout
    }

    predicate Fresh(e: Entry, now: int) {
      disableExpire || now <= e.expireAt
    }

    /** The whole seconds left, as the uint32 that is written into the records. */
    function SecondsLeft(e: Entry, now: int): (t: nat)
      ensures now <= e.expireAt ==> now + t * SECOND <= e.expireAt
      ensures now <= e.expireAt && e.expireAt - e.lifetime * SECOND <= now && e.lifetime < TWO_32 ==>
                t <= e.lifetime && e.expireAt < now + (t + 1) * SECOND
    {
      if now <= e.expireAt then ((e.expireAt - now) / SECOND) % TWO_32 else 0
    }

    /** The TTL that a cached answer is handed out with. */
    function ServedTTL(e: Entry, now: int): nat {
      if Stale(e, now) then 1 else if disableExpire then e.lifetime else SecondsLeft(e, now)
    }

    /** loadResponse: a private copy with the TTL that is left, or 1 when it is stale. */
    method LoadResponse(key: Key, now: int) returns (response: Message?, isStale: bool)
      requires Valid()
      modifies this`cache, this`given
      ensures Valid() && given >= old(given) && Repr == old(Repr)
      ensures cache == if key in old(cache) && !Fresh(old(cache)[key], now) && !Stale(old(cache)[key], now)
                       then old(cache) - {key} else old(cache)
      ensures response == null <==> key !in old(cache) || !(Fresh(old(cache)[key], now) || Stale(old(cache)[key], now))
      ensures response != null ==>
                && fresh(response.Reach()) && response.Reach() <= given
                && SameContent(response, old(cache)[key].message)
                && (isStale <==> Stale(old(cache)[key], now))
                && TTLsAre(response, ServedTTL(old(cache)[key], now))
      ensures response == null ==> !isStale
    {
      if key !in cache { return null, false; }
      var entry := cache[key];
      if disableExpire {
        response := CopyKeepingTTL(entry.message, entry.lifetime);
        HandOut(response.Reach());
        return response, false;
      }
      if now > entry.expireAt {
        if optimisticTimeout > 0 && now < entry.expireAt + optimisticTimeout {
          response := CopyWithTTL(entry.message, 1);
          HandOut(response.Reach());
          return response, true;
        }
        cache := cache - {key};
        return null, false;
      }
      response := CopyWithTTL(entry.message, SecondsLeft(entry, now));
      HandOut(response.Reach());
      return response, false;
    }

    /** The cache answers the query: a fresh answer, or a stale one unless the query opted out. */
    predicate Answers(entries: map<Key, Entry>, key: Key, options: QueryOptions, now: int) {
      key in entries &&
      (Fresh(entries[key], now) || (Stale(entries[key], now) && !options.disableOptimisticCache))
    }

    /** questionCache: the lookup path's look at the cache. */
    method QuestionCache(key: Key, options: QueryOptions, now: int) returns (response: Message?, refresh: bool)
      requires Valid()
      modifies this`cache, this`given
      ensures Valid() && given >= old(given) && Repr == old(Repr)
      ensures response != null <==> Answers(old(cache), key, options, now)
      ensures refresh <==> response != null && Stale(old(cache)[key], now)
      ensures response != null ==>
                && fresh(response.Reach()) && response.Reach() <= given
                && SameContent(response, old(cache)[key].message)
                && TTLsAre(response, ServedTTL(old(cache)[key], now))
    {
      var isStale;
      response, isStale := LoadResponse(key, now);
      if response == null { return null, false; }
      if isStale && options.disableOptimisticCache { return null, false; }
      return response, isStale;
    }

    predicate UsesCache(options: QueryOptions, simple: bool) {
      simple && !disableCache && !options.disableCache
    }

    /** The one TTL of an accepted answer: the rewritten one, or the time to live of what the transport sent. */
    ghost predicate GetsTTL(m: Message, options: QueryOptions, received: Sections)
      reads m, m.Records()
    {
      if options.rewriteTTL.Some? then TTLsAre(m, options.rewriteTTL.value)
      else exists t: nat :: IsTimeToLive(t, received) && TTLsAre(m, t)
    }

    /**
      Exchange after the lock: the cache first, then the transport's answer
      (`upstream`, null for an error), checked, given one TTL, stored as a copy
      and handed out itself.
     */
    method Exchange(key: Key, id: int, options: QueryOptions, simple: bool, checker: Checker,
            upstream: Message?, now: int)
      returns (response: Message?, err: Option<Failure>, refresh: bool)
      requires Valid() && (options.rewriteTTL.Some? ==> options.rewriteTTL.value < TWO_32)
      requires upstream != null ==> upstream.Reach() !! Repr && TTLsFit(upstream)
      modifies this`cache, this`Repr, this`given
      modifies if upstream != null then upstream.Reach() else {}
      ensures Valid() && given >= old(given)
      ensures response != null ==> response.Reach() <= given
      ensures err.None? ==> response != null && response.id == id
      // a cached answer is a private copy; a stale one starts a refresh
      ensures UsesCache(options, simple) && Answers(old(cache), key, options, now) ==>
                && response != null && fresh(response.Reach()) && err.None? && cache == old(cache)
                && (refresh <==> Stale(old(cache)[key], now))
                && SameContent(response, cache[key].message)
                && TTLsAre(response, ServedTTL(cache[key], now))
      // otherwise the transport decides, and nothing stale is served
      ensures !(UsesCache(options, simple) && Answers(old(cache), key, options, now)) ==>
                && response == upstream && !refresh
                && err == (if upstream == null then Some(TransportError)
                           else if IsRefused(checker, old(upstream.rcode)) then Some(ResponseRejected) else None)
                && (err.None? ==> GetsTTL(response, options, old(SectionsOf(upstream))))
      // an accepted answer is kept, with the TTL and the content it is handed out with
      ensures (err.None? && response == upstream && UsesCache(options, simple) && MayBeKept(response.rcode)
               && !TTLsAre(response, 0)) ==> key in cache && Kept(cache[key], response, now)
    {
      var noCache := !simple || disableCache || options.disableCache;
      if !noCache {
        response, refresh := ExchangeCached(key, id, options, now);
        if response != null { return response, None, refresh; }
      }
      if upstream == null { return null, Some(TransportError), false; }
      err := ExchangeUpstream(key, id, options, !noCache, checker, upstream, now);
      return upstream, err, false;
    }

    /** The cache's answer to a query, with the query's id written into it. */
    method ExchangeCached(key: Key, id: int, options: QueryOptions, now: int)
      returns (response: Message?, isStale: bool)
      requires Valid()
      modifies this`cache, this`given
      ensures Valid() && given >= old(given) && Repr == old(Repr)
      ensures response != null <==> Answers(old(cache), key, options, now)
      ensures response != null ==>
                && cache == old(cache) && fresh(response.Reach()) && response.Reach() <= given && response.id == id
                && (isStale <==> Stale(cache[key], now))
                && SameContent(response, cache[key].message) && TTLsAre(response, ServedTTL(cache[key], now))
    {
      response, isStale := LoadResponse(key, now);
      if response == null || (isStale && options.disableOptimisticCache) { return null, false; }
      response.id := id;
    }

    /** The transport's answer to a query, with the query's id written into it. */
    method ExchangeUpstream(key: Key, id: int, options: QueryOptions, store: bool, checker: Checker,
            response: Message, now: int)
      returns (err: Option<Failure>)
      requires Valid() && (options.rewriteTTL.Some? ==> options.rewriteTTL.value < TWO_32)
      requires response.Reach() !! Repr && TTLsFit(response)
      modifies this`cache, this`Repr, this`given, response.Reach()
      ensures Valid() && given == old(given) + old(response.Reach()) && response.Reach() == old(response.Reach())
      ensures err == if IsRefused(checker, old(response.rcode)) then Some(ResponseRejected) else None
      ensures err.None? ==> response.id == id && GetsTTL(response, options, old(SectionsOf(response)))
      ensures err.None? && store && MayBeKept(response.rcode) && !TTLsAre(response, 0) ==>
                key in cache && Kept(cache[key], response, now)
    {
      var timeToLive;
      err, timeToLive := AcceptUpstream(key, options, store, checker, response, now, SectionsOf(response));
      if err.None? {
        assert TTLsAre(response, timeToLive) && response !in Repr;
        response.id := id;
        assert TTLsAre(response, timeToLive);
      }
    }

    /** An answer that came in is handed to the caller, checked, and given its one TTL. */
    method Receive(options: QueryOptions, checker: Checker, response: Message, ghost received: Sections)
      returns (err: Option<Failure>, timeToLive: nat)
      requires received == SectionsOf(response)
      requires Valid() && (options.rewriteTTL.Some? ==> options.rewriteTTL.value < TWO_32)
      requires response.Reach() !! Repr && TTLsFit(response)
      modifies this`given, response.Records()
      ensures Valid() && given == old(given) + response.Reach()
      ensures err == if IsRefused(checker, response.rcode) then Some(ResponseRejected) else None
      ensures err.None? ==>
                && timeToLive < TWO_32 && TTLsAre(response, timeToLive)
                && if options.rewriteTTL.Some? then timeToLive == options.rewriteTTL.value
                   else IsTimeToLive(timeToLive, received)
    {
      HandOut(response.Reach());
      err, timeToLive := CheckAndApply(response, options, checker, received);
    }

    /**
      The transport's answer, for a query and for a background refresh alike:
      checked, given one TTL, and stored as a copy when it may be cached.
     */
    method AcceptUpstream(key: Key, options: QueryOptions, store: bool, checker: Checker, response: Message, now: int,
                          ghost received: Sections)
      returns (err: Option<Failure>, timeToLive: nat)
      requires received == SectionsOf(response)
      requires Valid() && (options.rewriteTTL.Some? ==> options.rewriteTTL.value < TWO_32)
      requires response.Reach() !! Repr && TTLsFit(response)
      modifies this`cache, this`Repr, this`given, response.Records()
      ensures Valid() && fresh(Repr - old(Repr)) && given == old(given) + response.Reach()
      ensures err == if IsRefused(checker, response.rcode) then Some(ResponseRejected) else None
      ensures err.None? ==>
                && TTLsAre(response, timeToLive)
                && if options.rewriteTTL.Some? then timeToLive == options.rewriteTTL.value
                   else IsTimeToLive(timeToLive, received)
      ensures if err.None? && store && MayBeKept(response.rcode) && timeToLive > 0
              then && key in cache && cache == old(cache)[key := cache[key]]
                   && cache[key].lifetime == timeToLive && Kept(cache[key], response, now)
              else cache == old(cache)
    {
      err, timeToLive := Receive(options, checker, response, received);
      if err.None? && store && Cacheable(response.rcode) {
        StoreCache(key, response, timeToLive, now);
      }
    }
  }

  /** TTLs and SOA minimums are uint32 on the wire. */
  ghost predicate TTLsFit(m: Message)
    reads m, m.Records()
  {
    forall r :: r in m.Records() ==> r.ttl < TWO_32 && (r.kind.SOA? ==> r.kind.minimum < TWO_32)
  }

  lemma {:induction false} FirstSOAFits(records: seq<RR>)
    requires forall i :: 0 <= i < |records| ==> records[i].ttl < TWO_32
    ensures FirstSOA(records).Some? ==> FirstSOA(records).value < TWO_32
  {
    if records != [] && !records[0].kind.SOA? { FirstSOAFits(records[1..]); }
  }

  /** The time to live of a message from the wire is a uint32. */
  lemma TimeToLiveFits(m: Message)
    requires TTLsFit(m)
    ensures forall t: nat :: IsTimeToLive(t, SectionsOf(m)) ==> t < TWO_32
  {
    var s := SectionsOf(m);
    assert forall i :: 0 <= i < |m.ns| ==> m.ns[i] in m.Records();
    FirstSOAFits(s.ns);
    forall t: nat | IsTimeToLive(t, s) ensures t < TWO_32 {
      if !(s.answer == [] && FirstSOA(s.ns).Some?) && t > 0 {
        var i :| 0 <= i < |All(s)| && All(s)[i].ttl == t;
        var all := m.answer + m.ns + m.extra;
        assert All(s)[i] == RR(all[i].kind, all[i].ttl) && all[i] in m.Records();
      }
    }
  }
}
