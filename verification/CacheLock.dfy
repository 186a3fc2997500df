/**
  The per-key lock of the DNS client as an interleaving of exchanges. The first
  exchange of a key stores a channel and leads; the others wait on that channel
  and, once it is closed, go on without a lock of their own. A leader removes
  the entry and then closes the channel, in two steps. Exchanges and lookups,
  which take no lock, may also start one background refresh per key.
 */
module CacheLock {

  type Key = string
  type Channel = nat
  type Thread = nat

  datatype Pc =
    | Enter(key: Key)                       // about to load or store the channel
    | Waiting(key: Key, channel: Channel)   // selecting on the channel and the context
    | Leading(key: Key, channel: Channel)   // runs with its own channel stored
    | Removed(key: Key, channel: Channel)   // the entry is deleted, the channel still open
    | Following(key: Key)                   // released by its leader
    | Refreshing(key: Key)                  // the background goroutine
    | Done

  datatype State = State(
    cacheLock: map<Key, Channel>,
    closed: set<Channel>,
    made: nat,                      // channels made so far
    backgroundRefresh: set<Key>,
    pc: map<Thread, Pc>)

  const INITIAL := State(map[], {}, 0, {}, map[])

  datatype Event =
    | Arrive(thread: Thread, key: Key)
    | LoadOrStore(thread: Thread)
    | ChannelClosed(thread: Thread)                  // a waiter is released
    | ContextDone(thread: Thread)                    // a waiter gives up
    | StartRefresh(thread: Thread, key: Key)         // of a new worker, by an exchange or by a lookup without a lock
    | Finish(thread: Thread)                         // one step towards the end of a call

  function Move(s: State, t: Thread, pc: Pc): State {
    s.(pc := s.pc[t := pc])
  }

  /** One step; an event that is not enabled changes nothing. */
  function Step(s: State, e: Event): State {
    match e
    case Arrive(t, key) => if t in s.pc then s else Move(s, t, Enter(key))
    case LoadOrStore(t) =>
      if t in s.pc && s.pc[t].Enter? then
        var key, channel := s.pc[t].key, s.made;
        var n := s.(made := s.made + 1);
        if key in s.cacheLock then Move(n, t, Waiting(key, s.cacheLock[key]))
        else Move(n.(cacheLock := s.cacheLock[key := channel]), t, Leading(key, channel))
      else s
    case ChannelClosed(t) =>
      if t in s.pc && s.pc[t].Waiting? && s.pc[t].channel in s.closed then Move(s, t, Following(s.pc[t].key)) else s
    case ContextDone(t) =>
      if t in s.pc && s.pc[t].Waiting? then Move(s, t, Done) else s
    case StartRefresh(t, key) =>
      if t in s.pc || key in s.backgroundRefresh then s
      else Move(s.(backgroundRefresh := s.backgroundRefresh + {key}), t, Refreshing(key))
    case Finish(t) =>
      if t !in s.pc then s
      else
        match s.pc[t]
        case Leading(key, channel) => Move(s.(cacheLock := s.cacheLock - {key}), t, Removed(key, channel))
        case Removed(key, channel) => Move(s.(closed := s.closed + {channel}), t, Done)
        case Following(key) => Move(s, t, Done)
        case Refreshing(key) => Move(s.(backgroundRefresh := s.backgroundRefresh - {key}), t, Done)
        case _ => s
  }

  function Run(events: seq<Event>): State {
    if events == [] then INITIAL else Step(Run(events[..|events| - 1]), events[|events| - 1])
  }

  // ----- the invariant, clause by clause

  /** A leader's entry is its own channel. */
  ghost predicate LeadersStored(s: State) {
    forall t :: t in s.pc && s.pc[t].Leading? ==>
      s.pc[t].key in s.cacheLock && s.cacheLock[s.pc[t].key] == s.pc[t].channel
  }

  /** Every entry has a running leader. */
  ghost predicate EntriesLed(s: State) {
    forall k :: k in s.cacheLock ==> exists t :: t in s.pc && s.pc[t] == Leading(k, s.cacheLock[k])
  }

  /** No channel has two owners. */
  ghost predicate OwnersUnique(s: State) {
    forall t, u ::
      t in s.pc && u in s.pc && Owned(s.pc[t]) && Owned(s.pc[u]) && s.pc[t].channel == s.pc[u].channel ==> t == u
  }

  predicate Owned(pc: Pc) {
    pc.Leading? || pc.Removed?
  }

  /** Owned channels are open, and all channels were made. */
  ghost predicate ChannelsOpen(s: State) {
    && (forall t :: t in s.pc && Owned(s.pc[t]) ==> s.pc[t].channel !in s.closed && s.pc[t].channel < s.made)
    && (forall c :: c in s.closed ==> c < s.made)
  }

  /** A waiter's channel is closed, or its owner is still there to close it. */
  ghost predicate WaitersServed(s: State) {
    forall t :: t in s.pc && s.pc[t].Waiting? ==>
      s.pc[t].channel in s.closed
      || exists u :: u in s.pc && Owned(s.pc[u]) && s.pc[u].channel == s.pc[t].channel && s.pc[u].key == s.pc[t].key
  }

  /** A worker's key is marked, and no two workers share one. */
  ghost predicate WorkersMarked(s: State) {
    && (forall t :: t in s.pc && s.pc[t].Refreshing? ==> s.pc[t].key in s.backgroundRefresh)
    && (forall t, u :: t in s.pc && u in s.pc && s.pc[t].Refreshing? && s.pc[t] == s.pc[u] ==> t == u)
  }

  /** A marked key has a worker. */
  ghost predicate MarksWorked(s: State) {
    forall k :: k in s.backgroundRefresh ==> exists t :: t in s.pc && s.pc[t] == Refreshing(k)
  }

  ghost predicate Inv(s: State) {
    && LeadersStored(s) && EntriesLed(s) && OwnersUnique(s)
    && ChannelsOpen(s) && WaitersServed(s) && WorkersMarked(s) && MarksWorked(s)
  }

  lemma LeadersStoredStep(s: State, e: Event)
    requires LeadersStored(s) && OwnersUnique(s)
    ensures LeadersStored(Step(s, e))
  {
  }

  lemma EntriesLedStep(s: State, e: Event)
    requires EntriesLed(s) && LeadersStored(s)
    ensures EntriesLed(Step(s, e))
  {
    var n := Step(s, e);
    forall k | k in n.cacheLock ensures exists t :: t in n.pc && n.pc[t] == Leading(k, n.cacheLock[k]) {
      if k in s.cacheLock {
        var t :| t in s.pc && s.pc[t] == Leading(k, s.cacheLock[k]);
        assert n.pc[t] == s.pc[t];
      } else {
        assert n.pc[e.thread] == Leading(k, n.cacheLock[k]);
      }
    }
  }

  lemma OwnersUniqueStep(s: State, e: Event)
    requires OwnersUnique(s) && ChannelsOpen(s)
    ensures OwnersUnique(Step(s, e))
  {
  }

  lemma ChannelsOpenStep(s: State, e: Event)
    requires ChannelsOpen(s) && OwnersUnique(s)
    ensures ChannelsOpen(Step(s, e))
  {
  }

  lemma WaitersServedStep(s: State, e: Event)
    requires WaitersServed(s) && EntriesLed(s)
    ensures WaitersServed(Step(s, e))
  {
    var n := Step(s, e);
    forall t | t in n.pc && n.pc[t].Waiting?
      ensures n.pc[t].channel in n.closed
              || exists u :: u in n.pc && Owned(n.pc[u])
                             && n.pc[u].channel == n.pc[t].channel && n.pc[u].key == n.pc[t].key
    {
      var key, c := n.pc[t].key, n.pc[t].channel;
      if t in s.pc && s.pc[t] == n.pc[t] {
        if c !in s.closed {
          var u :| u in s.pc && Owned(s.pc[u]) && s.pc[u].channel == c && s.pc[u].key == key;
          assert c in n.closed || (u in n.pc && Owned(n.pc[u]) && n.pc[u].channel == c && n.pc[u].key == key);
        }
      } else {
        var u :| u in s.pc && s.pc[u] == Leading(key, s.cacheLock[key]);
        assert n.pc[u] == s.pc[u];
      }
    }
  }

  lemma WorkersMarkedStep(s: State, e: Event)
    requires WorkersMarked(s)
    ensures WorkersMarked(Step(s, e))
  {
  }

  lemma MarksWorkedStep(s: State, e: Event)
    requires MarksWorked(s)
    ensures MarksWorked(Step(s, e))
  {
    var n := Step(s, e);
    forall k | k in n.backgroundRefresh ensures exists t :: t in n.pc && n.pc[t] == Refreshing(k) {
      if k in s.backgroundRefresh {
        var t :| t in s.pc && s.pc[t] == Refreshing(k);
        assert n.pc[t] == s.pc[t];
      } else {
        assert n.pc[e.thread] == Refreshing(k);
      }
    }
  }

  lemma {:induction false} RunKeepsInv(events: seq<Event>)
    ensures Inv(Run(events))
  {
    if events != [] {
      var s, e := Run(events[..|events| - 1]), events[|events| - 1];
      RunKeepsInv(events[..|events| - 1]);
      LeadersStoredStep(s, e);
      EntriesLedStep(s, e);
      OwnersUniqueStep(s, e);
      ChannelsOpenStep(s, e);
      WaitersServedStep(s, e);
      WorkersMarkedStep(s, e);
      MarksWorkedStep(s, e);
    }
  }

  // ----- what follows for every interleaving

  /** At most one exchange leads a key, and its entry is an open channel. */
  lemma OneLeaderPerKey(events: seq<Event>, t: Thread, u: Thread)
    requires var s := Run(events);
             t in s.pc && u in s.pc && s.pc[t].Leading? && s.pc[u].Leading? && s.pc[t].key == s.pc[u].key
    ensures t == u
    ensures var s := Run(events); s.pc[t].key in s.cacheLock && s.cacheLock[s.pc[t].key] !in s.closed
  {
    RunKeepsInv(events);
  }

  /**
    A leader deletes only its own entry, no channel is closed twice, and a
    waiter that its channel releases finds its leader's entry gone.
   */
  lemma StepsAreSafe(events: seq<Event>, t: Thread)
    ensures var s := Run(events);
            t in s.pc ==>
              && (s.pc[t].Leading? ==> s.pc[t].key in s.cacheLock && s.cacheLock[s.pc[t].key] == s.pc[t].channel)
              && (s.pc[t].Removed? ==> s.pc[t].channel !in s.closed)
              && (s.pc[t].Waiting? && s.pc[t].channel in s.closed ==>
                    (forall k :: k in s.cacheLock ==> s.cacheLock[k] != s.pc[t].channel)
                    && (forall u :: u in s.pc ==> !(Owned(s.pc[u]) && s.pc[u].channel == s.pc[t].channel)))
  {
    RunKeepsInv(events);
  }

  /** How an exchange or a worker can move on from where it stands. */
  ghost predicate Moves(s: State, n: State, t: Thread)
    requires t in s.pc && t in n.pc
  {
    match s.pc[t]
    case Enter(key) =>
      if key in s.cacheLock then n.pc[t] == Waiting(key, s.cacheLock[key])
      else n.pc[t] == Leading(key, s.made) && n.cacheLock == s.cacheLock[key := s.made]
    case Waiting(key, channel) => n.pc[t].Done? || (n.pc[t] == Following(key) && channel in s.closed)
    case Leading(key, channel) => n.pc[t] == Removed(key, channel) && n.cacheLock == s.cacheLock - {key}
    case Removed(key, channel) => n.pc[t].Done? && n.closed == s.closed + {channel}
    case Following(_) => n.pc[t].Done?
    case Refreshing(key) => n.pc[t].Done? && n.backgroundRefresh == s.backgroundRefresh - {key}
    case Done => false
  }

  /**
    In every run, each step moves at most one of them, along the protocol: an
    exchange that finds an entry waits for that channel and goes on only once
    it is closed, and the lock, the channels and the marks change with it alone.
   */
  lemma StepsFollowProtocol(events: seq<Event>, e: Event)
    ensures var s, n := Run(events), Step(Run(events), e);
            && (forall t :: t in s.pc ==> t in n.pc && (t != e.thread ==> n.pc[t] == s.pc[t]))
            && (forall t :: t in n.pc && t != e.thread ==> t in s.pc)
            && (n != s ==> e.thread in n.pc)
            && (n != s && e.thread in s.pc ==> Moves(s, n, e.thread))
            && (n != s && e.thread !in s.pc ==>
                  && n.cacheLock == s.cacheLock && n.closed == s.closed
                  && match n.pc[e.thread]
                     case Enter(_) => n.backgroundRefresh == s.backgroundRefresh
                     case Refreshing(key) =>
                       key !in s.backgroundRefresh && n.backgroundRefresh == s.backgroundRefresh + {key}
                     case _ => false)
  {
  }

  /** The owner of a channel closes it within two steps of its own. */
  lemma OwnerCloses(s: State, leader: Thread)
    requires leader in s.pc && Owned(s.pc[leader])
    ensures s.pc[leader].channel in Step(Step(s, Finish(leader)), Finish(leader)).closed
    ensures forall t :: t in s.pc && t != leader ==>
              && t in Step(Step(s, Finish(leader)), Finish(leader)).pc
              && Step(Step(s, Finish(leader)), Finish(leader)).pc[t] == s.pc[t]
  {
  }

  /** No waiter is forgotten: unless its channel is closed, its leader is two steps from closing it. */
  lemma WaitersGetReleased(events: seq<Event>, t: Thread) returns (leader: Thread)
    requires var s := Run(events); t in s.pc && s.pc[t].Waiting? && s.pc[t].channel !in s.closed
    ensures var s := Run(events);
            leader in s.pc && Owned(s.pc[leader]) && s.pc[leader].key == s.pc[t].key
            && s.pc[t].channel in Step(Step(s, Finish(leader)), Finish(leader)).closed
            && Step(Step(Step(s, Finish(leader)), Finish(leader)), ChannelClosed(t)).pc[t] == Following(s.pc[t].key)
  {
    RunKeepsInv(events);
    var s := Run(events);
    leader :| leader in s.pc && Owned(s.pc[leader])
              && s.pc[leader].channel == s.pc[t].channel && s.pc[leader].key == s.pc[t].key;
    OwnerCloses(s, leader);
  }

  /** At most one background refresh of a key is in flight, and the key is marked exactly while it is. */
  lemma OneRefreshPerKey(events: seq<Event>, k: Key)
    ensures var s := Run(events);
            && (k in s.backgroundRefresh <==> exists t :: t in s.pc && s.pc[t] == Refreshing(k))
            && forall t, u :: t in s.pc && u in s.pc && s.pc[t] == Refreshing(k) && s.pc[u] == Refreshing(k) ==> t == u
  {
    RunKeepsInv(events);
  }

  /** A key can be led again while the previous leader has still to close its channel. */
  lemma LeadersMayOverlapAcrossClose() returns (events: seq<Event>)
    ensures var s := Run(events); 0 in s.pc && s.pc[0] == Removed("k", 0) && 1 in s.pc && s.pc[1] == Leading("k", 1)
  {
    events := Extend([], Arrive(0, "k"));
    events := Extend(events, LoadOrStore(0));
    events := Extend(events, Finish(0));
    events := Extend(events, Arrive(1, "k"));
    events := Extend(events, LoadOrStore(1));
  }

  lemma Extend(events: seq<Event>, e: Event) returns (longer: seq<Event>)
    ensures Run(longer) == Step(Run(events), e)
  {
    longer := events + [e];
    assert longer[..|events|] == events;
  }
}
