/**
  The connection-event stream of the daemon and the client that replays it.
  The producer keeps a snapshot of counters per connection it has announced
  and sends NEW, UPDATE and CLOSED events; the client keeps a map of
  connections with running totals.
 */
module ConnectionEvents {
  import opened Wrappers

  type Id = nat

  // One reading of a tracked connection. The counters are read once for the
  // snapshot and once more for the announced connection; closedAt is 0 while open.
  datatype Sample = Sample(id: Id, upload: int, download: int, protoUpload: int, protoDownload: int, closedAt: nat)

  datatype Connection = Connection(uplinkTotal: int, downlinkTotal: int, closedAt: nat)

  datatype Event =
    | New(id: Id, connection: Connection)
    | Update(id: Id, uplinkDelta: int, downlinkDelta: int)
    | Closed(id: Id, closedAt: nat, lastSeen: Option<Connection>)

  datatype Snapshot = Snapshot(uplink: int, downlink: int, hadTraffic: bool)

  // ----- the client

  datatype ClientConnection = ClientConnection(
    uplink: int,
    downlink: int,
    uplinkTotal: int,
    downlinkTotal: int,
    closedAt: nat)

  type View = map<Id, ClientConnection>

  function Received(c: Connection): ClientConnection {
    ClientConnection(0, 0, c.uplinkTotal, c.downlinkTotal, c.closedAt)
  }

  /** One event applied by the client. */
  function Apply(view: View, e: Event): View {
    match e
    case New(id, connection) => view[id := Received(connection)]
    case Update(id, up, down) =>
      if id in view then
        var c := view[id];
        view[id := ClientConnection(up, down, c.uplinkTotal + up, c.downlinkTotal + down, c.closedAt)]
      else view
    case Closed(id, closedAt, Some(connection)) => view[id := Received(connection).(closedAt := closedAt)]
    case Closed(id, closedAt, None) =>
      if id in view then view[id := view[id].(uplink := 0, downlink := 0, closedAt := closedAt)] else view
  }

  function Replay(events: seq<Event>): View {
    if events == [] then map[] else Apply(Replay(events[..|events| - 1]), events[|events| - 1])
  }

  ghost function OpenIds(view: View): set<Id> {
    set id | id in view && view[id].closedAt == 0
  }

  // ----- what the stream as a whole must satisfy

  predicate IsZero(e: Event) {
    e.Update? && e.uplinkDelta == 0 && e.downlinkDelta == 0
  }

  /** The latest update of the connection, if any, is a zero one. */
  function LastUpdateZero(events: seq<Event>, id: Id): bool {
    if events == [] then false
    else
      var last := events[|events| - 1];
      if last.Update? && last.id == id then IsZero(last) else LastUpdateZero(events[..|events| - 1], id)
  }

  /** No connection gets two zero updates in a row. */
  ghost predicate ZerosAlternate(events: seq<Event>) {
    forall k :: 0 <= k < |events| && IsZero(events[k]) ==> !LastUpdateZero(events[..k], events[k].id)
  }

  ghost predicate DeltasNonNegative(events: seq<Event>) {
    forall k :: 0 <= k < |events| && events[k].Update? ==> events[k].uplinkDelta >= 0 && events[k].downlinkDelta >= 0
  }

  // The counters when a connection was announced, as snapshot and as sent.
  datatype Base = Base(uplink: int, downlink: int, sentUplink: int, sentDownlink: int)

  /**
    The producer's snapshots with the history of the stream: `stale` are
    connections announced open and then closed within the initial state,
    `rewound` those whose counters went backwards since they were announced.
   */
  datatype Ledger = Ledger(
    snapshots: map<Id, Snapshot>,
    sent: seq<Event>,
    stale: set<Id>,
    rewound: set<Id>,
    base: map<Id, Base>)

  const EMPTY_LEDGER := Ledger(map[], [], {}, {}, map[])

  /** The client holds open exactly the connections with a snapshot, but for the stale ones. */
  ghost predicate Coupled(l: Ledger) {
    l.stale <= l.snapshots.Keys && OpenIds(Replay(l.sent)) == l.snapshots.Keys - l.stale
  }

  /** The client's totals are the announced ones plus what the counters moved since. */
  ghost predicate Accounted(l: Ledger) {
    forall id :: id in l.snapshots && id !in l.stale && id !in l.rewound ==>
      && id in l.base && id in Replay(l.sent)
      && Replay(l.sent)[id].uplinkTotal == l.base[id].sentUplink + l.snapshots[id].uplink - l.base[id].uplink
      && Replay(l.sent)[id].downlinkTotal == l.base[id].sentDownlink + l.snapshots[id].downlink - l.base[id].downlink
  }

  ghost predicate TrafficRemembered(l: Ledger) {
    forall id :: id in l.snapshots && l.snapshots[id].hadTraffic ==> !LastUpdateZero(l.sent, id)
  }

  ghost predicate Balanced(l: Ledger) {
    && Coupled(l) && Accounted(l) && TrafficRemembered(l)
    && ZerosAlternate(l.sent) && DeltasNonNegative(l.sent)
  }

  // ----- the producer's moves

  function Announced(l: Ledger, s: Sample): Ledger {
    Ledger(l.snapshots[s.id := Snapshot(s.upload, s.download, false)],
           l.sent + [New(s.id, Connection(s.protoUpload, s.protoDownload, 0))],
           l.stale - {s.id}, l.rewound - {s.id},
           l.base[s.id := Base(s.upload, s.download, s.protoUpload, s.protoDownload)])
  }

  function AnnouncedClosed(l: Ledger, s: Sample): Ledger {
    l.(sent := l.sent + [New(s.id, Connection(s.protoUpload, s.protoDownload, s.closedAt))],
       stale := if s.id in l.snapshots then l.stale + {s.id} else l.stale)
  }

  function Moved(l: Ledger, s: Sample): Ledger
    requires s.id in l.snapshots
  {
    var previous := l.snapshots[s.id];
    l.(snapshots := l.snapshots[s.id := Snapshot(s.upload, s.download, true)],
       sent := l.sent + [Update(s.id, s.upload - previous.uplink, s.download - previous.downlink)])
  }

  function WentQuiet(l: Ledger, s: Sample): Ledger
    requires s.id in l.snapshots
  {
    l.(snapshots := l.snapshots[s.id := Snapshot(s.upload, s.download, false)], sent := l.sent + [Update(s.id, 0, 0)])
  }

  function Rewound(l: Ledger, s: Sample): Ledger
    requires s.id in l.snapshots
  {
    l.(snapshots := l.snapshots[s.id := Snapshot(s.upload, s.download, false)],
       sent := if l.snapshots[s.id].hadTraffic then l.sent + [Update(s.id, 0, 0)] else l.sent,
       rewound := l.rewound + {s.id})
  }

  function Ended(l: Ledger, id: Id, closedAt: nat, connection: Option<Connection>): Ledger {
    l.(snapshots := l.snapshots - {id}, sent := l.sent + [Closed(id, closedAt, connection)], stale := l.stale - {id})
  }

  lemma Sent(events: seq<Event>, e: Event, id: Id)
    ensures Replay(events + [e]) == Apply(Replay(events), e)
    ensures LastUpdateZero(events + [e], id)
            == if e.Update? && e.id == id then IsZero(e) else LastUpdateZero(events, id)
  {
  }

  lemma NewChangesOpen(events: seq<Event>, e: Event)
    requires e.New?
    ensures Replay(events + [e]) == Apply(Replay(events), e)
    ensures OpenIds(Replay(events + [e]))
            == if e.connection.closedAt == 0 then OpenIds(Replay(events)) + {e.id} else OpenIds(Replay(events)) - {e.id}
  {
  }

  lemma ClosedChangesOpen(events: seq<Event>, e: Event)
    requires e.Closed? && e.closedAt != 0
    ensures Replay(events + [e]) == Apply(Replay(events), e)
    ensures OpenIds(Replay(events + [e])) == OpenIds(Replay(events)) - {e.id}
  {
  }

  /** An update leaves the open connections as they are. */
  lemma UpdateKeepsOpen(events: seq<Event>, e: Event)
    requires e.Update?
    ensures Replay(events + [e]) == Apply(Replay(events), e)
    ensures OpenIds(Replay(events + [e])) == OpenIds(Replay(events))
  {
  }

  lemma SentOnce(events: seq<Event>, e: Event)
    requires ZerosAlternate(events) && DeltasNonNegative(events)
    requires IsZero(e) ==> !LastUpdateZero(events, e.id)
    requires e.Update? ==> e.uplinkDelta >= 0 && e.downlinkDelta >= 0
    ensures ZerosAlternate(events + [e]) && DeltasNonNegative(events + [e])
  {
    var longer := events + [e];
    forall k | 0 <= k < |longer| && IsZero(longer[k]) ensures !LastUpdateZero(longer[..k], longer[k].id) {
      if k < |events| { assert longer[..k] == events[..k]; } else { assert longer[..k] == events; }
    }
  }

  /** A snapshot that remembers traffic had it before and got no update since, or just got a nonzero one. */
  lemma TrafficStep(l: Ledger, n: Ledger, e: Event)
    requires TrafficRemembered(l) && n.sent == l.sent + [e]
    requires forall id :: id in n.snapshots && n.snapshots[id].hadTraffic ==>
               if e.Update? && e.id == id then !IsZero(e) else id in l.snapshots && l.snapshots[id].hadTraffic
    ensures TrafficRemembered(n)
  {
  }

  lemma AnnouncedCoupled(l: Ledger, s: Sample)
    requires Coupled(l)
    ensures Coupled(Announced(l, s))
  {
    NewChangesOpen(l.sent, New(s.id, Connection(s.protoUpload, s.protoDownload, 0)));
  }

  lemma AnnouncedAccounted(l: Ledger, s: Sample)
    requires Accounted(l)
    ensures Accounted(Announced(l, s))
  {
  }

  lemma AnnouncedBalanced(l: Ledger, s: Sample)
    requires Balanced(l)
    ensures Balanced(Announced(l, s))
  {
    var e := New(s.id, Connection(s.protoUpload, s.protoDownload, 0));
    SentOnce(l.sent, e);
    AnnouncedCoupled(l, s);
    AnnouncedAccounted(l, s);
    TrafficStep(l, Announced(l, s), e);
  }

  lemma AnnouncedClosedBalanced(l: Ledger, s: Sample)
    requires Balanced(l) && s.closedAt != 0
    ensures Balanced(AnnouncedClosed(l, s))
  {
    var e := New(s.id, Connection(s.protoUpload, s.protoDownload, s.closedAt));
    SentOnce(l.sent, e);
    NewChangesOpen(l.sent, e);
    TrafficStep(l, AnnouncedClosed(l, s), e);
  }

  /** After an update the snapshots cover the same connections. */
  ghost predicate Updated(l: Ledger, n: Ledger, e: Event) {
    && e.Update? && e.id in l.snapshots && n.sent == l.sent + [e]
    && n.snapshots.Keys == l.snapshots.Keys && n.stale == l.stale && n.base == l.base && l.rewound <= n.rewound
    && forall id :: id in l.snapshots && id != e.id ==> n.snapshots[id] == l.snapshots[id]
  }

  lemma UpdatedCoupled(l: Ledger, n: Ledger, e: Event)
    requires Coupled(l) && Updated(l, n, e)
    ensures Coupled(n)
  {
    UpdateKeepsOpen(l.sent, e);
  }

  lemma UpdatedAccounted(l: Ledger, n: Ledger, e: Event)
    requires Accounted(l) && Updated(l, n, e)
    requires e.id !in n.rewound ==>
               && n.snapshots[e.id].uplink == l.snapshots[e.id].uplink + e.uplinkDelta
               && n.snapshots[e.id].downlink == l.snapshots[e.id].downlink + e.downlinkDelta
    ensures Accounted(n)
  {
    UpdateKeepsOpen(l.sent, e);
  }

  lemma MovedBalanced(l: Ledger, s: Sample)
    requires Balanced(l) && s.id in l.snapshots
    requires s.upload >= l.snapshots[s.id].uplink && s.download >= l.snapshots[s.id].downlink
    requires s.upload > l.snapshots[s.id].uplink || s.download > l.snapshots[s.id].downlink
    ensures Balanced(Moved(l, s))
  {
    var previous := l.snapshots[s.id];
    var e := Update(s.id, s.upload - previous.uplink, s.download - previous.downlink);
    SentOnce(l.sent, e);
    UpdatedCoupled(l, Moved(l, s), e);
    UpdatedAccounted(l, Moved(l, s), e);
    TrafficStep(l, Moved(l, s), e);
  }

  lemma WentQuietBalanced(l: Ledger, s: Sample)
    requires Balanced(l) && s.id in l.snapshots && l.snapshots[s.id].hadTraffic
    requires s.upload == l.snapshots[s.id].uplink && s.download == l.snapshots[s.id].downlink
    ensures Balanced(WentQuiet(l, s))
  {
    var e := Update(s.id, 0, 0);
    SentOnce(l.sent, e);
    UpdatedCoupled(l, WentQuiet(l, s), e);
    UpdatedAccounted(l, WentQuiet(l, s), e);
    TrafficStep(l, WentQuiet(l, s), e);
  }

  lemma RewoundBalanced(l: Ledger, s: Sample)
    requires Balanced(l) && s.id in l.snapshots
    ensures Balanced(Rewound(l, s))
  {
    if l.snapshots[s.id].hadTraffic {
      var e := Update(s.id, 0, 0);
      SentOnce(l.sent, e);
      UpdatedCoupled(l, Rewound(l, s), e);
      UpdatedAccounted(l, Rewound(l, s), e);
      TrafficStep(l, Rewound(l, s), e);
    }
  }

  lemma EndedBalanced(l: Ledger, id: Id, closedAt: nat, connection: Option<Connection>)
    requires Balanced(l) && closedAt != 0
    ensures Balanced(Ended(l, id, closedAt, connection))
  {
    var e := Closed(id, closedAt, connection);
    SentOnce(l.sent, e);
    ClosedChangesOpen(l.sent, e);
    TrafficStep(l, Ended(l, id, closedAt, connection), e);
  }

  predicate Decreased(l: Ledger, s: Sample)
    requires s.id in l.snapshots
  {
    s.upload < l.snapshots[s.id].uplink || s.download < l.snapshots[s.id].downlink
  }

  /** A tick's effect on one active connection. */
  function Ticked(l: Ledger, s: Sample): Ledger {
    if s.id !in l.snapshots then Announced(l, s)
    else if Decreased(l, s) then Rewound(l, s)
    else if s.upload > l.snapshots[s.id].uplink || s.download > l.snapshots[s.id].downlink then Moved(l, s)
    else if l.snapshots[s.id].hadTraffic then WentQuiet(l, s)
    else l
  }

  lemma TickedBalanced(l: Ledger, s: Sample)
    requires Balanced(l)
    ensures Balanced(Ticked(l, s))
  {
    if s.id !in l.snapshots { AnnouncedBalanced(l, s); }
    else if Decreased(l, s) { RewoundBalanced(l, s); }
    else if s.upload > l.snapshots[s.id].uplink || s.download > l.snapshots[s.id].downlink { MovedBalanced(l, s); }
    else if l.snapshots[s.id].hadTraffic { WentQuietBalanced(l, s); }
  }

  /** With counters that do not go backwards, nothing that was announced loses its account. */
  lemma TickedKeepsAccounts(l: Ledger, s: Sample)
    requires l.stale <= l.snapshots.Keys
    ensures var n := Ticked(l, s);
            && n.snapshots.Keys == l.snapshots.Keys + {s.id} && n.stale == l.stale
            && n.snapshots[s.id].uplink == s.upload && n.snapshots[s.id].downlink == s.download
            && (forall id :: id in l.snapshots && id != s.id ==> n.snapshots[id] == l.snapshots[id])
            && (forall id :: id in l.snapshots && id in l.base ==> id in n.base && n.base[id] == l.base[id])
            && n.rewound == if s.id !in l.snapshots then l.rewound - {s.id}
                            else if Decreased(l, s) then l.rewound + {s.id} else l.rewound
  {
  }

  // ----- every run of moves

  datatype Move =
    | Announce(sample: Sample)
    | AnnounceClosed(sample: Sample)
    | Tick(sample: Sample)
    | End(id: Id, closedAt: nat, connection: Option<Connection>)

  function Make(l: Ledger, m: Move): Ledger {
    match m
    case Announce(s) => Announced(l, s)
    case AnnounceClosed(s) => AnnouncedClosed(l, s)
    case Tick(s) => Ticked(l, s)
    case End(id, closedAt, connection) => Ended(l, id, closedAt, connection)
  }

  function MakeAll(moves: seq<Move>): Ledger {
    if moves == [] then EMPTY_LEDGER else Make(MakeAll(moves[..|moves| - 1]), moves[|moves| - 1])
  }

  predicate HasClosingTime(m: Move) {
    (m.AnnounceClosed? ==> m.sample.closedAt != 0) && (m.End? ==> m.closedAt != 0)
  }

  /**
    Whatever the connections do, the client's open connections are those with
    a snapshot but for the stale ones, its totals are accounted for, deltas are
    never negative and no connection gets two zero updates in a row.
   */
  lemma {:induction false} EveryRunIsBalanced(moves: seq<Move>)
    requires forall i :: 0 <= i < |moves| ==> HasClosingTime(moves[i])
    ensures Balanced(MakeAll(moves))
  {
    if moves != [] {
      var front, last := moves[..|moves| - 1], moves[|moves| - 1];
      EveryRunIsBalanced(front);
      var l := MakeAll(front);
      assert HasClosingTime(last);
      match last
      case Announce(s) => AnnouncedBalanced(l, s);
      case AnnounceClosed(s) => AnnouncedClosedBalanced(l, s);
      case Tick(s) => TickedBalanced(l, s);
      case End(id, closedAt, connection) => EndedBalanced(l, id, closedAt, connection);
    }
  }

  // ----- what the client shows

  function At(view: View, id: Id): Option<ClientConnection> {
    if id in view then Some(view[id]) else None
  }

  /** A connection as the sample has it: nothing moved yet, the totals that were read, open or closed. */
  function Shown(s: Sample, closedAt: nat): ClientConnection {
    ClientConnection(0, 0, s.protoUpload, s.protoDownload, closedAt)
  }

  /** The last sample of a connection in a list. */
  function LastOf(samples: seq<Sample>, id: Id): Option<Sample> {
    if samples == [] then None
    else if samples[|samples| - 1].id == id then Some(samples[|samples| - 1])
    else LastOf(samples[..|samples| - 1], id)
  }

  lemma AnnouncedShows(l: Ledger, s: Sample, id: Id)
    ensures At(Replay(Announced(l, s).sent), id) == if id == s.id then Some(Shown(s, 0)) else At(Replay(l.sent), id)
    ensures At(Replay(AnnouncedClosed(l, s).sent), id)
            == if id == s.id then Some(Shown(s, s.closedAt)) else At(Replay(l.sent), id)
  {
    Sent(l.sent, New(s.id, Connection(s.protoUpload, s.protoDownload, 0)), id);
    Sent(l.sent, New(s.id, Connection(s.protoUpload, s.protoDownload, s.closedAt)), id);
  }

  /** A CLOSED replaces the connection by the one it carries, or ends what the client has. */
  lemma EndedShows(l: Ledger, ended: Id, closedAt: nat, connection: Option<Connection>, id: Id)
    ensures var before, after := At(Replay(l.sent), id), At(Replay(Ended(l, ended, closedAt, connection).sent), id);
            if id != ended then after == before
            else match connection
                 case Some(c) => after == Some(ClientConnection(0, 0, c.uplinkTotal, c.downlinkTotal, closedAt))
                 case None =>
                   if before.None? then after.None?
                   else
                     var c := before.value;
                     after == Some(ClientConnection(0, 0, c.uplinkTotal, c.downlinkTotal, closedAt))
  {
    Sent(l.sent, Closed(ended, closedAt, connection), id);
  }

  /** A tick of a known connection moves its totals by what its counters moved forward, and nothing else. */
  lemma TickedShows(l: Ledger, s: Sample, id: Id)
    requires s.id in l.snapshots
    ensures var before, after := At(Replay(l.sent), id), At(Replay(Ticked(l, s).sent), id);
            if id != s.id || before.None? then after == before
            else
              var previous, c := l.snapshots[s.id], before.value;
              var back := s.upload < previous.uplink || s.download < previous.downlink;
              var up := if back then 0 else s.upload - previous.uplink;
              var down := if back then 0 else s.download - previous.downlink;
              && after.Some? && after.value.closedAt == c.closedAt
              && after.value.uplinkTotal == c.uplinkTotal + up && after.value.downlinkTotal == c.downlinkTotal + down
              && (up > 0 || down > 0 ==> after.value.uplink == up && after.value.downlink == down)
              && (up == 0 && down == 0 && previous.hadTraffic ==> after.value.uplink == 0 && after.value.downlink == 0)
              && (up == 0 && down == 0 && !previous.hadTraffic ==> after == before)
  {
    var previous := l.snapshots[s.id];
    Sent(l.sent, Update(s.id, s.upload - previous.uplink, s.download - previous.downlink), id);
    Sent(l.sent, Update(s.id, 0, 0), id);
  }

  // ----- the speeds shown

  /** A snapshot remembers traffic exactly while the client shows some. */
  ghost predicate SpeedsRemembered(l: Ledger) {
    forall id :: id in l.snapshots && id !in l.stale && id in Replay(l.sent) ==>
      (l.snapshots[id].hadTraffic <==> Replay(l.sent)[id].uplink != 0 || Replay(l.sent)[id].downlink != 0)
  }

  lemma SpeedStep(l: Ledger, m: Move)
    requires SpeedsRemembered(l)
    ensures SpeedsRemembered(Make(l, m))
  {
    var n := Make(l, m);
    forall id | id in n.snapshots && id !in n.stale && id in Replay(n.sent)
      ensures n.snapshots[id].hadTraffic <==> Replay(n.sent)[id].uplink != 0 || Replay(n.sent)[id].downlink != 0
    {
      assert At(Replay(n.sent), id).Some?;
      match m
      case Announce(s) => AnnouncedShows(l, s, id);
      case AnnounceClosed(s) => AnnouncedShows(l, s, id);
      case Tick(s) =>
        if s.id in l.snapshots { TickedShows(l, s, id); } else { AnnouncedShows(l, s, id); }
      case End(ended, closedAt, connection) => EndedShows(l, ended, closedAt, connection, id);
    }
  }

  lemma {:induction false} EveryRunRemembersSpeeds(moves: seq<Move>)
    ensures SpeedsRemembered(MakeAll(moves))
  {
    if moves != [] {
      EveryRunRemembersSpeeds(moves[..|moves| - 1]);
      SpeedStep(MakeAll(moves[..|moves| - 1]), moves[|moves| - 1]);
    }
  }

  /**
    In every run, a tick leaves the client with the movement since the last
    reading as its speeds: they fall back to zero as soon as nothing moves.
   */
  lemma SpeedsAreLastMovement(moves: seq<Move>, s: Sample)
    requires var l := MakeAll(moves); s.id in l.snapshots && s.id !in l.stale && s.id in Replay(l.sent)
    ensures var l := MakeAll(moves);
            var previous, after := l.snapshots[s.id], At(Replay(Ticked(l, s).sent), s.id);
            var back := s.upload < previous.uplink || s.download < previous.downlink;
            && after.Some?
            && after.value.uplink == (if back then 0 else s.upload - previous.uplink)
            && after.value.downlink == if back then 0 else s.download - previous.downlink
  {
    EveryRunRemembersSpeeds(moves);
    TickedShows(MakeAll(moves), s, s.id);
  }

  // ----- totals from the samples alone

  /** The producer follows the connection: it was announced or seen active, and not ended since. */
  ghost predicate Tracked(moves: seq<Move>, id: Id) {
    moves != [] &&
    var front := moves[..|moves| - 1];
    match moves[|moves| - 1]
    case Announce(s) => s.id == id || Tracked(front, id)
    case Tick(s) => s.id == id || Tracked(front, id)
    case AnnounceClosed(_) => Tracked(front, id)
    case End(ended, _, _) => ended != id && Tracked(front, id)
  }

  /** The sample the connection was last announced with. */
  ghost function Announcer(moves: seq<Move>, id: Id): Option<Sample> {
    if moves == [] then None
    else
      var front := moves[..|moves| - 1];
      match moves[|moves| - 1]
      case Announce(s) => if s.id == id then Some(s) else Announcer(front, id)
      case Tick(s) => if s.id == id && !Tracked(front, id) then Some(s) else Announcer(front, id)
      case _ => Announcer(front, id)
  }

  /** The last sample of the connection. */
  ghost function LatestSample(moves: seq<Move>, id: Id): Option<Sample> {
    if moves == [] then None
    else
      var front := moves[..|moves| - 1];
      match moves[|moves| - 1]
      case Announce(s) => if s.id == id then Some(s) else LatestSample(front, id)
      case Tick(s) => if s.id == id then Some(s) else LatestSample(front, id)
      case _ => LatestSample(front, id)
  }

  /** Since it was announced, the connection was not announced closed, and its counters did not go backwards. */
  ghost predicate Steady(moves: seq<Move>, id: Id) {
    Tracked(moves, id) &&
    var front := moves[..|moves| - 1];
    match moves[|moves| - 1]
    case Announce(s) => s.id == id || Steady(front, id)
    case Tick(s) =>
      if s.id != id then Steady(front, id)
      else Tracked(front, id) ==>
             && Steady(front, id) && LatestSample(front, id).Some?
             && s.upload >= LatestSample(front, id).value.upload && s.download >= LatestSample(front, id).value.download
    case AnnounceClosed(s) => s.id != id && Steady(front, id)
    case End(_, _, _) => Steady(front, id)
  }

  /** The ledger says of a connection what the samples say. */
  ghost predicate LedgerFits(l: Ledger, a: Sample, latest: Sample, id: Id) {
    && id in l.snapshots && id in l.base
    && l.base[id] == Base(a.upload, a.download, a.protoUpload, a.protoDownload)
    && l.snapshots[id].uplink == latest.upload && l.snapshots[id].downlink == latest.download
  }

  lemma {:induction false} LedgerFollowsSamples(moves: seq<Move>, id: Id)
    ensures Tracked(moves, id) <==> id in MakeAll(moves).snapshots
    ensures Tracked(moves, id) ==>
              && Announcer(moves, id).Some? && LatestSample(moves, id).Some?
              && LedgerFits(MakeAll(moves), Announcer(moves, id).value, LatestSample(moves, id).value, id)
  {
    if moves != [] { LedgerFollowsSamples(moves[..|moves| - 1], id); }
  }

  lemma {:induction false} SteadyIsAccounted(moves: seq<Move>, id: Id)
    requires Steady(moves, id)
    ensures id !in MakeAll(moves).stale && id !in MakeAll(moves).rewound
  {
    var front := moves[..|moves| - 1];
    LedgerFollowsSamples(front, id);
    if Steady(front, id) { SteadyIsAccounted(front, id); }
  }

  /**
    In every run, for a connection that is followed and steady, the client has
    it open, with the totals it was announced with plus what its counters have
    moved from that sample to the last one.
   */
  lemma TotalsFromSamples(moves: seq<Move>, id: Id)
    requires forall i :: 0 <= i < |moves| ==> HasClosingTime(moves[i])
    requires Steady(moves, id)
    ensures Announcer(moves, id).Some? && LatestSample(moves, id).Some? && id in Replay(MakeAll(moves).sent)
    ensures var a, latest := Announcer(moves, id).value, LatestSample(moves, id).value;
            var c := Replay(MakeAll(moves).sent)[id];
            && c.closedAt == 0
            && c.uplinkTotal == a.protoUpload + latest.upload - a.upload
            && c.downlinkTotal == a.protoDownload + latest.download - a.download
  {
    EveryRunIsBalanced(moves);
    LedgerFollowsSamples(moves, id);
    SteadyIsAccounted(moves, id);
    assert id in OpenIds(Replay(MakeAll(moves).sent));
  }

  function Announces(active: seq<Sample>): seq<Move> {
    seq(|active|, i requires 0 <= i < |active| => Announce(active[i]))
  }

  function InitialMoves(active: seq<Sample>, closed: seq<Sample>): seq<Move> {
    Announces(active) + seq(|closed|, i requires 0 <= i < |closed| => AnnounceClosed(closed[i]))
  }

  lemma AnnouncesSnoc(active: seq<Sample>, s: Sample)
    ensures MakeAll(Announces(active + [s])) == Announced(MakeAll(Announces(active)), s)
  {
    var moves := Announces(active + [s]);
    assert moves[..|moves| - 1] == Announces(active);
  }

  lemma InitialSnoc(active: seq<Sample>, closed: seq<Sample>, s: Sample)
    ensures MakeAll(InitialMoves(active, closed + [s])) == AnnouncedClosed(MakeAll(InitialMoves(active, closed)), s)
  {
    var moves := InitialMoves(active, closed + [s]);
    assert moves[..|moves| - 1] == InitialMoves(active, closed);
  }

  lemma {:induction false} AnnouncesFacts(active: seq<Sample>)
    ensures var l := MakeAll(Announces(active)); l.snapshots.Keys == Ids(active) && l.stale == {} && l.rewound == {}
  {
    if active != [] {
      var front, last := active[..|active| - 1], active[|active| - 1];
      assert active == front + [last];
      AnnouncesFacts(front);
      AnnouncesSnoc(front, last);
      IdsSnoc(front, last);
    }
  }

  lemma {:induction false} InitialFacts(active: seq<Sample>, closed: seq<Sample>)
    ensures var l := MakeAll(InitialMoves(active, closed));
            l.snapshots.Keys == Ids(active) && l.stale == Ids(active) * Ids(closed) && l.rewound == {}
  {
    if closed == [] {
      assert InitialMoves(active, closed) == Announces(active);
      AnnouncesFacts(active);
    } else {
      var front, last := closed[..|closed| - 1], closed[|closed| - 1];
      assert closed == front + [last];
      InitialFacts(active, front);
      InitialSnoc(active, front, last);
      IdsSnoc(front, last);
    }
  }

  // ----- the producer

  /** The first message shows closed connections as the closed list has them, and the other active ones as open. */
  function InitialView(active: seq<Sample>, closed: seq<Sample>, id: Id): Option<ClientConnection> {
    match LastOf(closed, id)
    case Some(s) => Some(Shown(s, s.closedAt))
    case None =>
      match LastOf(active, id)
      case Some(s) => Some(Shown(s, 0))
      case None => None
  }

  lemma {:induction false} AnnouncesShow(active: seq<Sample>, id: Id)
    ensures At(Replay(MakeAll(Announces(active)).sent), id) == InitialView(active, [], id)
  {
    if active != [] {
      var front, last := active[..|active| - 1], active[|active| - 1];
      assert active == front + [last];
      AnnouncesShow(front, id);
      AnnouncesSnoc(front, last);
      AnnouncedShows(MakeAll(Announces(front)), last, id);
    }
  }

  lemma {:induction false} InitialShows(active: seq<Sample>, closed: seq<Sample>, id: Id)
    ensures At(Replay(MakeAll(InitialMoves(active, closed)).sent), id) == InitialView(active, closed, id)
  {
    if closed == [] {
      assert InitialMoves(active, closed) == Announces(active);
      AnnouncesShow(active, id);
    } else {
      var front, last := closed[..|closed| - 1], closed[|closed| - 1];
      assert closed == front + [last];
      InitialShows(active, front, id);
      InitialSnoc(active, front, last);
      AnnouncedShows(MakeAll(InitialMoves(active, front)), last, id);
    }
  }

  /** When a connection that is gone was closed: as the sample says, or now. */
  function ClosingTime(s: Option<Sample>, now: nat): nat {
    if s.Some? && s.value.closedAt != 0 then s.value.closedAt else now
  }

  /** The CLOSED of a connection that is gone: with the connection as the closed list has it, if it does. */
  function ClosingOf(id: Id, closed: seq<Sample>, now: nat): Event {
    var s := LastOf(closed, id);
    var at := ClosingTime(s, now);
    Closed(id, at, if s.None? then None else Some(Connection(s.value.protoUpload, s.value.protoDownload, at)))
  }

  /** One CLOSED for each of the connections. */
  ghost predicate ClosesAll(events: seq<Event>, ids: set<Id>, closed: seq<Sample>, now: nat) {
    && (forall i :: 0 <= i < |events| ==> events[i].id in ids && events[i] == ClosingOf(events[i].id, closed, now))
    && (forall id :: id in ids ==> ClosingOf(id, closed, now) in events)
    && |events| == |ids|
  }

  lemma ClosesOneMore(events: seq<Event>, ids: set<Id>, closed: seq<Sample>, now: nat, id: Id)
    requires ClosesAll(events, ids, closed, now) && id !in ids
    ensures ClosesAll(events + [ClosingOf(id, closed, now)], ids + {id}, closed, now)
  {
  }

  /** The ledger after the CLOSED events of the connections. */
  ghost predicate AfterClosing(l: Ledger, n: Ledger, events: seq<Event>, ids: set<Id>, closed: seq<Sample>, now: nat) {
    && ClosesAll(events, ids, closed, now) && n.sent == l.sent + events
    && n.snapshots == l.snapshots - ids && n.stale == l.stale - ids && n.rewound == l.rewound && n.base == l.base
  }

  lemma AfterNone(l: Ledger, closed: seq<Sample>, now: nat)
    ensures AfterClosing(l, l, [], {}, closed, now)
  {
    assert l.snapshots - {} == l.snapshots && l.sent + [] == l.sent;
  }

  lemma AfterOneMore(l: Ledger, n: Ledger, events: seq<Event>, ids: set<Id>, closed: seq<Sample>, now: nat, id: Id)
    requires AfterClosing(l, n, events, ids, closed, now) && id !in ids
    ensures var e := ClosingOf(id, closed, now);
            AfterClosing(l, Ended(n, id, e.closedAt, e.lastSeen), events + [e], ids + {id}, closed, now)
  {
    ClosesOneMore(events, ids, closed, now, id);
    var e := ClosingOf(id, closed, now);
    assert l.sent + (events + [e]) == l.sent + events + [e];
    assert l.snapshots - (ids + {id}) == l.snapshots - ids - {id};
  }

  /** What such events leave with the client, whatever it had. */
  lemma {:induction false} ClosingShows(sent: seq<Event>, events: seq<Event>, closed: seq<Sample>, now: nat, id: Id)
    requires forall i :: 0 <= i < |events| ==> events[i] == ClosingOf(events[i].id, closed, now)
    ensures var before, after := At(Replay(sent), id), At(Replay(sent + events), id);
            if ClosingOf(id, closed, now) !in events then after == before
            else match LastOf(closed, id)
                 case Some(s) => after == Some(Shown(s, ClosingTime(Some(s), now)))
                 case None =>
                   if before.None? then after.None?
                   else
                     var c := before.value;
                     after == Some(ClientConnection(0, 0, c.uplinkTotal, c.downlinkTotal, now))
  {
    if events == [] {
      assert sent + events == sent;
    } else {
      var front, last := events[..|events| - 1], events[|events| - 1];
      ClosingShows(sent, front, closed, now, id);
      assert sent + events == (sent + front) + [last];
      Sent(sent + front, last, id);
      assert events == front + [last];
    }
  }

  datatype TrackerEvent =
    | TrackerNew(sample: Sample)
    | TrackerClosed(id: Id, closedAt: nat, metadata: Sample, hasMetadata: bool)
    | TrackerOther

  ghost function Ids(samples: seq<Sample>): set<Id> {
    set s | s in samples :: s.id
  }

  class ConnectionStream {
    var snapshots: map<Id, Snapshot>
    ghost var sent: seq<Event>
    ghost var stale: set<Id>
    ghost var rewound: set<Id>
    ghost var base: map<Id, Base>

    ghost function State(): Ledger
      reads this
    {
      Ledger(snapshots, sent, stale, rewound, base)
    }

    ghost predicate Valid()
      reads this
    {
      Balanced(State())
    }

    constructor ()
      ensures Valid() && State() == EMPTY_LEDGER
    {
      snapshots, sent, stale, rewound, base := map[], [], {}, {}, map[];
    }

    ghost method Become(l: Ledger)
      requires l.snapshots == snapshots
      modifies this`sent, this`stale, this`rewound, this`base
      ensures State() == l
    {
      sent, stale, rewound, base := l.sent, l.stale, l.rewound, l.base;
    }

    /**
      The first message: the active connections announced open, then the
      closed ones announced closed. The stale connections are exactly those
      listed as both, because the two lists are read one after the other.
     */
    method BuildInitialConnectionState(active: seq<Sample>, closed: seq<Sample>) returns (events: seq<Event>)
      requires State() == EMPTY_LEDGER
      requires forall s :: s in closed ==> s.closedAt != 0
      modifies this
      ensures Valid() && sent == events
      ensures State() == MakeAll(InitialMoves(active, closed))
      ensures snapshots.Keys == Ids(active) && stale == Ids(active) * Ids(closed) && rewound == {}
      ensures forall id :: At(Replay(sent), id) == InitialView(active, closed, id)
    {
      events := [];
      for i := 0 to |active|
        invariant State() == MakeAll(Announces(active[..i])) && sent == events
      {
        var s := active[i];
        AnnouncesSnoc(active[..i], s);
        assert active[..i + 1] == active[..i] + [s];
        ghost var next := Announced(State(), s);
        events := events + [New(s.id, Connection(s.protoUpload, s.protoDownload, 0))];
        snapshots := snapshots[s.id := Snapshot(s.upload, s.download, false)];
        Become(next);
      }
      assert active[..|active|] == active;
      assert closed[..0] == [] && InitialMoves(active, []) == Announces(active);
      for i := 0 to |closed|
        invariant State() == MakeAll(InitialMoves(active, closed[..i])) && sent == events
      {
        var s := closed[i];
        InitialSnoc(active, closed[..i], s);
        assert closed[..i + 1] == closed[..i] + [s];
        ghost var next := AnnouncedClosed(State(), s);
        events := events + [New(s.id, Connection(s.protoUpload, s.protoDownload, s.closedAt))];
        Become(next);
      }
      assert closed[..|closed|] == closed;
      EveryRunIsBalanced(InitialMoves(active, closed));
      InitialFacts(active, closed);
      forall id ensures At(Replay(sent), id) == InitialView(active, closed, id) { InitialShows(active, closed, id); }
    }

    /** One event of the tracker; a repeated NEW is swallowed. */
    method ApplyConnectionEvent(event: TrackerEvent, now: nat) returns (e: Option<Event>)
      requires Valid() && now != 0
      modifies this
      ensures Valid() && sent == old(sent) + (if e.Some? then [e.value] else [])
      ensures State() == match event
                         case TrackerNew(s) =>
                           if s.id in old(snapshots) then old(State()) else Announced(old(State()), s)
                         case TrackerClosed(id, at, metadata, hasMetadata) =>
                           var known := if at != 0 then at else metadata.closedAt;
                           var closedAt := if known != 0 then known else now;
                           Ended(old(State()), id, closedAt,
                                 if !hasMetadata then None
                                 else Some(Connection(metadata.protoUpload, metadata.protoDownload, closedAt)))
                         case TrackerOther => old(State())
      // what the client then shows
      ensures event.TrackerNew? && event.sample.id !in old(snapshots) ==>
                At(Replay(sent), event.sample.id) == Some(Shown(event.sample, 0))
      ensures event.TrackerClosed? && event.hasMetadata ==>
                At(Replay(sent), event.id)
                == Some(Shown(event.metadata, if event.closedAt != 0 then event.closedAt
                                              else ClosingTime(Some(event.metadata), now)))
    {
      match event
      case TrackerNew(s) =>
        if s.id in snapshots { return None; }
        AnnouncedBalanced(State(), s);
        AnnouncedShows(State(), s, s.id);
        ghost var next := Announced(State(), s);
        snapshots := snapshots[s.id := Snapshot(s.upload, s.download, false)];
        Become(next);
        return Some(New(s.id, Connection(s.protoUpload, s.protoDownload, 0)));
      case TrackerClosed(id, at, metadata, hasMetadata) =>
        var closedAt := at;
        if closedAt == 0 && metadata.closedAt != 0 { closedAt := metadata.closedAt; }
        if closedAt == 0 { closedAt := now; }
        var connection :=
          if !hasMetadata then None else Some(Connection(metadata.protoUpload, metadata.protoDownload, closedAt));
        EndedBalanced(State(), id, closedAt, connection);
        EndedShows(State(), id, closedAt, connection, id);
        ghost var next := Ended(State(), id, closedAt, connection);
        snapshots := snapshots - {id};
        Become(next);
        return Some(Closed(id, closedAt, connection));
      case TrackerOther => return None;
    }

    /** One active connection of a tick: announce it, or send what its counters moved. */
    method UpdateActive(s: Sample) returns (events: seq<Event>)
      modifies this
      ensures State() == Ticked(old(State()), s) && sent == old(sent) + events
      ensures old(Valid()) ==> Valid()
      ensures s.id !in old(snapshots) ==> At(Replay(sent), s.id) == Some(Shown(s, 0))
    {
      AnnouncedShows(State(), s, s.id);
      if Balanced(State()) { TickedBalanced(State(), s); }
      ghost var next := Ticked(State(), s);
      if s.id !in snapshots {
        snapshots := snapshots[s.id := Snapshot(s.upload, s.download, false)];
        events := [New(s.id, Connection(s.protoUpload, s.protoDownload, 0))];
      } else {
        var snapshot := snapshots[s.id];
        var uplinkDelta, downlinkDelta := s.upload - snapshot.uplink, s.download - snapshot.downlink;
        if uplinkDelta < 0 || downlinkDelta < 0 {
          events := if snapshot.hadTraffic then [Update(s.id, 0, 0)] else [];
          snapshots := snapshots[s.id := Snapshot(s.upload, s.download, false)];
        } else if uplinkDelta > 0 || downlinkDelta > 0 {
          snapshots := snapshots[s.id := Snapshot(s.upload, s.download, true)];
          events := [Update(s.id, uplinkDelta, downlinkDelta)];
        } else if snapshot.hadTraffic {
          snapshots := snapshots[s.id := Snapshot(s.upload, s.download, false)];
          events := [Update(s.id, 0, 0)];
        } else {
          events := [];
        }
      }
      Become(next);
    }

    method UpdateAll(active: seq<Sample>) returns (events: seq<Event>)
      requires Valid()
      modifies this
      ensures Valid() && State() == TickedAll(old(State()), active) && sent == old(sent) + events
    {
      events := [];
      for i := 0 to |active|
        invariant State() == TickedAll(old(State()), active[..i]) && sent == old(sent) + events
      {
        TickedAllSnoc(old(State()), active, i);
        var more := UpdateActive(active[i]);
        assert old(sent) + (events + more) == old(sent) + events + more;
        events := events + more;
      }
      assert active[..|active|] == active;
      TickedAllBalanced(old(State()), active);
    }

    /** A connection that is no longer active, with what the closed list knows of it. */
    method CloseGone(id: Id, closed: seq<Sample>, now: nat) returns (e: Event)
      requires Valid() && now != 0
      modifies this
      ensures Valid() && e == ClosingOf(id, closed, now)
      ensures State() == Ended(old(State()), id, e.closedAt, e.lastSeen)
    {
      var metadata := FindSample(closed, id);
      var closedAt := if metadata.Some? && metadata.value.closedAt != 0 then metadata.value.closedAt else now;
      var connection :=
        if metadata.None? then None
        else Some(Connection(metadata.value.protoUpload, metadata.value.protoDownload, closedAt));
      EndedBalanced(State(), id, closedAt, connection);
      ghost var next := Ended(State(), id, closedAt, connection);
      snapshots := snapshots - {id};
      Become(next);
      e := Closed(id, closedAt, connection);
    }

    method CloseAll(ids: set<Id>, closed: seq<Sample>, now: nat) returns (events: seq<Event>)
      requires Valid() && now != 0
      modifies this
      ensures Valid() && AfterClosing(old(State()), State(), events, ids, closed, now)
    {
      ghost var before := State();
      events := [];
      var gone := ids;
      AfterNone(before, closed, now);
      assert ids - gone == {};
      while gone != {}
        invariant Valid() && gone <= ids && AfterClosing(before, State(), events, ids - gone, closed, now)
        decreases gone
      {
        var id :| id in gone;
        ghost var at := State();
        var e := CloseGone(id, closed, now);
        AfterOneMore(before, at, events, ids - gone, closed, now, id);
        assert ids - gone + {id} == ids - (gone - {id});
        events := events + [e];
        gone := gone - {id};
      }
      assert ids - gone == ids;
    }

    /**
      One tick: afterwards the snapshots, and with them the client's open
      connections, are the active ones, and with counters that do not go
      backwards every announced connection keeps its account.
     */
    method BuildTrafficUpdates(active: seq<Sample>, closed: seq<Sample>, now: nat) returns (events: seq<Event>)
      requires Valid() && now != 0
      modifies this
      ensures Valid() && AfterTick(old(State()), State(), events, active, closed, now)
    {
      ghost var before := State();
      var updates := UpdateAll(active);
      ghost var ticked := State();
      var gone := Gone(snapshots, active);
      var closes := CloseAll(gone, closed, now);
      events := updates + closes;
      TickEnds(before, active, ticked, State(), updates, closes, closed, now);
    }
  }

  /** What a tick guarantees about the active connections. */
  ghost predicate FollowsActive(l: Ledger, active: seq<Sample>, n: Ledger) {
    && n.snapshots.Keys == Ids(active)
    && (forall s :: s in active && Unique(active, s) ==>
          n.snapshots[s.id].uplink == s.upload && n.snapshots[s.id].downlink == s.download)
    && TickedAll(l, active).sent <= n.sent
    && OpenIds(Replay(n.sent)) == Ids(active) - n.stale
    && n.stale == l.stale * Ids(active)
    && KeepsBase(l, n)
    && (Monotone(l.snapshots, active) ==> n.rewound <= l.rewound)
  }

  /** A whole tick: behind the updates comes one CLOSED for each connection that is gone. */
  ghost predicate AfterTick(l: Ledger, n: Ledger, events: seq<Event>, active: seq<Sample>, closed: seq<Sample>,
          now: nat) {
    && n.sent == l.sent + events
    && FollowsActive(l, active, n)
    && ClosesAll(n.sent[|TickedAll(l, active).sent|..], Gone(l.snapshots, active), closed, now)
  }

  /** The connections with a snapshot that are not active any more. */
  function Gone(snapshots: map<Id, Snapshot>, active: seq<Sample>): set<Id> {
    set id | id in snapshots && !Contains(active, id)
  }

  lemma TickCloses(l: Ledger, active: seq<Sample>, t: Ledger, n: Ledger, closes: seq<Event>, closed: seq<Sample>,
          now: nat)
    requires l.stale <= l.snapshots.Keys && t == TickedAll(l, active) && n.sent == t.sent + closes
    requires ClosesAll(closes, Gone(t.snapshots, active), closed, now)
    ensures |TickedAll(l, active).sent| <= |n.sent|
    ensures ClosesAll(n.sent[|TickedAll(l, active).sent|..], Gone(l.snapshots, active), closed, now)
  {
    GoneBefore(l, active);
    assert n.sent[|t.sent|..] == closes;
  }

  lemma GoneBefore(l: Ledger, active: seq<Sample>)
    requires l.stale <= l.snapshots.Keys
    ensures Gone(TickedAll(l, active).snapshots, active) == Gone(l.snapshots, active)
  {
    TickedAllKeeps(l, active);
  }

  /** The two halves of a tick together. */
  lemma TickEnds(l: Ledger, active: seq<Sample>, t: Ledger, n: Ledger, updates: seq<Event>, closes: seq<Event>,
          closed: seq<Sample>, now: nat)
    requires l.stale <= l.snapshots.Keys && Coupled(n) && t == TickedAll(l, active) && t.sent == l.sent + updates
    requires AfterClosing(t, n, closes, Gone(t.snapshots, active), closed, now)
    ensures AfterTick(l, n, updates + closes, active, closed, now)
  {
    assert n.sent == l.sent + (updates + closes) by { assert n.sent == l.sent + updates + closes; }
    assert t.sent <= n.sent;
    assert ClosesAll(n.sent[|t.sent|..], Gone(l.snapshots, active), closed, now) by {
      TickCloses(l, active, t, n, closes, closed, now);
    }
    assert FollowsActive(l, active, n) by { TickFollowsActive(l, active, t, n); }
  }

  lemma TickFollowsActive(l: Ledger, active: seq<Sample>, t: Ledger, n: Ledger)
    requires l.stale <= l.snapshots.Keys && Coupled(n) && t == TickedAll(l, active)
    requires n.snapshots == t.snapshots - Gone(t.snapshots, active) && n.stale == t.stale - Gone(t.snapshots, active)
    requires n.rewound == t.rewound && n.base == t.base && t.sent <= n.sent
    ensures FollowsActive(l, active, n)
  {
    var gone := Gone(t.snapshots, active);
    TickedAllKeeps(l, active);
    NotContained(t.snapshots.Keys, active, gone);
    assert l.stale - gone == l.stale * Ids(active);
    assert Monotone(l.snapshots, active) ==> n.rewound <= l.rewound by {
      if Monotone(l.snapshots, active) { TickedAllMonotone(l, active); }
    }
    forall s | s in active && Unique(active, s)
      ensures n.snapshots[s.id].uplink == s.upload && n.snapshots[s.id].downlink == s.download
    {
      TickedAllCurrent(l, active);
      assert s.id in Ids(active);
    }
  }

  /** What a connection was announced with stays on record while it has a snapshot. */
  ghost predicate KeepsBase(l: Ledger, n: Ledger) {
    forall id :: id in l.snapshots && id in l.base ==> id in n.base && n.base[id] == l.base[id]
  }

  /** The active connections are distinct and none is below its snapshot. */
  ghost predicate Monotone(snapshots: map<Id, Snapshot>, active: seq<Sample>) {
    && (forall i, j :: 0 <= i < j < |active| ==> active[i].id != active[j].id)
    && (forall i :: 0 <= i < |active| && active[i].id in snapshots ==>
          active[i].upload >= snapshots[active[i].id].uplink && active[i].download >= snapshots[active[i].id].downlink)
  }

  function TickedAll(l: Ledger, active: seq<Sample>): Ledger {
    if active == [] then l else Ticked(TickedAll(l, active[..|active| - 1]), active[|active| - 1])
  }

  lemma {:induction false} TickedAllBalanced(l: Ledger, active: seq<Sample>)
    requires Balanced(l)
    ensures Balanced(TickedAll(l, active))
  {
    if active != [] {
      TickedAllBalanced(l, active[..|active| - 1]);
      TickedBalanced(TickedAll(l, active[..|active| - 1]), active[|active| - 1]);
    }
  }

  lemma TickedAllSnoc(l: Ledger, active: seq<Sample>, i: nat)
    requires i < |active|
    ensures TickedAll(l, active[..i + 1]) == Ticked(TickedAll(l, active[..i]), active[i])
  {
    assert active[..i + 1][..i] == active[..i];
  }

  lemma {:induction false} TickedAllKeeps(l: Ledger, active: seq<Sample>)
    requires l.stale <= l.snapshots.Keys
    ensures var n := TickedAll(l, active);
            && n.snapshots.Keys == l.snapshots.Keys + Ids(active) && n.stale == l.stale
            && KeepsBase(l, n)
            && (forall id :: id in l.snapshots && id !in Ids(active) ==> n.snapshots[id] == l.snapshots[id])
  {
    if active != [] {
      var front, last := active[..|active| - 1], active[|active| - 1];
      IdsSnoc(front, last);
      assert active == front + [last];
      TickedAllKeeps(l, front);
      TickedKeepsAccounts(TickedAll(l, front), last);
    }
  }

  /** The sample is the only one of its connection. */
  ghost predicate Unique(active: seq<Sample>, s: Sample) {
    forall x :: x in active && x.id == s.id ==> x == s
  }

  /** After a tick the snapshots hold the current counters. */
  lemma {:induction false} TickedAllCurrent(l: Ledger, active: seq<Sample>)
    requires l.stale <= l.snapshots.Keys
    ensures var n := TickedAll(l, active);
            forall s :: s in active && Unique(active, s) ==>
              s.id in n.snapshots && n.snapshots[s.id].uplink == s.upload && n.snapshots[s.id].downlink == s.download
  {
    if active != [] {
      var front, last := active[..|active| - 1], active[|active| - 1];
      assert active == front + [last];
      TickedAllCurrent(l, front);
      TickedAllKeeps(l, front);
      TickedKeepsAccounts(TickedAll(l, front), last);
      forall s | s in active && Unique(active, s) && s != last
        ensures s in front && Unique(front, s) && s.id != last.id
      {
        assert last in active;
      }
    }
  }

  /** Counters that do not go backwards leave no new gap in the accounts. */
  lemma {:induction false} TickedAllMonotone(l: Ledger, active: seq<Sample>)
    requires l.stale <= l.snapshots.Keys && Monotone(l.snapshots, active)
    ensures TickedAll(l, active).rewound <= l.rewound
  {
    if active != [] {
      var front, last := active[..|active| - 1], active[|active| - 1];
      assert active == front + [last];
      LastIsNew(front, last);
      assert forall i :: 0 <= i < |front| ==> front[i] == active[i];
      TickedAllMonotone(l, front);
      TickedAllKeeps(l, front);
      var m := TickedAll(l, front);
      TickedKeepsAccounts(m, last);
      assert last.id in m.snapshots ==> last.id in l.snapshots && m.snapshots[last.id] == l.snapshots[last.id];
    }
  }

  lemma IdsSnoc(front: seq<Sample>, last: Sample)
    ensures Ids(front + [last]) == Ids(front) + {last.id}
  {
  }

  lemma LastIsNew(front: seq<Sample>, last: Sample)
    requires forall i, j :: 0 <= i < j < |front + [last]| ==> (front + [last])[i].id != (front + [last])[j].id
    ensures last.id !in Ids(front)
  {
    forall x | x in front ensures x.id != last.id {
      var i :| 0 <= i < |front| && front[i] == x;
      assert (front + [last])[i] == x && (front + [last])[|front|] == last;
    }
  }

  lemma NotContained(keys: set<Id>, active: seq<Sample>, gone: set<Id>)
    requires gone == set id | id in keys && !Contains(active, id)
    requires Ids(active) <= keys
    ensures gone !! Ids(active) && keys == Ids(active) + gone
  {
  }

  predicate Contains(samples: seq<Sample>, id: Id) {
    exists i :: 0 <= i < |samples| && samples[i].id == id
  }

  /** The closed index: the last sample of a connection wins. */
  method FindSample(samples: seq<Sample>, id: Id) returns (found: Option<Sample>)
    ensures found == LastOf(samples, id)
  {
    found := None;
    for i := 0 to |samples|
      invariant found == LastOf(samples[..i], id)
    {
      assert samples[..i + 1][..i] == samples[..i];
      if samples[i].id == id { found := Some(samples[i]); }
    }
    assert samples[..|samples|] == samples;
  }
}
