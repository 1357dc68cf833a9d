/** All that the transport service keeps true of its books, and how each move keeps it. */
module Books {
  import opened Io
  import opened KeepAlive
  import opened Connections

  /** The connections tracked, the world, the substreams requested with their connection, and with
      their peer and the length of the history then, the history of events, and the connections
      watched by the keep-alive tracker and those it knows to be closed. */
  datatype Book = Book(
    connections: map<PeerId, Context>,
    world: World,
    requested: map<SubstreamId, ConnectionId>,
    asked: map<SubstreamId, (PeerId, nat)>,
    history: seq<Event>,
    keys: set<Key>,
    closed: set<Key>)

  // ----- When substreams are reported --------------------------------------------------

  predicate Speaks(e: Event, s: SubstreamId) {
    (e.Opened? && e.outbound == Some(s)) || (e.OpenFailed? && e.substream == s)
  }

  /** The peer has not been reported closed since the `from`-th event. */
  ghost predicate Quiet(history: seq<Event>, from: nat, peer: PeerId) {
    forall i :: from <= i < |history| ==> history[i] != Closed(peer)
  }

  /** A substream is reported before its peer is reported closed. */
  ghost predicate Prompt(history: seq<Event>, asked: map<SubstreamId, (PeerId, nat)>) {
    forall s, j :: s in asked && asked[s].1 <= j < |history| && Speaks(history[j], s) ==>
      Quiet(history[..j], asked[s].1, asked[s].0)
  }

  ghost predicate PendingQuiet(history: seq<Event>, asked: map<SubstreamId, (PeerId, nat)>,
      pending: map<SubstreamId, ConnectionId>) {
    forall s :: s in pending ==> s in asked && Quiet(history, asked[s].1, asked[s].0)
  }

  /** Pending substreams belong to open connections of the peers they were requested of. */
  ghost predicate Located(asked: map<SubstreamId, (PeerId, nat)>, pending: map<SubstreamId, ConnectionId>, w: World) {
    forall s :: s in pending ==> s in asked && pending[s] in LiveOf(w, asked[s].0)
  }

  lemma PromptSnoc(history: seq<Event>, e: Event, asked: map<SubstreamId, (PeerId, nat)>,
      pending: map<SubstreamId, ConnectionId>)
    requires Prompt(history, asked) && PendingQuiet(history, asked, pending)
    requires forall s :: s in asked && Speaks(e, s) ==> s in pending
    ensures Prompt(history + [e], asked)
  {
    var all := history + [e];
    forall s, j | s in asked && asked[s].1 <= j < |all| && Speaks(all[j], s)
      ensures Quiet(all[..j], asked[s].1, asked[s].0)
    {
      if j < |history| {
        assert all[..j] == history[..j] && history[j] == all[j];
      } else {
        assert all[..j] == history && all[j] == e;
      }
    }
  }

  lemma QuietSnoc(history: seq<Event>, e: Event, asked: map<SubstreamId, (PeerId, nat)>,
      pending: map<SubstreamId, ConnectionId>)
    requires PendingQuiet(history, asked, pending)
    requires forall s :: s in pending && s in asked ==> e != Closed(asked[s].0)
    ensures PendingQuiet(history + [e], asked, pending)
  {
  }

  lemma {:induction false} PromptFailures(history: seq<Event>, ids: seq<SubstreamId>,
      asked: map<SubstreamId, (PeerId, nat)>, pending: map<SubstreamId, ConnectionId>)
    requires Prompt(history, asked) && PendingQuiet(history, asked, pending) && forall s :: s in ids ==> s in pending
    ensures Prompt(history + Failures(ids), asked) && PendingQuiet(history + Failures(ids), asked, pending)
  {
    if ids == [] {
      assert history + Failures(ids) == history;
    } else {
      var k := |ids| - 1;
      PromptFailures(history, ids[..k], asked, pending);
      var before, e := history + Failures(ids[..k]), OpenFailed(ids[k], true);
      Assoc(history, Failures(ids[..k]), [e]);
      PromptSnoc(before, e, asked, pending);
      QuietSnoc(before, e, asked, pending);
    }
  }

  // ----- The invariant -----------------------------------------------------------------

  /** Only open connections are watched. */
  ghost predicate Fresh(keys: set<Key>, w: World) {
    forall key :: key in keys ==> key.1 in LiveOf(w, key.0)
  }

  ghost predicate Contents(b: Book) {
    && Coherent(b.world) && Match(b.connections, b.world)
    && Buried(b.closed, b.world) && Fresh(b.keys, b.world) && Watched(b.connections, b.keys)
    && Conserved(b.history, b.world.pending, b.requested) && Alternating(b.history, b.connections)
    && Reportable(b)
  }

  ghost predicate Reportable(b: Book) {
    && b.asked.Keys == b.requested.Keys && (forall s :: s in b.asked ==> b.asked[s].1 <= |b.history|)
    && Prompt(b.history, b.asked) && PendingQuiet(b.history, b.asked, b.world.pending)
    && Located(b.asked, b.world.pending, b.world)
  }

  ghost predicate Kept(b: Book) {
    forall i {:trigger Looked(i)} :: i == 0 && Looked(i) ==> Contents(b)
  }

  lemma Look(b: Book)
    requires Kept(b)
    ensures Contents(b)
  {
    assert Looked(0);
  }

  lemma KeptEmpty()
    ensures Kept(Book(map[], World(map[], {}, map[]), map[], map[], [], {}, {}))
  {
  }

  // ----- A connection is established ---------------------------------------------------

  function Known(b: Book, peer: PeerId): Option<Context> {
    if peer in b.connections then Some(b.connections[peer]) else None
  }

  ghost function Established(b: Book, peer: PeerId, c: ConnectionId): Book {
    b.(connections := b.connections[peer := Establish(Known(b, peer), Handle(c, true))],
       world := After(b.world, ConnectionEstablished(peer, c)),
       keys := b.keys + {(peer, c)},
       history := b.history + if peer in b.connections then [] else [Event.Established(peer)])
  }

  /** A new connection has room, and keeps the books. */
  lemma KeptEstablished(b: Book, peer: PeerId, c: ConnectionId)
    requires Kept(b) && Allowed(b.world, ConnectionEstablished(peer, c))
    ensures Kept(Established(b, peer, c))
    ensures peer in b.connections ==> b.connections[peer].secondary.None?
  {
    Look(b);
    CoherentAfter(b.world, ConnectionEstablished(peer, c));
    MatchEstablished(b.connections, b.world, peer, Handle(c, true));
    BuriedEstablished(b.closed, b.world, peer, c);
    WatchedEstablished(b.connections, b.world, b.keys, peer, c);
    FreshEstablished(b, peer, c);
    HistoryEstablished(b, peer, c);
    ReportableEstablished(b, peer, c);
  }

  lemma FreshEstablished(b: Book, peer: PeerId, c: ConnectionId)
    requires Fresh(b.keys, b.world)
    ensures Fresh(Established(b, peer, c).keys, Established(b, peer, c).world)
  {
  }

  lemma HistoryEstablished(b: Book, peer: PeerId, c: ConnectionId)
    requires Conserved(b.history, b.world.pending, b.requested) && Alternating(b.history, b.connections)
    ensures var n := Established(b, peer, c);
            Conserved(n.history, n.world.pending, n.requested) && Alternating(n.history, n.connections)
  {
    if peer in b.connections {
      assert b.history + [] == b.history;
    } else {
      AlternatingEstablished(b.history, b.connections, peer, Establish(None, Handle(c, true)));
      ConservedSilent(b.history, Event.Established(peer), b.world.pending, b.requested);
    }
  }

  lemma ReportableEstablished(b: Book, peer: PeerId, c: ConnectionId)
    requires Reportable(b)
    ensures Reportable(Established(b, peer, c))
  {
    if peer in b.connections {
      assert b.history + [] == b.history;
    } else {
      PromptSnoc(b.history, Event.Established(peer), b.asked, b.world.pending);
      QuietSnoc(b.history, Event.Established(peer), b.asked, b.world.pending);
    }
  }

  // ----- A connection is closed --------------------------------------------------------

  ghost function ClosedWith(b: Book, peer: PeerId, c: ConnectionId, failed: seq<SubstreamId>): Book
    requires peer in b.connections
  {
    var left := Close(b.connections[peer], c);
    b.(connections := if left.None? then b.connections - {peer} else b.connections[peer := left.value],
       world := After(b.world, ConnectionClosed(peer, c)),
       keys := b.keys - {(peer, c)},
       closed := b.closed + {(peer, c)},
       history := b.history + Failures(failed) + if left.None? then [Closed(peer)] else [])
  }

  /** A close keeps the books: its substreams are reported, and then perhaps its peer. */
  lemma KeptClosed(b: Book, peer: PeerId, c: ConnectionId, failed: seq<SubstreamId>)
    requires Kept(b) && Allowed(b.world, ConnectionClosed(peer, c)) && Listed(failed, b.world.pending, c)
    ensures peer in b.connections && Kept(ClosedWith(b, peer, c, failed))
  {
    Look(b);
    CoherentAfter(b.world, ConnectionClosed(peer, c));
    MatchClosed(b.connections, b.world, peer, c);
    BuriedClosed(b.closed, b.world, peer, c);
    WatchedClosed(b.connections, b.world, b.keys, peer, c);
    FreshClosed(b, peer, c, failed);
    HistoryClosed(b, peer, c, failed);
    ReportableClosed(b, peer, c, failed);
  }

  lemma FreshClosed(b: Book, peer: PeerId, c: ConnectionId, failed: seq<SubstreamId>)
    requires Fresh(b.keys, b.world) && Coherent(b.world) && c in LiveOf(b.world, peer) && peer in b.connections
    ensures Fresh(ClosedWith(b, peer, c, failed).keys, ClosedWith(b, peer, c, failed).world)
  {
    var n := ClosedWith(b, peer, c, failed);
    forall key | key in n.keys
      ensures key.1 in LiveOf(n.world, key.0)
    {
      assert key.1 in LiveOf(b.world, key.0) && (key.1 == c ==> key.0 == peer);
    }
  }

  lemma HistoryClosed(b: Book, peer: PeerId, c: ConnectionId, failed: seq<SubstreamId>)
    requires Conserved(b.history, b.world.pending, b.requested) && Alternating(b.history, b.connections)
    requires peer in b.connections && Listed(failed, b.world.pending, c)
    ensures var n := ClosedWith(b, peer, c, failed);
            Conserved(n.history, n.world.pending, n.requested) && Alternating(n.history, n.connections)
  {
    FailAll(b.history, failed, c, b.connections, b.world.pending, b.requested);
    var told, left := b.history + Failures(failed), Close(b.connections[peer], c);
    if left.None? {
      AlternatingClosed(told, b.connections, peer);
      ConservedSilent(told, Closed(peer), Surviving(b.world.pending, c), b.requested);
    } else {
      assert told + [] == told;
    }
  }

  lemma ReportableClosed(b: Book, peer: PeerId, c: ConnectionId, failed: seq<SubstreamId>)
    requires Reportable(b) && peer in b.connections && Listed(failed, b.world.pending, c)
    requires Coherent(b.world) && c in LiveOf(b.world, peer)
    requires Match(ClosedWith(b, peer, c, failed).connections, ClosedWith(b, peer, c, failed).world)
    ensures Reportable(ClosedWith(b, peer, c, failed))
  {
    var n := ClosedWith(b, peer, c, failed);
    var told, left := b.history + Failures(failed), Surviving(b.world.pending, c);
    PromptFailures(b.history, failed, b.asked, b.world.pending);
    LocatedClosed(b, peer, c);
    if Close(b.connections[peer], c).None? {
      assert peer !in n.connections && LiveOf(n.world, peer) == [];
      PromptSnoc(told, Closed(peer), b.asked, b.world.pending);
      QuietSnoc(told, Closed(peer), b.asked, left);
    } else {
      assert told + [] == told;
    }
  }

  lemma LocatedClosed(b: Book, peer: PeerId, c: ConnectionId)
    requires Located(b.asked, b.world.pending, b.world) && c in LiveOf(b.world, peer)
    ensures var w := After(b.world, ConnectionClosed(peer, c)); Located(b.asked, w.pending, w)
  {
  }

  // ----- An event that concerns a substream, or nothing the service keeps --------------

  predicate Passes(event: Event, e: InnerEvent) {
    match e
    case SubstreamOpened(peer, _, outbound, _) => event == Opened(peer, outbound)
    case SubstreamOpenFailure(s) => event == OpenFailed(s, false)
    case DialFailure(peer) => event == DialFailed(peer)
    case _ => false
  }

  ghost function Reported(b: Book, event: Event, e: InnerEvent): Book {
    b.(world := After(b.world, e), history := b.history + [event])
  }

  lemma KeptReported(b: Book, event: Event, e: InnerEvent)
    requires Kept(b) && Allowed(b.world, e) && Passes(event, e)
    ensures Kept(Reported(b, event, e))
  {
    Look(b);
    CoherentAfter(b.world, e);
    MatchOther(b.connections, b.world, e);
    BuriedOther(b.closed, b.world, e);
    AlternatingSilent(b.history, event, b.connections);
    FreshReported(b, event, e);
    ConservedReported(b, event, e);
    ReportableReported(b, event, e);
  }

  lemma FreshReported(b: Book, event: Event, e: InnerEvent)
    requires Fresh(b.keys, b.world) && Passes(event, e)
    ensures Fresh(b.keys, After(b.world, e))
  {
  }

  lemma ConservedReported(b: Book, event: Event, e: InnerEvent)
    requires Conserved(b.history, b.world.pending, b.requested) && Allowed(b.world, e) && Passes(event, e)
    ensures Conserved(b.history + [event], After(b.world, e).pending, b.requested)
  {
    if event.OpenFailed? {
      ConservedReport(b.history, event, event.substream, b.world.pending, b.requested);
    } else if event.Opened? && event.outbound.Some? {
      ConservedReport(b.history, event, event.outbound.value, b.world.pending, b.requested);
    } else {
      ConservedSilent(b.history, event, b.world.pending, b.requested);
    }
  }

  lemma ReportableReported(b: Book, event: Event, e: InnerEvent)
    requires Reportable(b) && Allowed(b.world, e) && Passes(event, e)
    ensures Reportable(Reported(b, event, e))
  {
    PromptSnoc(b.history, event, b.asked, b.world.pending);
    QuietSnoc(b.history, event, b.asked, b.world.pending);
  }

  // ----- Activity, idleness and requests -----------------------------------------------

  ghost function Touched(b: Book, peer: PeerId, c: ConnectionId): Book
    requires peer in b.connections
  {
    b.(connections := b.connections[peer := SetActive(b.connections[peer], c, true)], keys := b.keys + {(peer, c)})
  }

  /** Activity on an open connection, which is tracked. */
  lemma KeptTouched(b: Book, peer: PeerId, c: ConnectionId)
    requires Kept(b) && c in LiveOf(b.world, peer)
    ensures peer in b.connections && Kept(Touched(b, peer, c))
    ensures ActiveIn(Touched(b, peer, c).connections, (peer, c))
  {
    Look(b);
    WatchedActive(b.connections, b.world, b.keys, peer, c);
    MatchActive(b.connections, b.world, peer, c, true);
  }

  ghost function Idled(b: Book, peer: PeerId, c: ConnectionId): Book {
    b.(connections := Downgraded(b.connections, peer, c), keys := b.keys - {(peer, c)})
  }

  lemma KeptIdled(b: Book, peer: PeerId, c: ConnectionId)
    requires Kept(b)
    ensures Kept(Idled(b, peer, c))
    ensures var next := Downgraded(b.connections, peer, c);
      && next.Keys == b.connections.Keys
      && (forall key :: ActiveIn(b.connections, key) && !ActiveIn(next, key) ==> key == (peer, c))
      && forall key :: ActiveIn(next, key) ==> ActiveIn(b.connections, key)
  {
    Look(b);
    DowngradeKeeps(b.connections, b.world, b.keys, b.history, peer, c);
  }

  ghost function Requested(b: Book, s: SubstreamId, peer: PeerId, c: ConnectionId): Book {
    b.(world := b.world.(pending := b.world.pending[s := c]),
       requested := b.requested[s := c],
       asked := b.asked[s := (peer, |b.history|)])
  }

  /** A request on an open connection. */
  lemma KeptRequested(b: Book, s: SubstreamId, peer: PeerId, c: ConnectionId)
    requires Kept(b) && s !in b.requested && c in LiveOf(b.world, peer)
    ensures Kept(Requested(b, s, peer, c)) && s !in b.world.pending
  {
    Look(b);
    CoherentWithMore(b.world, s, c, peer);
    RequestedWorld(b.connections, b.closed, b.world, s, c);
    ConservedRequest(b.history, b.world.pending, b.requested, s, c);
    ReportableRequested(b, s, peer, c);
  }

  lemma ReportableRequested(b: Book, s: SubstreamId, peer: PeerId, c: ConnectionId)
    requires Reportable(b) && s !in b.requested && c in LiveOf(b.world, peer)
    ensures Reportable(Requested(b, s, peer, c))
  {
    var n := Requested(b, s, peer, c);
    forall t, j | t in n.asked && n.asked[t].1 <= j < |n.history| && Speaks(n.history[j], t)
      ensures Quiet(n.history[..j], n.asked[t].1, n.asked[t].0)
    {
      assert t != s && t in b.asked;
    }
  }

  lemma RequestedWorld(connections: map<PeerId, Context>, closed: set<Key>, w: World, id: SubstreamId, c: ConnectionId)
    requires Match(connections, w) && Buried(closed, w)
    ensures Match(connections, w.(pending := w.pending[id := c])) && Buried(closed, w.(pending := w.pending[id := c]))
  {
    var v := w.(pending := w.pending[id := c]);
    assert forall p :: LiveOf(v, p) == LiveOf(w, p);
    forall key | key in closed
      ensures !IsLive(v, key.1)
    {
      assert forall q :: key.1 in LiveOf(v, q) ==> key.1 in LiveOf(w, q);
    }
  }

  // ----- What the books tell -----------------------------------------------------------

  /** The primary connection of a tracked peer is open. */
  lemma PrimaryIsOpen(b: Book, peer: PeerId)
    requires Kept(b) && peer in b.connections
    ensures b.connections[peer].primary.id in LiveOf(b.world, peer)
  {
    Look(b);
    assert Follows(b.connections[peer], LiveOf(b.world, peer));
  }

  lemma {:induction false} ReportsPrefix(events: seq<Event>, more: seq<Event>, s: SubstreamId)
    ensures Reports(events, s) <= Reports(events + more, s)
    decreases |more|
  {
    if more == [] {
      assert events + more == events;
    } else {
      var k := |more| - 1;
      ReportsPrefix(events, more[..k], s);
      assert (events + more)[..|events| + k] == events + more[..k];
    }
  }

  /** What is alternating is so from the start. */
  lemma {:induction false} StandingPrefix(events: seq<Event>, more: seq<Event>, peer: PeerId)
    requires Standing(events + more, peer).Some?
    ensures Standing(events, peer).Some?
    decreases |more|
  {
    if more == [] {
      assert events + more == events;
    } else {
      var k := |more| - 1;
      assert (events + more)[..|events| + k] == events + more[..k];
      StandingPrefix(events, more[..k], peer);
    }
  }
}
