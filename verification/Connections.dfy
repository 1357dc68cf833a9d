/** What a protocol is told about its connections and substreams, as predicates on values:
    the environment's moves, the history of events and the connections tracked per peer. */
module Connections {
  import opened Io
  import opened KeepAlive

  type SubstreamId = nat

  /** A handle to a connection; an inactive one does not keep the connection open. */
  datatype Handle = Handle(id: ConnectionId, active: bool)

  datatype Context = Context(primary: Handle, secondary: Option<Handle>)

  /** What connections and the manager report. */
  datatype InnerEvent =
    | ConnectionEstablished(peer: PeerId, connection: ConnectionId)
    | ConnectionClosed(peer: PeerId, connection: ConnectionId)
    | SubstreamOpened(peer: PeerId, connection: ConnectionId, outbound: Option<SubstreamId>, ours: bool)
    | SubstreamOpenFailure(substream: SubstreamId)
    | DialFailure(peer: PeerId)

  /** What the protocol is told. */
  datatype Event =
    | Established(peer: PeerId)
    | Closed(peer: PeerId)
    | Opened(peer: PeerId, outbound: Option<SubstreamId>)
    | OpenFailed(substream: SubstreamId, connectionClosed: bool)
    | DialFailed(peer: PeerId)

  // ----- Events that are passed on -----------------------------------------------------

  /** What the protocol is told of a received event, apart from its effect on connections. */
  function Image(e: InnerEvent): seq<Event> {
    match e
    case SubstreamOpened(peer, _, outbound, _) => [Opened(peer, outbound)]
    case SubstreamOpenFailure(s) => [OpenFailed(s, false)]
    case DialFailure(peer) => [DialFailed(peer)]
    case _ => []
  }

  function Images(es: seq<InnerEvent>): seq<Event> {
    if es == [] then [] else Images(es[..|es| - 1]) + Image(es[|es| - 1])
  }

  /** Such an event was received as one; the others are the service's own. */
  predicate IsImage(e: Event) {
    e.Opened? || e.DialFailed? || (e.OpenFailed? && !e.connectionClosed)
  }

  /** The passed on among some events, in order. */
  function PassedOn(events: seq<Event>): seq<Event> {
    if events == [] then []
    else
      var last := events[|events| - 1];
      PassedOn(events[..|events| - 1]) + if IsImage(last) then [last] else []
  }

  /** Mentioned where it matters what has been passed on. */
  predicate Forwarding(i: int) {
    true
  }

  /** Exactly the received events that are to be passed on have been, in order, and what is queued are
      events of the service's own. */
  ghost predicate Forwarded(taken: seq<InnerEvent>, emitted: seq<Event>, queued: seq<Event>) {
    forall i {:trigger Forwarding(i)} :: i == 0 && Forwarding(i) ==>
      PassedOn(emitted) == Images(taken) && AllOwn(queued)
  }

  ghost predicate AllOwn(events: seq<Event>) {
    forall i :: 0 <= i < |events| ==> !IsImage(events[i])
  }

  lemma {:induction false} PassedOnConcat(a: seq<Event>, b: seq<Event>)
    ensures PassedOn(a + b) == PassedOn(a) + PassedOn(b)
    decreases |b|
  {
    if b == [] {
      assert a + b == a;
    } else {
      var k := |b| - 1;
      PassedOnConcat(a, b[..k]);
      assert (a + b)[..|a| + k] == a + b[..k];
    }
  }

  lemma {:induction false} NothingPassedOn(events: seq<Event>)
    requires AllOwn(events)
    ensures PassedOn(events) == []
  {
    if events != [] {
      NothingPassedOn(events[..|events| - 1]);
    }
  }

  /** An event is received and passed on at once. */
  lemma {:induction false} ForwardedNow(taken: seq<InnerEvent>, e: InnerEvent, emitted: seq<Event>, event: Event)
    requires Forwarded(taken, emitted, []) && Image(e) == [event]
    ensures Forwarded(taken + [e], emitted + [event], [])
  {
    assert Forwarding(0);
    assert (taken + [e])[..|taken|] == taken && (emitted + [event])[..|emitted|] == emitted;
  }

  /** An event is received that has an effect of its own. */
  lemma {:induction false} ForwardedOwn(taken: seq<InnerEvent>, e: InnerEvent, emitted: seq<Event>, more: seq<Event>,
      queued: seq<Event>)
    requires Forwarded(taken, emitted, []) && Image(e) == [] && AllOwn(more) && AllOwn(queued)
    ensures Forwarded(taken + [e], emitted + more, queued)
  {
    assert Forwarding(0);
    assert (taken + [e])[..|taken|] == taken;
    PassedOnConcat(emitted, more);
    NothingPassedOn(more);
  }

  /** A queued event is handed out. */
  lemma {:induction false} ForwardedNext(taken: seq<InnerEvent>, emitted: seq<Event>, queued: seq<Event>)
    requires Forwarded(taken, emitted, queued) && queued != []
    ensures Forwarded(taken, emitted + [queued[0]], queued[1..]) && !IsImage(queued[0])
  {
    assert Forwarding(0);
    PassedOnConcat(emitted, [queued[0]]);
    NothingPassedOn([queued[0]]);
  }

  // ----- The environment ---------------------------------------------------------------

  /** The connections open to each peer, oldest first, all connection ids ever used, and
      the outbound substreams that have not been reported back, with their connection. */
  datatype World = World(
    live: map<PeerId, seq<ConnectionId>>,
    used: set<ConnectionId>,
    pending: map<SubstreamId, ConnectionId>)

  function LiveOf(w: World, peer: PeerId): seq<ConnectionId> {
    if peer in w.live then w.live[peer] else []
  }

  ghost predicate IsLive(w: World, c: ConnectionId) {
    exists peer :: c in LiveOf(w, peer)
  }

  /** The assumptions on the environment: connection ids are not reused, a peer has at most
      two connections, and a connection reports each outbound substream at most once and
      before its own close. */
  ghost predicate Allowed(w: World, e: InnerEvent) {
    match e
    case ConnectionEstablished(peer, c) => c !in w.used && |LiveOf(w, peer)| < 2
    case ConnectionClosed(peer, c) => c in LiveOf(w, peer)
    case SubstreamOpened(peer, c, outbound, _) =>
      c in LiveOf(w, peer) && (outbound.Some? ==> outbound.value in w.pending && w.pending[outbound.value] == c)
    case SubstreamOpenFailure(s) => s in w.pending
    case DialFailure(_) => true
  }

  function Without(cs: seq<ConnectionId>, c: ConnectionId): (r: seq<ConnectionId>)
    ensures forall x :: x in r <==> x in cs && x != c
  {
    if cs == [] then [] else (if cs[0] == c then [] else [cs[0]]) + Without(cs[1..], c)
  }

  /** The substreams that were not requested on connection `c`. */
  function Surviving(pending: map<SubstreamId, ConnectionId>, c: ConnectionId): map<SubstreamId, ConnectionId> {
    map s | s in pending && pending[s] != c :: pending[s]
  }

  function After(w: World, e: InnerEvent): World {
    match e
    case ConnectionEstablished(peer, c) =>
      w.(live := w.live[peer := LiveOf(w, peer) + [c]], used := w.used + {c})
    case ConnectionClosed(peer, c) =>
      w.(live := w.live[peer := Without(LiveOf(w, peer), c)],
         pending := Surviving(w.pending, c))
    case SubstreamOpened(_, _, outbound, _) =>
      if outbound.Some? then w.(pending := w.pending - {outbound.value}) else w
    case SubstreamOpenFailure(s) => w.(pending := w.pending - {s})
    case DialFailure(_) => w
  }

  /** The queued events arrive in an allowed order. */
  ghost predicate AllAllowed(w: World, events: seq<InnerEvent>)
    decreases |events|
  {
    events == [] || (Allowed(w, events[0]) && AllAllowed(After(w, events[0]), events[1..]))
  }

  /** A connection belongs to one peer, and pending substreams to open connections. */
  ghost predicate Coherent(w: World) {
    && (forall peer :: |LiveOf(w, peer)| <= 2)
    && (forall peer :: |LiveOf(w, peer)| == 2 ==> LiveOf(w, peer)[0] != LiveOf(w, peer)[1])
    && (forall p, q, c :: c in LiveOf(w, p) && c in LiveOf(w, q) ==> p == q)
    && (forall peer, c :: c in LiveOf(w, peer) ==> c in w.used)
    && (forall s :: s in w.pending ==> IsLive(w, w.pending[s]))
  }

  lemma StillLive(w: World, v: World, c: ConnectionId)
    requires IsLive(w, c) && forall peer :: c in LiveOf(w, peer) ==> c in LiveOf(v, peer)
    ensures IsLive(v, c)
  {
    var peer :| c in LiveOf(w, peer);
    assert c in LiveOf(v, peer);
  }

  lemma CoherentAfter(w: World, e: InnerEvent)
    requires Coherent(w) && Allowed(w, e)
    ensures Coherent(After(w, e))
  {
    var v := After(w, e);
    if e.ConnectionEstablished? {
      CoherentAfterEstablished(w, e);
    } else if e.ConnectionClosed? {
      CoherentAfterClosed(w, e);
    } else {
      assert forall peer :: LiveOf(v, peer) == LiveOf(w, peer);
      forall s | s in v.pending
        ensures IsLive(v, v.pending[s])
      {
        StillLive(w, v, v.pending[s]);
      }
    }
  }

  lemma CoherentAfterEstablished(w: World, e: InnerEvent)
    requires Coherent(w) && Allowed(w, e) && e.ConnectionEstablished?
    ensures Coherent(After(w, e))
  {
    var v := After(w, e);
    assert forall peer ::
        LiveOf(v, peer) == if peer == e.peer then LiveOf(w, peer) + [e.connection] else LiveOf(w, peer);
    forall s | s in v.pending
      ensures IsLive(v, v.pending[s])
    {
      StillLive(w, v, v.pending[s]);
    }
  }

  lemma CoherentAfterClosed(w: World, e: InnerEvent)
    requires Coherent(w) && Allowed(w, e) && e.ConnectionClosed?
    ensures Coherent(After(w, e))
  {
    var v := After(w, e);
    WithoutTwo(LiveOf(w, e.peer), e.connection);
    assert forall peer :: LiveOf(v, peer) == if peer == e.peer then Without(LiveOf(w, peer), e.connection)
      else LiveOf(w, peer);
    PendingAfterClosed(w, e);
  }

  lemma PendingAfterClosed(w: World, e: InnerEvent)
    requires Coherent(w) && Allowed(w, e) && e.ConnectionClosed?
    ensures var v := After(w, e); forall s :: s in v.pending ==> IsLive(v, v.pending[s])
  {
    var v := After(w, e);
    forall s | s in v.pending
      ensures IsLive(v, v.pending[s])
    {
      StillLive(w, v, v.pending[s]);
    }
  }

  lemma WithoutTwo(cs: seq<ConnectionId>, c: ConnectionId)
    requires |cs| <= 2 && c in cs && (|cs| == 2 ==> cs[0] != cs[1])
    ensures Without(cs, c) == if |cs| == 1 then [] else if cs[0] == c then [cs[1]] else [cs[0]]
  {
    if |cs| == 2 {
      assert cs[1..] == [cs[1]] && cs[1..][1..] == [];
      assert Without(cs[1..], c) == if cs[1] == c then [] else [cs[1]];
    } else {
      assert cs[1..] == [];
    }
  }

  // ----- The connections tracked for a peer --------------------------------------------

  /** The context of a peer holds its open connections, the oldest as the primary. */
  ghost predicate Follows(context: Context, cs: seq<ConnectionId>) {
    && 1 <= |cs| <= 2 && context.primary.id == cs[0]
    && (if |cs| == 2 then context.secondary.Some? && context.secondary.value.id == cs[1] else context.secondary.None?)
  }

  ghost predicate Match(connections: map<PeerId, Context>, w: World) {
    && (forall peer :: peer in connections <==> LiveOf(w, peer) != [])
    && (forall peer :: peer in connections ==> Follows(connections[peer], LiveOf(w, peer)))
  }

  function Ids(context: Option<Context>): set<ConnectionId> {
    if context.None? then {}
    else {context.value.primary.id} + (if context.value.secondary.Some? then {context.value.secondary.value.id} else {})
  }

  /** A new connection becomes the primary, else the secondary, else it is ignored. */
  function Establish(context: Option<Context>, handle: Handle): Context {
    if context.None? then Context(handle, None)
    else if context.value.secondary.Some? then context.value
    else context.value.(secondary := Some(handle))
  }

  /** Closing the primary promotes the secondary; closing anything else drops the secondary. */
  function Close(context: Context, c: ConnectionId): Option<Context> {
    if context.primary.id == c then
      if context.secondary.None? then None else Some(Context(context.secondary.value, None))
    else Some(Context(context.primary, None))
  }

  /** Closing a connection forgets that one and no other exactly when it was tracked, or
      there was no secondary connection to lose. */
  lemma CloseForgetsOne(context: Context, c: ConnectionId)
    requires context.secondary.Some? ==> context.secondary.value.id != context.primary.id
    ensures Ids(Close(context, c)) == Ids(Some(context)) - {c} <==> c in Ids(Some(context)) || context.secondary.None?
  {
    if context.secondary.Some? && c !in Ids(Some(context)) {
      assert context.secondary.value.id in Ids(Some(context)) - {c};
    }
  }

  /** A third connection, once ignored, takes the secondary with it when it closes. */
  lemma ThirdConnectionDropsSecondary()
    ensures var two := Establish(Some(Establish(None, Handle(1, true))), Handle(2, true));
            var three := Establish(Some(two), Handle(3, true));
            Ids(Some(two)) == {1, 2} && three == two && Ids(Close(three, 3)) == {1}
  {
  }

  lemma MatchEstablished(connections: map<PeerId, Context>, w: World, peer: PeerId, handle: Handle)
    requires Match(connections, w) && Coherent(w) && Allowed(w, ConnectionEstablished(peer, handle.id))
    ensures var known := if peer in connections then Some(connections[peer]) else None;
            Match(connections[peer := Establish(known, handle)], After(w, ConnectionEstablished(peer, handle.id)))
  {
    var v := After(w, ConnectionEstablished(peer, handle.id));
    assert forall q :: LiveOf(v, q) == if q == peer then LiveOf(w, q) + [handle.id] else LiveOf(w, q);
  }

  lemma MatchClosed(connections: map<PeerId, Context>, w: World, peer: PeerId, c: ConnectionId)
    requires Match(connections, w) && Coherent(w) && Allowed(w, ConnectionClosed(peer, c))
    ensures peer in connections
    ensures var left := Close(connections[peer], c);
            Match(if left.None? then connections - {peer}
              else connections[peer := left.value], After(w, ConnectionClosed(peer, c)))
  {
    var v := After(w, ConnectionClosed(peer, c));
    WithoutTwo(LiveOf(w, peer), c);
    assert forall q :: LiveOf(v, q) == if q == peer then Without(LiveOf(w, q), c) else LiveOf(w, q);
  }

  /** An event that concerns no connection leaves the match. */
  lemma MatchOther(connections: map<PeerId, Context>, w: World, e: InnerEvent)
    requires Match(connections, w) && !e.ConnectionEstablished? && !e.ConnectionClosed?
    ensures Match(connections, After(w, e))
  {
    assert forall q :: LiveOf(After(w, e), q) == LiveOf(w, q);
  }

  ghost predicate ActiveIn(connections: map<PeerId, Context>, key: Key) {
    key.0 in connections &&
    var context := connections[key.0];
    || context.primary == Handle(key.1, true)
    || context.secondary == Some(Handle(key.1, true))
  }

  /** Exactly the active handles are watched. */
  ghost predicate Watched(connections: map<PeerId, Context>, keys: set<Key>) {
    forall key :: ActiveIn(connections, key) <==> key in keys
  }

  /** `ConnectionContext::downgrade` and `try_upgrade`, which succeeds while a permit is held. */
  function SetActive(context: Context, c: ConnectionId, active: bool): Context {
    if context.primary.id == c then context.(primary := Handle(c, active))
    else if context.secondary.Some? && context.secondary.value.id == c then
      context.(secondary := Some(Handle(c, active)))
    else context
  }

  // ----- The history of events ---------------------------------------------------------

  /** How often an outbound substream has been reported. */
  function Reports(events: seq<Event>, s: SubstreamId): nat {
    if events == [] then 0
    else
      var last := events[|events| - 1];
      Reports(events[..|events| - 1], s) +
      (if (last.Opened? && last.outbound == Some(s)) || (last.OpenFailed? && last.substream == s) then 1 else 0)
  }

  /** Whether the peer is up after these events; `None` if they do not alternate. */
  function Standing(events: seq<Event>, peer: PeerId): Option<bool> {
    if events == [] then Some(false)
    else
      var last, before := events[|events| - 1], Standing(events[..|events| - 1], peer);
      if last == Established(peer) then if before == Some(false) then Some(true) else None
      else if last == Closed(peer) then if before == Some(true) then Some(false) else None
      else before
  }

  lemma HistorySnoc(events: seq<Event>, e: Event)
    ensures forall s :: Reports(events + [e], s) == Reports(events, s) +
              (if (e.Opened? && e.outbound == Some(s)) || (e.OpenFailed? && e.substream == s) then 1 else 0)
    ensures forall peer :: Standing(events + [e], peer) ==
              if e == Established(peer) then (if Standing(events, peer) == Some(false) then Some(true) else None)
              else if e == Closed(peer) then (if Standing(events, peer) == Some(true) then Some(false) else None)
              else Standing(events, peer)
  {
    assert (events + [e])[..|events|] == events;
  }

  /** Every substream that was requested is pending, or has been reported exactly once. */
  ghost predicate Conserved(events: seq<Event>, pending: map<SubstreamId, ConnectionId>,
      requested: map<SubstreamId, ConnectionId>) {
    && (forall s :: Reports(events, s) + (if s in pending then 1 else 0) == if s in requested then 1 else 0)
    && (forall s :: s in pending ==> s in requested && requested[s] == pending[s])
  }

  /** Established and closed alternate for every peer, and agree with what is tracked. */
  ghost predicate Alternating(events: seq<Event>, connections: map<PeerId, Context>) {
    forall peer :: Standing(events, peer) == Some(peer in connections)
  }

  // ----- How the invariants survive each event -----------------------------------------

  /** The keys of closed connections belong to no open one. */
  ghost predicate Buried(closed: set<Key>, w: World) {
    forall key :: key in closed ==> key.1 in w.used && !IsLive(w, key.1)
  }

  lemma BuriedEstablished(closed: set<Key>, w: World, peer: PeerId, c: ConnectionId)
    requires Buried(closed, w) && Allowed(w, ConnectionEstablished(peer, c))
    ensures Buried(closed, After(w, ConnectionEstablished(peer, c))) && (peer, c) !in closed
  {
    var v := After(w, ConnectionEstablished(peer, c));
    forall key | key in closed
      ensures !IsLive(v, key.1)
    {
      assert forall q :: key.1 in LiveOf(v, q) ==> key.1 in LiveOf(w, q);
    }
  }

  lemma BuriedClosed(closed: set<Key>, w: World, peer: PeerId, c: ConnectionId)
    requires Buried(closed, w) && Coherent(w) && Allowed(w, ConnectionClosed(peer, c))
    ensures Buried(closed + {(peer, c)}, After(w, ConnectionClosed(peer, c)))
  {
    var v := After(w, ConnectionClosed(peer, c));
    forall key | key in closed + {(peer, c)}
      ensures key.1 in v.used && !IsLive(v, key.1)
    {
      assert forall q :: key.1 in LiveOf(v, q) ==> key.1 in LiveOf(w, q);
    }
  }

  lemma BuriedOther(closed: set<Key>, w: World, e: InnerEvent)
    requires Buried(closed, w) && !e.ConnectionEstablished? && !e.ConnectionClosed?
    ensures Buried(closed, After(w, e))
  {
    forall key | key in closed
      ensures !IsLive(After(w, e), key.1)
    {
      assert forall q :: key.1 in LiveOf(After(w, e), q) ==> key.1 in LiveOf(w, q);
    }
  }

  lemma WatchedEstablished(connections: map<PeerId, Context>, w: World, keys: set<Key>, peer: PeerId, c: ConnectionId)
    requires Watched(connections, keys) && Match(connections, w) && Allowed(w, ConnectionEstablished(peer, c))
    ensures var known := if peer in connections then Some(connections[peer]) else None;
            Watched(connections[peer := Establish(known, Handle(c, true))], keys + {(peer, c)})
  {
    assert peer in connections ==> Follows(connections[peer], LiveOf(w, peer));
  }

  lemma WatchedClosed(connections: map<PeerId, Context>, w: World, keys: set<Key>, peer: PeerId, c: ConnectionId)
    requires Watched(connections, keys) && Match(connections, w) && Coherent(w) && Allowed(w, ConnectionClosed(peer, c))
    ensures peer in connections
    ensures var left := Close(connections[peer], c);
            Watched(if left.None? then connections - {peer} else connections[peer := left.value], keys - {(peer, c)})
  {
    assert Follows(connections[peer], LiveOf(w, peer));
  }

  /** An event that reports no substream. */
  lemma ConservedSilent(events: seq<Event>, e: Event, pending: map<SubstreamId, ConnectionId>,
      requested: map<SubstreamId, ConnectionId>)
    requires Conserved(events, pending, requested) && !e.OpenFailed? && (e.Opened? ==> e.outbound.None?)
    ensures Conserved(events + [e], pending, requested)
  {
    HistorySnoc(events, e);
  }

  /** An event that reports one pending substream. */
  lemma ConservedReport(events: seq<Event>, e: Event, s: SubstreamId, pending: map<SubstreamId, ConnectionId>,
      requested: map<SubstreamId, ConnectionId>)
    requires Conserved(events, pending, requested) && s in pending
    requires (e.OpenFailed? && e.substream == s) || (e.Opened? && e.outbound == Some(s))
    ensures Conserved(events + [e], pending - {s}, requested)
  {
    HistorySnoc(events, e);
  }

  lemma AlternatingSilent(events: seq<Event>, e: Event, connections: map<PeerId, Context>)
    requires Alternating(events, connections) && !e.Established? && !e.Closed?
    ensures Alternating(events + [e], connections)
  {
    HistorySnoc(events, e);
  }

  lemma AlternatingEstablished(events: seq<Event>, connections: map<PeerId, Context>, peer: PeerId, context: Context)
    requires Alternating(events, connections) && peer !in connections
    ensures Alternating(events + [Established(peer)], connections[peer := context])
  {
    HistorySnoc(events, Established(peer));
  }

  lemma AlternatingClosed(events: seq<Event>, connections: map<PeerId, Context>, peer: PeerId)
    requires Alternating(events, connections) && peer in connections
    ensures Alternating(events + [Closed(peer)], connections - {peer})
  {
    HistorySnoc(events, Closed(peer));
  }

  // ----- Failing all substreams of a connection ----------------------------------------

  function Failures(ids: seq<SubstreamId>): (events: seq<Event>)
    ensures |events| == |ids|
  {
    if ids == [] then [] else Failures(ids[..|ids| - 1]) + [OpenFailed(ids[|ids| - 1], true)]
  }

  lemma {:induction false} FailuresAreOwn(ids: seq<SubstreamId>)
    ensures AllOwn(Failures(ids))
  {
    if ids != [] {
      FailuresAreOwn(ids[..|ids| - 1]);
    }
  }

  /** A close is received: failures, and perhaps the report of the close, are queued. */
  lemma ForwardedClosed(taken: seq<InnerEvent>, peer: PeerId, c: ConnectionId, emitted: seq<Event>,
      failed: seq<SubstreamId>, queued: seq<Event>)
    requires Forwarded(taken, emitted, [])
    requires queued == [] + Failures(failed) || queued == [] + Failures(failed) + [Closed(peer)]
    ensures Forwarded(taken + [ConnectionClosed(peer, c)], emitted, queued)
  {
    FailuresAreOwn(failed);
    ForwardedOwn(taken, ConnectionClosed(peer, c), emitted, [], queued);
    assert emitted + [] == emitted;
  }

  lemma FailuresSnoc(ids: seq<SubstreamId>, s: SubstreamId)
    ensures Failures(ids + [s]) == Failures(ids) + [OpenFailed(s, true)]
  {
    assert (ids + [s])[..|ids|] == ids;
  }

  /** No id occurs twice, and they are the pending substreams of connection `c`. */
  ghost predicate Listed(ids: seq<SubstreamId>, pending: map<SubstreamId, ConnectionId>, c: ConnectionId) {
    && (forall i, j :: 0 <= i < j < |ids| ==> ids[i] != ids[j])
    && (forall s :: s in ids <==> s in pending && pending[s] == c)
  }

  lemma DropOne(pending: map<SubstreamId, ConnectionId>, ids: seq<SubstreamId>)
    requires ids != []
    ensures var k := |ids| - 1;
            pending - (set s | s in ids[..k]) - {ids[k]} == pending - (set s | s in ids)
  {
    var k := |ids| - 1;
    assert (set s | s in ids) == (set s | s in ids[..k]) + {ids[k]};
  }

  lemma {:induction false} FailOne(events: seq<Event>, ids: seq<SubstreamId>, connections: map<PeerId, Context>,
      pending: map<SubstreamId, ConnectionId>, requested: map<SubstreamId, ConnectionId>)
    requires Conserved(events, pending, requested) && Alternating(events, connections)
    requires forall i, j :: 0 <= i < j < |ids| ==> ids[i] != ids[j]
    requires forall s :: s in ids ==> s in pending
    ensures Conserved(events + Failures(ids), pending - (set s | s in ids), requested)
    ensures Alternating(events + Failures(ids), connections)
  {
    if ids == [] {
      assert events + Failures(ids) == events;
      assert pending - (set s | s in ids) == pending;
    } else {
      var k := |ids| - 1;
      FailOne(events, ids[..k], connections, pending, requested);
      var before, e := events + Failures(ids[..k]), OpenFailed(ids[k], true);
      Assoc(events, Failures(ids[..k]), [e]);
      ConservedReport(before, e, ids[k], pending - (set s | s in ids[..k]), requested);
      AlternatingSilent(before, e, connections);
      DropOne(pending, ids);
    }
  }

  /** Failing the substreams of a closed connection reports each of them once. */
  lemma FailAll(events: seq<Event>, ids: seq<SubstreamId>, c: ConnectionId, connections: map<PeerId, Context>,
      pending: map<SubstreamId, ConnectionId>, requested: map<SubstreamId, ConnectionId>)
    requires Conserved(events, pending, requested) && Alternating(events, connections) && Listed(ids, pending, c)
    ensures Conserved(events + Failures(ids), Surviving(pending, c), requested)
    ensures Alternating(events + Failures(ids), connections)
  {
    FailOne(events, ids, connections, pending, requested);
    assert pending - (set s | s in ids) == Surviving(pending, c);
  }

  // ----- Activity ----------------------------------------------------------------------

  /** Marking a handle changes no id. */
  lemma MatchActive(connections: map<PeerId, Context>, w: World, peer: PeerId, c: ConnectionId, active: bool)
    requires Match(connections, w) && peer in connections
    ensures Match(connections[peer := SetActive(connections[peer], c, active)], w)
  {
  }

  lemma WatchedActive(connections: map<PeerId, Context>, w: World, keys: set<Key>, peer: PeerId, c: ConnectionId)
    requires Watched(connections, keys) && Match(connections, w) && Coherent(w) && c in LiveOf(w, peer)
    ensures peer in connections
    ensures Watched(connections[peer := SetActive(connections[peer], c, true)], keys + {(peer, c)})
  {
    assert Follows(connections[peer], LiveOf(w, peer));
  }

  lemma WatchedExpired(connections: map<PeerId, Context>, w: World, keys: set<Key>, peer: PeerId, c: ConnectionId)
    requires Watched(connections, keys) && Match(connections, w) && Coherent(w) && peer in connections
    ensures Watched(connections[peer := SetActive(connections[peer], c, false)], keys - {(peer, c)})
  {
    assert Follows(connections[peer], LiveOf(w, peer));
  }

  /** The handle of an idle connection is made weak. */
  function Downgraded(connections: map<PeerId, Context>, peer: PeerId, c: ConnectionId): map<PeerId, Context> {
    if peer in connections then connections[peer := SetActive(connections[peer], c, false)] else connections
  }

  lemma DowngradeKeeps(connections: map<PeerId, Context>, w: World, keys: set<Key>, history: seq<Event>,
      peer: PeerId, c: ConnectionId)
    requires Watched(connections, keys) && Match(connections, w) && Coherent(w) && Alternating(history, connections)
    ensures var next := Downgraded(connections, peer, c);
      && next.Keys == connections.Keys && Match(next, w) && Watched(next, keys - {(peer, c)})
        && Alternating(history, next)
      && forall key :: ActiveIn(connections, key) && !ActiveIn(next, key) ==> key == (peer, c)
  {
    if peer in connections {
      WatchedExpired(connections, w, keys, peer, c);
      MatchActive(connections, w, peer, c, false);
    }
  }

  lemma ConservedRequest(events: seq<Event>, pending: map<SubstreamId, ConnectionId>,
      requested: map<SubstreamId, ConnectionId>, s: SubstreamId, c: ConnectionId)
    requires Conserved(events, pending, requested) && s !in requested
    ensures Conserved(events, pending[s := c], requested[s := c])
  {
  }

  /** A new request does not make a queued event impossible. */
  lemma {:induction false} AllowedWithMore(w: World, events: seq<InnerEvent>, s: SubstreamId, c: ConnectionId)
    requires AllAllowed(w, events) && s !in w.pending
    ensures AllAllowed(w.(pending := w.pending[s := c]), events)
    decreases |events|
  {
    if events != [] {
      var e, v := events[0], w.(pending := w.pending[s := c]);
      assert forall peer :: LiveOf(v, peer) == LiveOf(w, peer);
      var rest := After(w, e);
      if e.ConnectionClosed? && e.connection == c {
        assert After(v, e) == rest;
      } else {
        AllowedWithMore(rest, events[1..], s, c);
        assert After(v, e) == rest.(pending := rest.pending[s := c]);
      }
    }
  }

  lemma CoherentWithMore(w: World, s: SubstreamId, c: ConnectionId, peer: PeerId)
    requires Coherent(w) && c in LiveOf(w, peer)
    ensures Coherent(w.(pending := w.pending[s := c]))
  {
    var v := w.(pending := w.pending[s := c]);
    assert forall p :: LiveOf(v, p) == LiveOf(w, p);
    forall t | t in v.pending
      ensures IsLive(v, v.pending[t])
    {
      if t == s {
        assert c in LiveOf(v, peer);
      } else {
        StillLive(w, v, v.pending[t]);
      }
    }
  }
}
