/** The service through which a protocol learns of connections and opens substreams. */
module TransportService {
  import opened Io
  import opened KeepAlive
  import opened Connections
  import Books

  /** What the command channel of a connection does with a request. */
  datatype SendResult = Sent | Clogged | Gone

  /** `ChannelClosed` is `SubstreamError::ConnectionClosed`. */
  datatype OpenError = PeerDoesNotExist | ChannelClogged | ChannelClosed

  datatype OpenResult = Id(substream: SubstreamId) | OpenErr(error: OpenError)

  datatype Poll = Pending | Ready(event: Event) | Ended

  /** The handles of the service and when their connections were last active. */
  datatype Warmth = Warmth(connections: map<PeerId, Context>, lastActivity: map<Key, nat>)

  /** Nothing has become active, and only what was idle for the whole timeout has become inactive. */
  ghost predicate Cooled(a: Warmth, b: Warmth, timeout: nat, now: nat) {
    && b.connections.Keys == a.connections.Keys
    && (forall key :: key in b.lastActivity ==> key in a.lastActivity && b.lastActivity[key] == a.lastActivity[key])
    && (forall key :: ActiveIn(b.connections, key) ==> ActiveIn(a.connections, key))
    && (forall key :: ActiveIn(a.connections, key) && !ActiveIn(b.connections, key) ==>
          key in a.lastActivity && a.lastActivity[key] + timeout <= now)
  }

  lemma CooledOn(a: Warmth, b: Warmth, c: Warmth, timeout: nat, now: nat)
    requires Cooled(a, b, timeout, now) && Cooled(b, c, timeout, now)
    ensures Cooled(a, c, timeout, now)
  {
  }

  class TransportService {
    const tracker: KeepAliveTracker
    /** Whether this protocol's substreams keep connections alive. */
    const substreamKeepAlive: bool
    var connections: map<PeerId, Context>
    var nextSubstreamId: nat
    var pendingOutbound: map<SubstreamId, ConnectionId>
    var pendingEvents: seq<Event>
    /** Events not yet received, and whether no more will come. */
    var rx: seq<InnerEvent>
    var rxClosed: bool

    /** The world after the events received so far. */
    ghost var world: World
    /** The substreams for which `open_substream` returned an id, with their connection. */
    ghost var requested: map<SubstreamId, ConnectionId>
    /** The peer of each of them, and the length of the history at that time. */
    ghost var asked: map<SubstreamId, (PeerId, nat)>
    /** The events given to the protocol. */
    ghost var emitted: seq<Event>
    /** The events received. */
    ghost var taken: seq<InnerEvent>

    /** Everything the protocol was told, and is about to be told. */
    ghost function History(): seq<Event>
      reads this
    {
      emitted + pendingEvents
    }

    ghost function Book(): Books.Book
      reads this, tracker
    {
      Books.Book(connections, world, requested, asked, History(), tracker.lastActivity.Keys, tracker.closed)
    }

    ghost function Heat(): Warmth
      reads this`connections, tracker`lastActivity
    {
      Warmth(connections, tracker.lastActivity)
    }

    ghost predicate Sound(now: nat)
      reads this, tracker
    {
      && tracker.Valid(now) && Books.Kept(Book()) && pendingOutbound == world.pending
      && (forall s :: s in requested ==> s < nextSubstreamId) && Forwarded(taken, emitted, pendingEvents)
    }

    ghost predicate Valid(now: nat)
      reads this, tracker
    {
      Sound(now) && AllAllowed(world, rx)
    }

    constructor (keepAliveTimeout: nat, substreamKeepAlive: bool)
      ensures Valid(0) && fresh(tracker) && emitted == [] && taken == [] && requested == map[] && connections == map[]
    {
      tracker := new KeepAliveTracker(keepAliveTimeout);
      this.substreamKeepAlive := substreamKeepAlive;
      connections, pendingOutbound, pendingEvents := map[], map[], [];
      nextSubstreamId, rx, rxClosed := 0, [], false;
      world := World(map[], {}, map[]);
      requested, asked, emitted, taken := map[], map[], [], [];
      Books.KeptEmpty();
    }

    /** `on_connection_established` */
    method OnConnectionEstablished(peer: PeerId, c: ConnectionId, now: nat) returns (r: Option<Event>)
      requires tracker.Valid(now)
      modifies this`connections, tracker`lastActivity, tracker`timers
      ensures tracker.Valid(now)
      ensures var known := if peer in old(connections) then Some(old(connections)[peer]) else None;
        && connections == old(connections)[peer := Establish(known, Handle(c, true))]
        && r == (if known.None? then Some(Established(peer)) else None)
        && tracker.lastActivity == if known.Some? && known.value.secondary.Some? then old(tracker.lastActivity)
                                   else old(tracker.lastActivity)[(peer, c) := now]
    {
      if peer in connections {
        var context := connections[peer];
        if context.secondary.Some? {
          return None;
        }
        tracker.SubstreamActivity((peer, c), now);
        connections := connections[peer := context.(secondary := Some(Handle(c, true)))];
        return None;
      }
      connections := connections[peer := Context(Handle(c, true), None)];
      tracker.SubstreamActivity((peer, c), now);
      return Some(Established(peer));
    }

    /** Report the substreams requested on a closed connection as failed. */
    method FailOutbound(c: ConnectionId) returns (ghost failed: seq<SubstreamId>)
      modifies this`pendingOutbound, this`pendingEvents
      ensures pendingOutbound == Surviving(old(pendingOutbound), c)
      ensures pendingEvents == old(pendingEvents) + Failures(failed)
      ensures Listed(failed, old(pendingOutbound), c)
    {
      var left := set s | s in pendingOutbound && pendingOutbound[s] == c;
      pendingOutbound := Surviving(pendingOutbound, c);
      failed := [];
      ghost var all := left;
      while left != {}
        invariant pendingOutbound == Surviving(old(pendingOutbound), c)
        invariant left <= all && pendingEvents == old(pendingEvents) + Failures(failed)
        invariant forall i, j :: 0 <= i < j < |failed| ==> failed[i] != failed[j]
        invariant forall s :: s in failed <==> s in all && s !in left
        decreases left
      {
        var s :| s in left;
        left := left - {s};
        pendingEvents := pendingEvents + [OpenFailed(s, true)];
        FailuresSnoc(failed, s);
        failed := failed + [s];
      }
    }

    /** `on_connection_closed` */
    method OnConnectionClosed(peer: PeerId, c: ConnectionId, now: nat) returns (ghost failed: seq<SubstreamId>)
      requires tracker.Valid(now)
      modifies this`connections, this`pendingOutbound, this`pendingEvents, tracker`lastActivity, tracker`closed
      ensures tracker.Valid(now)
      ensures tracker.lastActivity == old(tracker.lastActivity) - {(peer, c)}
        && tracker.closed == old(tracker.closed) + {(peer, c)}
      ensures pendingOutbound == Surviving(old(pendingOutbound), c)
      ensures Listed(failed, old(pendingOutbound), c)
      ensures if peer !in old(connections) then
          connections == old(connections) && pendingEvents == old(pendingEvents) + Failures(failed)
        else var left := Close(old(connections)[peer], c);
          if left.None? then
            && connections == old(connections) - {peer}
            && pendingEvents == old(pendingEvents) + Failures(failed) + [Closed(peer)]
          else
            && connections == old(connections)[peer := left.value]
            && pendingEvents == old(pendingEvents) + Failures(failed)
    {
      tracker.OnConnectionClosed((peer, c), now);
      failed := FailOutbound(c);
      if peer !in connections {
        return;
      }
      var context := connections[peer];
      if context.primary.id == c {
        if context.secondary.None? {
          connections := connections - {peer};
          pendingEvents := pendingEvents + [Closed(peer)];
        } else {
          connections := connections[peer := Context(context.secondary.value, None)];
        }
        return;
      }
      connections := connections[peer := context.(secondary := None)];
    }

    /** A received `ConnectionEstablished`. */
    method ReceiveEstablished(peer: PeerId, c: ConnectionId, now: nat) returns (r: Option<Event>)
      requires Sound(now) && pendingEvents == [] && Allowed(world, ConnectionEstablished(peer, c))
      modifies this`connections, this`world, this`emitted, this`taken, tracker`lastActivity, tracker`timers
      ensures Sound(now) && world == After(old(world), ConnectionEstablished(peer, c))
      ensures taken == old(taken) + [ConnectionEstablished(peer, c)]
      ensures emitted == old(emitted) + if r.Some? then [r.value] else []
      ensures r == if peer in old(connections) then None else Some(Established(peer))
      ensures tracker.lastActivity == old(tracker.lastActivity)[(peer, c) := now]
    {
      ghost var book := Book();
      Books.KeptEstablished(book, peer, c);
      r := OnConnectionEstablished(peer, c, now);
      assert tracker.lastActivity.Keys == book.keys + {(peer, c)};
      emitted := emitted + if r.Some? then [r.value] else [];
      taken := taken + [ConnectionEstablished(peer, c)];
      ForwardedOwn(old(taken), ConnectionEstablished(peer, c), old(emitted), if r.Some? then [r.value] else [], []);
      world := After(world, ConnectionEstablished(peer, c));
      assert History() == book.history + if peer in book.connections then [] else [Established(peer)];
      assert Book() == Books.Established(book, peer, c);
    }

    /** A received `ConnectionClosed`: the failures of its substreams are queued, and the
        peer's `ConnectionClosed` behind them if this was its last connection. */
    method ReceiveClosed(peer: PeerId, c: ConnectionId, now: nat)
      requires Sound(now) && pendingEvents == [] && Allowed(world, ConnectionClosed(peer, c))
      modifies this`connections, this`pendingOutbound, this`pendingEvents, this`world, this`taken
      modifies tracker`lastActivity, tracker`closed
      ensures Sound(now) && world == After(old(world), ConnectionClosed(peer, c))
      ensures taken == old(taken) + [ConnectionClosed(peer, c)]
      ensures tracker.lastActivity == old(tracker.lastActivity) - {(peer, c)}
    {
      ghost var book := Book();
      ghost var failed := OnConnectionClosed(peer, c, now);
      Books.KeptClosed(book, peer, c, failed);
      assert tracker.lastActivity.Keys == book.keys - {(peer, c)};
      taken := taken + [ConnectionClosed(peer, c)];
      ForwardedClosed(old(taken), peer, c, emitted, failed, pendingEvents);
      world := After(world, ConnectionClosed(peer, c));
      Told(emitted, Failures(failed), if Close(book.connections[peer], c).None? then [Closed(peer)] else []);
      assert Book() == Books.ClosedWith(book, peer, c, failed);
    }

    /** Failures, and perhaps a close, told behind an empty queue. */
    lemma Told(events: seq<Event>, failures: seq<Event>, last: seq<Event>)
      ensures events + ([] + failures + last) == events + [] + failures + last
      ensures last == [] ==> failures + last == failures
    {
    }

    /** Hand out an event about a substream, or about none. */
    method HandOut(event: Event, ghost e: InnerEvent, now: nat)
      requires Sound(now) && pendingEvents == [] && Allowed(world, e) && Books.Passes(event, e)
      modifies this`pendingOutbound, this`world, this`emitted, this`taken
      ensures Sound(now) && world == After(old(world), e) && emitted == old(emitted) + [event]
      ensures taken == old(taken) + [e]
    {
      ghost var book := Book();
      Books.KeptReported(book, event, e);
      if event.OpenFailed? {
        pendingOutbound := pendingOutbound - {event.substream};
      } else if event.Opened? && event.outbound.Some? {
        pendingOutbound := pendingOutbound - {event.outbound.value};
      }
      emitted := emitted + [event];
      taken := taken + [e];
      ForwardedNow(old(taken), e, old(emitted), event);
      world := After(world, e);
      assert History() == book.history + [event];
      assert Book() == Books.Reported(book, event, e);
    }

    /** Record activity on an open connection and mark its handle active. A permit is held,
        so upgrading the handle succeeds. */
    method Touch(peer: PeerId, c: ConnectionId, now: nat)
      requires Sound(now) && c in LiveOf(world, peer)
      modifies this`connections, tracker`lastActivity, tracker`timers
      ensures Sound(now) && peer in old(connections)
      ensures connections == old(connections)[peer := SetActive(old(connections)[peer], c, true)]
      ensures tracker.lastActivity == old(tracker.lastActivity)[(peer, c) := now] && ActiveIn(connections, (peer, c))
    {
      ghost var book := Book();
      Books.KeptTouched(book, peer, c);
      tracker.SubstreamActivity((peer, c), now);
      assert tracker.lastActivity.Keys == book.keys + {(peer, c)};
      connections := connections[peer := SetActive(connections[peer], c, true)];
      assert Book() == Books.Touched(book, peer, c);
    }

    /** A received `SubstreamOpened`. */
    method ReceiveOpened(peer: PeerId, c: ConnectionId, outbound: Option<SubstreamId>, ours: bool,
        now: nat) returns (event: Event)
      requires Sound(now) && pendingEvents == [] && Allowed(world, SubstreamOpened(peer, c, outbound, ours))
      modifies this`connections, this`pendingOutbound, this`world, this`emitted, this`taken
      modifies tracker`lastActivity, tracker`timers
      ensures Sound(now) && world == After(old(world), SubstreamOpened(peer, c, outbound, ours))
      ensures taken == old(taken) + [SubstreamOpened(peer, c, outbound, ours)]
      ensures emitted == old(emitted) + [event] && event == Opened(peer, outbound)
      ensures if ours && substreamKeepAlive then
                && tracker.lastActivity == old(tracker.lastActivity)[(peer, c) := now]
                && ActiveIn(connections, (peer, c))
              else tracker.lastActivity == old(tracker.lastActivity) && connections == old(connections)
    {
      event := Opened(peer, outbound);
      HandOut(event, SubstreamOpened(peer, c, outbound, ours), now);
      if ours && substreamKeepAlive {
        Touch(peer, c, now);
      }
    }

    /** A substream of this protocol counts as activity. */
    predicate Touches(e: InnerEvent)
    {
      e.SubstreamOpened? && e.ours && substreamKeepAlive
    }

    /** One received event; `Some` is the event handed to the protocol. */
    method Receive(e: InnerEvent, now: nat) returns (r: Option<Event>)
      requires Sound(now) && pendingEvents == [] && Allowed(world, e)
      modifies this`connections, this`pendingOutbound, this`pendingEvents, this`world, this`emitted, this`taken, tracker
      ensures Sound(now) && world == After(old(world), e) && taken == old(taken) + [e]
      ensures tracker.quiet == old(tracker.quiet)
      ensures emitted == old(emitted) + if r.Some? then [r.value] else []
      ensures r.None? ==> pendingEvents == []
      ensures Image(e) != [] ==> r == Some(Image(e)[0]) && pendingEvents == []
      ensures Image(e) == [] && r.Some? ==> !IsImage(r.value)
      ensures Touches(e) ==> ActiveIn(connections, (e.peer, e.connection))
      ensures tracker.lastActivity ==
        if Touches(e) || e.ConnectionEstablished? then old(tracker.lastActivity)[(e.peer, e.connection) := now]
        else if e.ConnectionClosed? then old(tracker.lastActivity) - {(e.peer, e.connection)}
        else old(tracker.lastActivity)
    {
      match e
      case ConnectionEstablished(peer, c) => r := ReceiveEstablished(peer, c, now);
      case ConnectionClosed(peer, c) =>
        ReceiveClosed(peer, c, now);
        r := NextPending(now);
      case SubstreamOpened(peer, c, outbound, ours) =>
        var event := ReceiveOpened(peer, c, outbound, ours, now);
        r := Some(event);
      case SubstreamOpenFailure(s) =>
        HandOut(OpenFailed(s, false), e, now);
        r := Some(OpenFailed(s, false));
      case DialFailure(peer) =>
        HandOut(DialFailed(peer), e, now);
        r := Some(DialFailed(peer));
    }

    /** Hand out the first queued event, if any. */
    method NextPending(now: nat) returns (r: Option<Event>)
      requires Sound(now)
      modifies this`pendingEvents, this`emitted
      ensures Sound(now) && History() == old(History())
      ensures emitted == old(emitted) + if r.Some? then [r.value] else []
      ensures r == if old(pendingEvents) == [] then None else Some(old(pendingEvents)[0])
      ensures r.Some? ==> !IsImage(r.value)
      ensures r.None? ==> pendingEvents == []
    {
      if pendingEvents == [] {
        return None;
      }
      r := Some(pendingEvents[0]);
      assert emitted + pendingEvents == emitted + [pendingEvents[0]] + pendingEvents[1..];
      ForwardedNext(taken, emitted, pendingEvents);
      emitted := emitted + [pendingEvents[0]];
      pendingEvents := pendingEvents[1..];
    }

    /** Downgrade the connections whose keep-alive timeout is over. */
    method Downgrade(now: nat)
      requires Sound(now)
      modifies this`connections, tracker`lastActivity, tracker`timers, tracker`quiet
      ensures Sound(now) && Cooled(old(Heat()), Heat(), tracker.timeout, now) && tracker.quiet == old(tracker.quiet) + 1
      ensures Fired(tracker.timers, now) == 0 || Fired(tracker.timers, now) < old(Fired(tracker.timers, now))
    {
      while true
        invariant Sound(now) && Cooled(old(Heat()), Heat(), tracker.timeout, now)
        invariant Fired(tracker.timers, now) <= old(Fired(tracker.timers, now)) && tracker.quiet == old(tracker.quiet)
        decreases Fired(tracker.timers, now)
      {
        ghost var before := Heat();
        var expired := DowngradeOne(now);
        CooledOn(old(Heat()), before, Heat(), tracker.timeout, now);
        if !expired {
          return;
        }
      }
    }

    /** One turn of that loop. */
    method DowngradeOne(now: nat) returns (expired: bool)
      requires Sound(now)
      modifies this`connections, tracker`lastActivity, tracker`timers, tracker`quiet
      ensures Sound(now) && Cooled(old(Heat()), Heat(), tracker.timeout, now)
      ensures tracker.quiet == old(tracker.quiet) + Tick(!expired)
      ensures expired ==> Fired(tracker.timers, now) < old(Fired(tracker.timers, now))
      ensures Fired(tracker.timers, now) == 0 || Fired(tracker.timers, now) < old(Fired(tracker.timers, now))
    {
      ghost var book := Book();
      var start: nat := *;
      var key, progress := tracker.PollNext(now, start);
      if key.None? {
        return false;
      }
      var peer, c := key.value.0, key.value.1;
      Books.KeptIdled(book, peer, c);
      assert tracker.lastActivity.Keys == book.keys - {(peer, c)};
      connections := Downgraded(connections, peer, c);
      assert Book() == Books.Idled(book, peer, c);
      return true;
    }

    /** A substream that is handed out is the one received last, and if it counts as activity its
        connection is active now. */
    ghost predicate Justly(r: Option<Event>, now: nat)
      reads this`taken, this`connections, tracker`lastActivity
    {
      r.Some? && IsImage(r.value) ==>
        && taken != [] && var e := taken[|taken| - 1];
        && Image(e) == [r.value]
        && (Touches(e) ==>
              var key := (e.peer, e.connection);
              ActiveIn(connections, key) && key in tracker.lastActivity && tracker.lastActivity[key] == now)
    }

    /** Receive events until one is to be handed out. */
    method ReceiveAll(now: nat) returns (r: Option<Event>)
      requires Valid(now) && pendingEvents == []
      modifies this, tracker
      ensures Valid(now) && requested == old(requested) && asked == old(asked) && rxClosed == old(rxClosed)
      ensures emitted == old(emitted) + if r.Some? then [r.value] else []
      ensures r.None? ==> pendingEvents == [] && rx == []
      ensures old(taken) + old(rx) == taken + rx && Justly(r, now) && tracker.quiet == old(tracker.quiet)
    {
      while rx != []
        invariant Valid(now) && pendingEvents == [] && emitted == old(emitted)
        invariant old(taken) + old(rx) == taken + rx && tracker.quiet == old(tracker.quiet)
        invariant requested == old(requested) && asked == old(asked) && rxClosed == old(rxClosed)
        decreases |rx|
      {
        Assoc(taken, [rx[0]], rx[1..]);
        assert rx == [rx[0]] + rx[1..];
        var event := Receive(rx[0], now);
        rx := rx[1..];
        if event.Some? {
          return event;
        }
      }
      return None;
    }

    /** `poll_next` */
    method PollNext(now: nat) returns (r: Poll)
      requires Valid(now)
      modifies this, tracker
      ensures Valid(now) && requested == old(requested) && asked == old(asked) && rxClosed == old(rxClosed)
      ensures emitted == old(emitted) + if r.Ready? then [r.event] else []
      ensures !r.Ready? ==> pendingEvents == [] && rx == [] && (r.Ended? <==> rxClosed)
      ensures r.Pending? && old(rx) == [] ==>
                Fired(tracker.timers, now) == 0 || Fired(tracker.timers, now) < old(Fired(tracker.timers, now))
      ensures r.Pending? && old(rx) == [] ==> Cooled(old(Heat()), Heat(), tracker.timeout, now)
      ensures old(pendingEvents) == [] && old(rx) == [] && !rxClosed ==> r.Pending?
      ensures old(taken) + old(rx) == taken + rx && (r.Ready? ==> Justly(Some(r.event), now))
      ensures tracker.quiet == old(tracker.quiet) + Tick(r.Pending?)
      ensures old(pendingEvents) != [] ==> r == Ready(old(pendingEvents)[0]) && taken == old(taken)
    {
      var queued := NextPending(now);
      if queued.Some? {
        return Ready(queued.value);
      }
      if rx != [] {
        var event := ReceiveAll(now);
        if event.Some? {
          return Ready(event.value);
        }
      }
      if rxClosed {
        return Ended;
      }
      Downgrade(now);
      return Pending;
    }

    /** Polling until no timer is due makes exactly those connections inactive that have been idle for
        the whole timeout. */
    method PollToQuiescence(now: nat)
      requires Valid(now) && pendingEvents == [] && rx == [] && !rxClosed
      modifies this, tracker
      ensures Valid(now) && emitted == old(emitted) && taken == old(taken)
      ensures connections.Keys == old(connections).Keys
      ensures forall key :: ActiveIn(connections, key) <==>
        && ActiveIn(old(connections), key) && key in old(tracker.lastActivity)
        && now < old(tracker.lastActivity)[key] + tracker.timeout
    {
      var quiet := false;
      while !quiet
        invariant Valid(now) && pendingEvents == [] && rx == [] && !rxClosed && emitted == old(emitted)
        invariant taken == old(taken)
        invariant Cooled(old(Heat()), Heat(), tracker.timeout, now) && (quiet ==> Fired(tracker.timers, now) == 0)
        decreases !quiet, Fired(tracker.timers, now)
      {
        ghost var before := Heat();
        var r := PollNext(now);
        CooledOn(old(Heat()), before, Heat(), tracker.timeout, now);
        assert taken + [] == taken && old(taken) + [] == old(taken);
        var due := tracker.FindFired(now, 0);
        if due.Some? {
          FiredCounts(tracker.timers, tracker.timers[due.value], now);
        }
        quiet := due.None?;
      }
      tracker.QuietMeansFresh(now);
      Cold(old(Heat()), now);
    }

    /** `open_substream`. `alive` says whether an inactive handle can be upgraded, `sent`
        what the connection's channel does with the request, and `skipped` how many ids
        other protocols have taken since. */
    method OpenSubstream(peer: PeerId, now: nat, alive: bool, sent: SendResult, skipped: nat) returns (r: OpenResult)
      requires Valid(now)
      modifies this, tracker
      ensures Valid(now) && emitted == old(emitted) && pendingEvents == old(pendingEvents)
      ensures r == OpenErr(PeerDoesNotExist) <==> peer !in old(connections)
      ensures peer in old(connections) ==>
        var reached := old(connections)[peer].primary.active || alive;
        && (r == OpenErr(ChannelClosed) <==> !reached || sent.Gone?)
        && (r == OpenErr(ChannelClogged) <==> reached && sent.Clogged?)
        && (reached && substreamKeepAlive ==>
              var c := old(connections)[peer].primary.id;
              && tracker.lastActivity == old(tracker.lastActivity)[(peer, c) := now]
              && connections == old(connections)[peer := SetActive(old(connections)[peer], c, true)])
        && (!reached || !substreamKeepAlive ==>
              tracker.lastActivity == old(tracker.lastActivity) && connections == old(connections))
      ensures peer !in old(connections) ==>
        tracker.lastActivity == old(tracker.lastActivity) && connections == old(connections)
      ensures taken == old(taken) && rx == old(rx)
      ensures r.Id? ==> r.substream == old(nextSubstreamId) + skipped && nextSubstreamId == r.substream + 1
      ensures r.Id? ==> r.substream !in old(requested) && peer in old(connections)
      ensures r.Id? ==> requested == old(requested)[r.substream := old(connections)[peer].primary.id]
      ensures r.Id? ==> asked == old(asked)[r.substream := (peer, |History()|)]
      ensures r.OpenErr? ==> requested == old(requested) && asked == old(asked)
    {
      if peer !in connections {
        return OpenErr(PeerDoesNotExist);
      }
      var handle := connections[peer].primary;
      var c := handle.id;
      if !handle.active && !alive {
        return OpenErr(ChannelClosed);
      }
      var id := nextSubstreamId + skipped;
      nextSubstreamId := id + 1;
      Books.PrimaryIsOpen(Book(), peer);
      if substreamKeepAlive {
        Touch(peer, c, now);
      }
      match sent
      case Clogged => return OpenErr(ChannelClogged);
      case Gone => return OpenErr(ChannelClosed);
      case Sent =>
        Request(id, c, peer, now);
        return Id(id);
    }

    /** A request on an open connection has been sent. */
    method Request(id: SubstreamId, c: ConnectionId, peer: PeerId, now: nat)
      requires Valid(now) && id !in requested && id < nextSubstreamId && c in LiveOf(world, peer)
      modifies this`pendingOutbound, this`requested, this`asked, this`world
      ensures Valid(now) && requested == old(requested)[id := c] && asked == old(asked)[id := (peer, |History()|)]
    {
      ghost var book := Book();
      Books.KeptRequested(book, id, peer, c);
      AllowedWithMore(world, rx, id, c);
      pendingOutbound := pendingOutbound[id := c];
      requested, asked := requested[id := c], asked[id := (peer, |History()|)];
      world := world.(pending := world.pending[id := c]);
      assert Book() == Books.Requested(book, id, peer, c);
    }

    /** The environment reports an event that it may report. */
    method Deliver(e: InnerEvent, now: nat)
      requires Valid(now) && AllAllowed(world, rx + [e])
      modifies this`rx
      ensures Valid(now) && rx == old(rx) + [e]
    {
      rx := rx + [e];
    }

    /** Time passes. */
    lemma LaterIsValid(now: nat, later: nat)
      requires Valid(now) && now <= later
      ensures Valid(later)
    {
      tracker.LaterIsValid(now, later);
    }

    /** A substream is reported at most once; once its connection has closed and the queue is
        drained it has been reported exactly once. */
    lemma ReportedOnce(now: nat, s: SubstreamId)
      requires Valid(now)
      ensures Reports(emitted, s) <= 1
      ensures s in requested && !IsLive(world, requested[s]) && pendingEvents == [] ==> Reports(emitted, s) == 1
      ensures s !in requested ==> Reports(emitted, s) == 0
    {
      Books.Look(Book());
      Books.ReportsPrefix(emitted, pendingEvents, s);
      if pendingEvents == [] {
        assert emitted + [] == emitted;
      }
    }

    /** Every inbound or outbound substream received, every failure to open one and every failed dial
        has been handed out exactly once, in order, and nothing else of these kinds. */
    lemma PassedOnOnce(now: nat)
      requires Valid(now)
      ensures PassedOn(emitted) == Images(taken) && PassedOn(History()) == Images(taken)
    {
      assert Forwarding(0);
      PassedOnConcat(emitted, pendingEvents);
      NothingPassedOn(pendingEvents);
    }

    /** A substream is reported before its peer is reported closed: no close of the peer lies
        between the request and the report. */
    lemma ReportedBeforeClosed(now: nat, s: SubstreamId, i: nat, j: nat)
      requires Valid(now) && s in requested && j < |emitted| && Books.Speaks(emitted[j], s)
      requires s in asked && asked[s].1 <= i < j
      ensures emitted[i] != Closed(asked[s].0)
    {
      Books.Look(Book());
      assert History()[j] == emitted[j] && History()[..j][i] == emitted[i];
    }

    /** Exactly the active connections are watched, and every connection watched is open and has
        exactly one timer, due in time. */
    lemma OneTimer(now: nat, key: Key)
      requires Valid(now) && (key in tracker.lastActivity || ActiveIn(connections, key))
      ensures key in tracker.lastActivity && ActiveIn(connections, key) && key.1 in LiveOf(world, key.0)
      ensures HasTimer(tracker.timers, key, tracker.lastActivity[key] + tracker.timeout)
      ensures forall i, j :: 0 <= i < j < |tracker.timers| && tracker.timers[i].key == key ==>
        tracker.timers[j].key != key
    {
      Books.Look(Book());
      assert Timed(0) && IsLive(world, key.1);
    }

    /** When no timer is due. */
    lemma Cold(before: Warmth, now: nat)
      requires Sound(now) && Cooled(before, Heat(), tracker.timeout, now)
      requires forall key :: key in tracker.lastActivity ==> !tracker.Due(key, now)
      ensures forall key :: ActiveIn(connections, key) <==>
        && ActiveIn(before.connections, key) && key in before.lastActivity
        && now < before.lastActivity[key] + tracker.timeout
    {
      Books.Look(Book());
    }

    /** What is tracked for a peer is exactly its open connections, the oldest as the primary,
        and the protocol, once the queue is drained, thinks the peer up exactly then. */
    lemma TracksOpenConnections(now: nat, peer: PeerId)
      requires Valid(now)
      ensures peer in connections <==> LiveOf(world, peer) != []
      ensures peer in connections ==> Ids(Some(connections[peer])) == set c | c in LiveOf(world, peer)
      ensures peer in connections ==> connections[peer].primary.id == LiveOf(world, peer)[0]
      ensures Standing(emitted, peer).Some? && Standing(History(), peer) == Some(LiveOf(world, peer) != [])
      ensures pendingEvents == [] ==> Standing(emitted, peer) == Some(LiveOf(world, peer) != [])
    {
      Books.Look(Book());
      Books.StandingPrefix(emitted, pendingEvents, peer);
      if peer in connections {
        assert Follows(connections[peer], LiveOf(world, peer));
      }
      if pendingEvents == [] {
        assert emitted + [] == emitted;
      }
    }
  }
}
