/** Strong and weak handles to a connection. The connection's command channel stays open as
    long as someone holds a strong reference: an active handle or a permit, also one that
    travels in a queued command. */
module Permits {
  import opened Io

  datatype Command = OpenSubstream(substream: nat) | ForceClose

  datatype SendError = Clogged | Closed

  /** The permits inside queued commands. */
  function Queued(queue: seq<Command>): nat {
    if queue == [] then 0
    else Queued(queue[..|queue| - 1]) + (if queue[|queue| - 1].OpenSubstream? then 1 else 0)
  }

  lemma QueuedSnoc(queue: seq<Command>, c: Command)
    ensures Queued(queue + [c]) == Queued(queue) + (if c.OpenSubstream? then 1 else 0)
  {
    assert (queue + [c])[..|queue|] == queue;
  }

  lemma {:induction false} QueuedHead(queue: seq<Command>)
    requires queue != []
    ensures Queued(queue) == (if queue[0].OpenSubstream? then 1 else 0) + Queued(queue[1..])
  {
    var k := |queue| - 1;
    if k > 0 {
      QueuedHead(queue[..k]);
      assert queue[..k][1..] == queue[1..][..k - 1];
    } else {
      assert queue[..0] == [] && queue[1..] == [];
    }
  }

  /** The command channel with its count of strong references. */
  class Channel {
    const capacity: nat
    var strong: nat
    var queue: seq<Command>
    var receiverClosed: bool
    /** The active handles, and the number of permits that are not in the queue. */
    ghost var holders: set<ConnectionHandle>
    ghost var permits: nat

    ghost predicate Valid()
      reads this
    {
      strong == |holders| + permits + Queued(queue)
    }

    constructor (capacity: nat)
      ensures Valid() && strong == 0 && holders == {} && permits == 0 && queue == [] && this.capacity == capacity
      ensures !receiverClosed
    {
      this.capacity := capacity;
      strong, queue, receiverClosed := 0, [], false;
      holders, permits := {}, 0;
    }

    /** Nobody holds a strong reference. */
    lemma ZeroMeansNone(h: ConnectionHandle)
      requires Valid() && strong == 0 && h.channel == this && h.Valid()
      ensures !h.active && permits == 0 && Queued(queue) == 0
    {
      assert h.active ==> 0 < |holders|;
    }

    /** A permit is cloned: someone already holds it. */
    method ClonePermit()
      requires Valid() && 0 < permits
      modifies this`strong, this`permits
      ensures Valid() && permits == old(permits) + 1 && strong == old(strong) + 1
    {
      strong := strong + 1;
      permits := permits + 1;
    }

    method DropPermit()
      requires Valid() && 0 < permits
      modifies this`strong, this`permits
      ensures Valid() && permits == old(permits) - 1 && strong == old(strong) - 1
    {
      strong := strong - 1;
      permits := permits - 1;
    }

    /** The connection takes the next command, and the permit that comes with it. */
    method Receive() returns (c: Option<Command>)
      requires Valid()
      modifies this`queue, this`permits
      ensures Valid() && (c.None? <==> old(queue) == [])
      ensures c.Some? ==> old(queue) == [c.value] + queue
      ensures permits == old(permits) + (if c.Some? && c.value.OpenSubstream? then 1 else 0)
    {
      if queue == [] {
        return None;
      }
      QueuedHead(queue);
      c := Some(queue[0]);
      if queue[0].OpenSubstream? {
        permits := permits + 1;
      }
      queue := queue[1..];
    }

    /** `try_send`: a command that cannot be queued is dropped with its permit. */
    method TrySend(c: Command) returns (error: Option<SendError>)
      requires Valid() && (c.OpenSubstream? ==> 0 < permits)
      modifies this`strong, this`queue, this`permits
      ensures Valid() && permits == old(permits) - (if c.OpenSubstream? then 1 else 0)
      ensures error.None? ==> queue == old(queue) + [c] && strong == old(strong)
      ensures error.Some? ==> queue == old(queue) && strong == old(strong) - (if c.OpenSubstream? then 1 else 0)
      ensures error == if receiverClosed then Some(Closed) else if |old(queue)| >= capacity then Some(Clogged) else None
    {
      if c.OpenSubstream? {
        permits := permits - 1;
      }
      if receiverClosed || |queue| >= capacity {
        if c.OpenSubstream? {
          strong := strong - 1;
        }
        return Some(if receiverClosed then Closed else Clogged);
      }
      QueuedSnoc(queue, c);
      queue := queue + [c];
      return None;
    }
  }

  /** A protocol's, or the connection's own, handle. */
  class ConnectionHandle {
    const channel: Channel
    const connectionId: nat
    var active: bool

    ghost predicate Valid()
      reads this, channel
    {
      channel.Valid() && (active <==> this in channel.holders)
    }

    /** `ConnectionHandle::new` with the only sender of a new channel. */
    constructor New(channel: Channel, connectionId: nat)
      requires channel.Valid() && channel.strong == 0
      modifies channel`strong, channel`holders
      ensures Valid() && active && this.channel == channel && this.connectionId == connectionId
      ensures channel.holders == old(channel.holders) + {this} && channel.strong == old(channel.strong) + 1
    {
      this.channel := channel;
      this.connectionId := connectionId;
      active := true;
      new;
      channel.strong := channel.strong + 1;
      channel.holders := channel.holders + {this};
    }

    /** A second handle in the same state. */
    constructor Clone(other: ConnectionHandle)
      requires other.Valid()
      modifies other.channel`strong, other.channel`holders
      ensures Valid() && channel == other.channel && active == other.active && connectionId == other.connectionId
      ensures channel.holders == old(other.channel.holders) + (if active then {this} else {})
      ensures channel.strong == old(other.channel.strong) + (if active then 1 else 0)
      ensures old(other.channel.strong) == 0 ==> !active
    {
      channel := other.channel;
      connectionId := other.connectionId;
      active := other.active;
      assert other.active ==> 0 < |other.channel.holders|;
      new;
      if active {
        channel.strong := channel.strong + 1;
        channel.holders := channel.holders + {this};
      }
    }

    /** `downgrade`: a new active handle, and this one becomes inactive. It must be active. */
    method Downgrade() returns (handle: ConnectionHandle)
      requires Valid() && active
      modifies this`active, channel`strong, channel`holders
      ensures Valid() && !active && channel.strong == old(channel.strong)
      ensures fresh(handle) && handle.Valid() && handle.active && handle.channel == channel
      ensures handle.connectionId == connectionId
      ensures channel.holders == old(channel.holders) - {this} + {handle}
    {
      handle := new ConnectionHandle.Clone(this);
      Close();
    }

    /** `close`: an active handle becomes inactive. Dropping a handle does the same. */
    method Close()
      requires Valid()
      modifies this`active, channel`strong, channel`holders
      ensures Valid() && !active && channel.holders == old(channel.holders) - {this}
      ensures channel.strong == old(channel.strong) - (if old(active) then 1 else 0)
    {
      if active {
        channel.strong := channel.strong - 1;
        channel.holders := channel.holders - {this};
        active := false;
      }
    }

    /** `try_upgrade`: succeeds exactly while someone still holds a strong reference. */
    method TryUpgrade()
      requires Valid()
      modifies this`active, channel`strong, channel`holders
      ensures Valid() && (active <==> 0 < old(channel.strong))
      ensures channel.holders == old(channel.holders) + (if active then {this} else {})
      ensures channel.strong == old(channel.strong) + (if active && !old(active) then 1 else 0)
    {
      assert active ==> 0 < |channel.holders|;
      if !active && 0 < channel.strong {
        channel.strong := channel.strong + 1;
        channel.holders := channel.holders + {this};
        active := true;
      }
    }

    /** `try_get_permit`: granted exactly while someone still holds a strong reference. */
    method TryGetPermit() returns (granted: bool)
      requires Valid()
      modifies channel`strong, channel`permits
      ensures Valid() && (granted <==> 0 < old(channel.strong))
      ensures channel.strong == old(channel.strong) + (if granted then 1 else 0)
      ensures channel.permits == old(channel.permits) + (if granted then 1 else 0)
    {
      assert active ==> 0 < |channel.holders|;
      if active || 0 < channel.strong {
        channel.strong := channel.strong + 1;
        channel.permits := channel.permits + 1;
        return true;
      }
      return false;
    }

    /** `open_substream` with a permit in hand: the channel cannot have lost its last
        reference, and the permit travels with the command or is dropped. */
    method OpenSubstream(substream: nat) returns (error: Option<SendError>)
      requires Valid() && 0 < channel.permits
      modifies channel`strong, channel`queue, channel`permits
      ensures Valid() && channel.permits == old(channel.permits) - 1
      ensures error.None? ==>
        && channel.strong == old(channel.strong)
        && channel.queue == old(channel.queue) + [Command.OpenSubstream(substream)]
      ensures error.Some? ==> channel.strong == old(channel.strong) - 1 && channel.queue == old(channel.queue)
      ensures error == if channel.receiverClosed then Some(Closed)
        else if |old(channel.queue)| >= channel.capacity then Some(Clogged) else None
    {
      error := channel.TrySend(Command.OpenSubstream(substream));
    }

    /** `force_close` */
    method SendForceClose() returns (error: Option<SendError>)
      requires Valid()
      modifies channel`strong, channel`queue, channel`permits
      ensures Valid() && channel.strong == old(channel.strong) && channel.permits == old(channel.permits)
      ensures error ==
        if old(channel.strong) == 0 || channel.receiverClosed then Some(Closed)
        else if |old(channel.queue)| >= channel.capacity then Some(Clogged)
        else None
      ensures channel.queue == old(channel.queue) + if error.None? then [ForceClose] else []
    {
      assert active ==> 0 < |channel.holders|;
      if !active && channel.strong == 0 {
        return Some(Closed);
      }
      error := channel.TrySend(ForceClose);
    }
  }

  // ----- A connection with its protocols -----------------------------------------------

  /** What a protocol does with its handle. */
  datatype Action = CloseHandle | Upgrade | Open(substream: nat) | Force

  /** What the connection, its protocols and its substreams do with their references. */
  datatype Move =
    /** The connection reports itself to `n` protocols. */
    | Report(n: nat)
    | Act(i: nat, action: Action)
    | OwnPermit
    | CopyPermit
    | ReleasePermit
    | TakeCommand
    | CloseReceiver

  class Connection {
    const channel: Channel
    /** The connection's own handle and those given to protocols. */
    const own: ConnectionHandle
    var handles: seq<ConnectionHandle>
    /** How many permits substreams hold. */
    var permits: nat

    ghost function All(): set<ConnectionHandle>
      reads this
    {
      {own} + (set h | h in handles)
    }

    ghost predicate Valid()
      reads this, channel, own, handles
    {
      && channel.Valid() && permits == channel.permits && own !in handles
      && (forall h :: h in All() ==> h.channel == channel && h.Valid())
      && channel.holders <= All()
    }

    /** `ProtocolSet::new` */
    constructor (connectionId: nat)
      ensures Valid() && fresh(channel) && fresh(own) && handles == [] && channel.strong == 1
    {
      var c := new Channel(256);
      channel := c;
      own := new ConnectionHandle.New(c, connectionId);
      handles, permits := [], 0;
    }

    /** The count is exactly the active handles and the permits, queued ones included. */
    lemma StrongCounts()
      requires Valid()
      ensures channel.holders == set h | h in All() && h.active
      ensures channel.strong == |set h | h in All() && h.active| + permits + Queued(channel.queue)
    {
      assert channel.holders == set h | h in All() && h.active;
    }

    /** The invariant while one more active handle is being passed around. */
    ghost predicate Lends(handle: ConnectionHandle)
      reads this, channel, own, handles, handle
    {
      && channel.Valid() && permits == channel.permits && own !in handles
      && (forall h :: h in All() ==> h.channel == channel && h.Valid())
      && handle.channel == channel && handle.Valid() && handle.active && handle !in All()
      && channel.holders <= All() + {handle}
    }

    /** Give a protocol a copy of an active handle. */
    method Give(handle: ConnectionHandle) returns (copy: ConnectionHandle)
      requires Lends(handle)
      modifies this`handles, channel`strong, channel`holders
      ensures Lends(handle) && channel.strong == old(channel.strong) + 1
      ensures fresh(copy) && copy.active && copy.connectionId == handle.connectionId && handles == old(handles) + [copy]
    {
      copy := new ConnectionHandle.Clone(handle);
      assert forall h :: h in old(All()) ==> h != copy && (h in channel.holders <==> h in old(channel.holders));
      handles := handles + [copy];
      assert All() == old(All()) + {copy} && copy.Valid() && handle.Valid();
    }

    /** Take the strong reference out of the connection's own handle. */
    method Lend() returns (handle: ConnectionHandle)
      requires Valid() && own.active
      modifies own`active, channel`strong, channel`holders
      ensures fresh(handle) && Lends(handle) && !own.active && 0 < old(channel.strong)
      ensures channel.strong == old(channel.strong) && handle.connectionId == own.connectionId
    {
      assert own in channel.holders;
      handle := own.Downgrade();
    }

    /** The handle that was passed around is dropped. */
    method TakeBack(handle: ConnectionHandle)
      requires Lends(handle)
      modifies handle`active, channel`strong, channel`holders
      ensures Valid() && channel.strong == old(channel.strong) - 1
    {
      handle.Close();
    }

    /** `report_connection_established`: one active handle to each of `n` protocols. */
    method ReportEstablished(n: nat)
      requires Valid() && own.active
      modifies this`handles, own, channel
      ensures Valid() && !own.active && 0 < old(channel.strong)
      ensures old(handles) <= handles && |handles| == |old(handles)| + n
      ensures forall h :: h in handles ==> h in old(handles) || (fresh(h) && h.active)
      ensures channel.strong + 1 == old(channel.strong) + n
      ensures forall i :: |old(handles)| <= i < |handles| ==>
        handles[i] !in handles[..i] && handles[i].connectionId == own.connectionId
    {
      var handle := Lend();
      for k := 0 to n
        invariant Lends(handle) && fresh(handle) && !own.active
        invariant old(handles) <= handles && |handles| == |old(handles)| + k
        invariant forall h :: h in handles ==> h in old(handles) || (fresh(h) && h.active)
        invariant channel.strong == old(channel.strong) + k && handle.connectionId == own.connectionId
        invariant forall i :: |old(handles)| <= i < |handles| ==>
          handles[i] !in handles[..i] && handles[i].connectionId == own.connectionId
      {
        var copy := Give(handle);
      }
      TakeBack(handle);
    }

    method CloseOne(h: ConnectionHandle)
      requires Valid() && h in handles
      modifies h`active, channel`strong, channel`holders
      ensures Valid() && !h.active && (old(channel.strong) == 0 ==> channel.strong == 0)
    {
      assert h in All();
      h.Close();
      assert forall g :: g in All() && g != h ==> (g in channel.holders <==> g in old(channel.holders));
    }

    method UpgradeOne(h: ConnectionHandle)
      requires Valid() && h in handles
      modifies h`active, channel`strong, channel`holders
      ensures Valid() && (h.active <==> 0 < old(channel.strong)) && (old(channel.strong) == 0 ==> channel.strong == 0)
    {
      assert h in All();
      h.TryUpgrade();
      assert forall g :: g in All() && g != h ==> (g in channel.holders <==> g in old(channel.holders));
    }

    /** A protocol asks for a substream: it needs a permit, which travels with the command. */
    method Request(h: ConnectionHandle, substream: nat)
      requires Valid() && h in handles
      modifies channel`strong, channel`permits, channel`queue
      ensures Valid() && (old(channel.strong) == 0 ==> channel.strong == 0 && channel.queue == old(channel.queue))
    {
      var granted := h.TryGetPermit();
      if granted {
        var error := h.OpenSubstream(substream);
      }
    }

    /** A move of one of the protocols. */
    method ProtocolStep(action: Action, h: ConnectionHandle)
      requires Valid() && h in handles
      modifies this`permits, channel, h
      ensures Valid() && (old(channel.strong) == 0 ==> channel.strong == 0)
    {
      match action
      case CloseHandle => CloseOne(h);
      case Upgrade => UpgradeOne(h);
      case Open(substream) => Request(h, substream);
      case Force => var error := h.SendForceClose();
    }

    /** A move of the connection or of a substream. */
    method ConnectionStep(move: Move)
      requires Valid()
      modifies this`permits, channel, own
      ensures Valid() && (old(channel.strong) == 0 ==> channel.strong == 0)
    {
      match move
      case OwnPermit =>
        var granted := own.TryGetPermit();
        permits := permits + if granted then 1 else 0;
      case CopyPermit =>
        if 0 < permits {
          channel.ClonePermit();
          permits := permits + 1;
        }
      case ReleasePermit =>
        if 0 < permits {
          channel.DropPermit();
          permits := permits - 1;
        }
      case TakeCommand =>
        var c := channel.Receive();
        permits := permits + if c.Some? && c.value.OpenSubstream? then 1 else 0;
      case CloseReceiver => channel.receiverClosed := true;
      case _ =>
    }

    /** A count of zero means that nobody holds a reference. */
    lemma ZeroMeansNone()
      requires Valid() && channel.strong == 0
      ensures permits == 0 && Queued(channel.queue) == 0 && forall h :: h in All() ==> !h.active
    {
      forall h | h in All()
        ensures !h.active
      {
        channel.ZeroMeansNone(h);
      }
    }

    /** Every run keeps the count exact, and once it is zero it stays zero: no permit is
        granted and no handle can be upgraded any more. */
    method Run(moves: seq<Move>)
      requires Valid()
      modifies this, channel, own, handles
      ensures Valid() && (old(channel.strong) == 0 ==> channel.strong == 0)
      ensures channel.strong == 0 ==> permits == 0 && Queued(channel.queue) == 0 && forall h :: h in All() ==> !h.active
    {
      for k := 0 to |moves|
        invariant Valid() && (old(channel.strong) == 0 ==> channel.strong == 0)
        invariant forall h :: h in handles ==> h in old(handles) || fresh(h)
      {
        match moves[k]
        case Report(n) =>
          if own.active {
            ReportEstablished(n);
          }
        case Act(i, action) =>
          if i < |handles| {
            var h := handles[i];
            assert h in handles;
            ProtocolStep(action, h);
          }
        case _ => ConnectionStep(moves[k]);
      }
      if channel.strong == 0 {
        ZeroMeansNone();
      }
    }
  }
}
