/** The controller of a yamux connection: it serves commands, each of which carries a reply
    channel that must be used. */
module YamuxControl {
  import opened Io

  type ReplyId = nat
  type StreamId = nat

  datatype Command = OpenStream(reply: ReplyId) | CloseConnection(reply: ReplyId)

  /** What is sent on a reply channel: the outcome of `poll_new_outbound`, the error
      `ConnectionError::Closed` of a refused command, or the unit answer to a close. */
  datatype Outcome = Opened(stream: StreamId) | OpenFailed | Refused | Acknowledged

  datatype Inbound = InboundPending | InboundStream(stream: StreamId) | InboundEnd | InboundError

  /** An answer of `poll_new_outbound`: pending, a stream, or an error. */
  datatype Outbound = OutboundPending | OutboundStream(stream: StreamId) | OutboundFailed

  /** An answer of `poll_close`; `Closed` is both success and `ConnectionError::Closed`. */
  datatype CloseReply = ClosePending | Closed | CloseFailed

  datatype Closing = DrainingControlCommands | ClosingConnection

  datatype State =
    | Idle
    | OpeningNewStream(reply: ReplyId)
    | Closing(replyTo: Option<ReplyId>, inner: Closing)
    | Poisoned

  /** `Poll<Option<Result<Stream>>>` */
  datatype Poll = Pending | Stream(stream: StreamId) | End | Error

  datatype Received = NoCommand | Next(command: Command) | NoMore

  datatype Move = Send(command: Command) | DropControls | Poll

  predicate Suits(c: Command, o: Outcome) {
    o.Acknowledged? <==> c.CloseConnection?
  }

  ghost predicate AllSuit(cs: seq<Command>, os: seq<Outcome>) {
    |cs| == |os| && forall i :: 0 <= i < |cs| ==> Suits(cs[i], os[i])
  }

  /** The streams that polls have returned, and those that the connection has given, in order. */
  function Returned(results: seq<Poll>): seq<StreamId> {
    if results == [] then []
    else
      var last := results[|results| - 1];
      Returned(results[..|results| - 1]) + if last.Stream? then [last.stream] else []
  }

  function Given(answers: seq<Inbound>): seq<StreamId> {
    if answers == [] then []
    else
      var last := answers[|answers| - 1];
      Given(answers[..|answers| - 1]) + if last.InboundStream? then [last.stream] else []
  }

  /** The inbound answer that a result passes on, if it leaves the machine in state `s`. */
  function PassedOn(r: Poll, s: State): seq<Inbound> {
    match r
    case Stream(id) => [InboundStream(id)]
    case End => if s.Idle? then [InboundEnd] else []
    case Error => if s.Poisoned? then [] else [InboundError]
    case Pending => []
  }

  /** The outcomes sent are those of the outbound streams, in order, and then no more of them. */
  ghost predicate HandedOut(results: seq<Outcome>, os: seq<Outcome>) {
    && results <= os
    && (forall i :: |results| <= i < |os| ==> os[i].Refused? || os[i].Acknowledged?)
  }

  /** The answer to closing that a last result passes on. */
  function ClosedBy(r: Poll): seq<CloseReply> {
    if r.Pending? then [] else [if r.Error? then CloseFailed else Closed]
  }

  /** The outcome that an answer is for whoever asked for the stream. */
  function Carrying(r: Outbound): seq<Outcome> {
    match r
    case OutboundPending => []
    case OutboundStream(id) => [Opened(id)]
    case OutboundFailed => [OpenFailed]
  }

  /** The underlying connection, whose answers are arbitrary. Its inbound side must not be polled
      again after an error. */
  class Connection {
    var inbound: seq<Inbound>
    var outbound: seq<Outbound>
    var closes: seq<CloseReply>
    ghost var inboundFailed: bool
    /** The inbound answers given, the outbound streams opened, or failed, and the answers to closing,
        so far, and how often a poll was pending. */
    ghost var given: seq<Inbound>
    ghost var outcomes: seq<Outcome>
    ghost var closings: seq<CloseReply>
    ghost var pendings: nat

    constructor (inbound: seq<Inbound>, outbound: seq<Outbound>, closes: seq<CloseReply>)
      ensures !inboundFailed && given == [] && outcomes == [] && closings == []
      ensures this.inbound == inbound && this.outbound == outbound && this.closes == closes
    {
      this.inbound, this.outbound, this.closes := inbound, outbound, closes;
      inboundFailed, given, outcomes, closings, pendings := false, [], [], [], 0;
    }

    method PollNextInbound() returns (r: Inbound)
      requires !inboundFailed
      modifies this`inbound, this`inboundFailed, this`given, this`pendings
      ensures inboundFailed == r.InboundError?
      ensures given == old(given) + (if r.InboundPending? then [] else [r])
      ensures pendings == old(pendings) + (if r.InboundPending? then 1 else 0)
    {
      r := if inbound == [] then InboundPending else inbound[0];
      inbound := if inbound == [] then [] else inbound[1..];
      inboundFailed := r.InboundError?;
      given := given + (if r.InboundPending? then [] else [r]);
      pendings := pendings + (if r.InboundPending? then 1 else 0);
    }

    method PollNewOutbound() returns (r: Outbound)
      modifies this`outbound, this`outcomes, this`pendings
      ensures outcomes == old(outcomes) + Carrying(r)
      ensures pendings == old(pendings) + (if r.OutboundPending? then 1 else 0)
    {
      r := if outbound == [] then OutboundPending else outbound[0];
      outbound := if outbound == [] then [] else outbound[1..];
      outcomes := outcomes + Carrying(r);
      pendings := pendings + (if r.OutboundPending? then 1 else 0);
    }

    method PollClose() returns (r: CloseReply)
      modifies this`closes, this`closings, this`pendings
      ensures closings == old(closings) + (if r.ClosePending? then [] else [r])
      ensures pendings == old(pendings) + (if r.ClosePending? then 1 else 0)
    {
      r := if closes == [] then ClosePending else closes[0];
      closes := if closes == [] then [] else closes[1..];
      closings := closings + (if r.ClosePending? then [] else [r]);
      pendings := pendings + (if r.ClosePending? then 1 else 0);
    }
  }

  class ControlledConnection {
    const connection: Connection
    var state: State
    /** Commands sent and not yet received; whether the receiver was closed; whether any
        control still exists. */
    var queue: seq<Command>
    var receiverClosed: bool
    var controls: bool
    /** All commands that were accepted for sending, and those received. */
    ghost var accepted: seq<Command>
    ghost var received: seq<Command>
    /** The commands whose reply was used, in that order, and what each was sent. */
    ghost var answered: seq<Command>
    ghost var outcomes: seq<Outcome>
    /** How many commands had been answered when the close request that is held was received. */
    ghost var closeAt: nat

    /** No command can arrive any more. */
    predicate Sealed()
      reads this
    {
      receiverClosed || !controls
    }

    predicate Draining()
      reads this
    {
      state.Closing? && state.inner.DrainingControlCommands?
    }

    /** Every command received was answered once, in the order received, or is held by the state;
        a held close request is answered after those received later. */
    ghost predicate Balanced(s: State)
      reads this
    {
      match s
      case OpeningNewStream(reply) => received == answered + [OpenStream(reply)]
      case Closing(Some(reply), _) =>
        closeAt <= |answered| && received == answered[..closeAt] + [CloseConnection(reply)] + answered[closeAt..]
      case Poisoned => received == answered || (closeAt < |answered| && received == Reordered(answered, closeAt))
      case _ => received == answered
    }

    /** Replies carry what they should: every stream the connection opened went to one command. */
    ghost predicate Answers()
      reads this, connection
    {
      AllSuit(answered, outcomes) && HandedOut(connection.outcomes, outcomes)
    }

    /** What the state says about the command channel. */
    ghost predicate Channel(s: State)
      reads this, connection
    {
      && accepted == received + queue
      && (s.Idle? || s.OpeningNewStream? ==>
            !receiverClosed && !connection.inboundFailed && |outcomes| == |connection.outcomes|)
      && (s.Closing? ==> (receiverClosed <==> s.replyTo.Some?))
      && (s.Closing? && s.inner.DrainingControlCommands? ==> (connection.inboundFailed <==> s.replyTo.None?))
      && (s.Poisoned? || (s.Closing? && s.inner.ClosingConnection?) ==> queue == [] && Sealed())
    }

    ghost predicate Valid()
      reads this, connection
    {
      Balanced(state) && Answers() && Channel(state)
    }

    constructor (connection: Connection)
      requires !connection.inboundFailed && connection.outcomes == []
      ensures Valid() && state.Idle? && this.connection == connection
      ensures accepted == [] && answered == [] && controls
    {
      this.connection := connection;
      state, queue, receiverClosed, controls := Idle, [], false, true;
      accepted, received, answered, outcomes, closeAt := [], [], [], [], 0;
    }

    /** Once the machine has returned its last result, every command it ever accepted has been
        answered exactly once. */
    lemma AllAnswered()
      requires Valid() && state.Poisoned?
      ensures multiset(answered) == multiset(accepted)
    {
      assert received + queue == received;
      if received != answered {
        ReorderedSame(answered, closeAt);
      }
    }

    /** A control sends a command. */
    method Enqueue(c: Command) returns (ok: bool)
      requires Valid()
      modifies this`queue, this`accepted
      ensures Valid() && (ok <==> !Sealed())
      ensures accepted == (if ok then old(accepted) + [c] else old(accepted))
    {
      if Sealed() {
        return false;
      }
      Assoc(received, queue, [c]);
      queue := queue + [c];
      accepted := accepted + [c];
      return true;
    }

    /** `poll_next_unpin` on the command channel. */
    method PollCommand() returns (r: Received)
      requires accepted == received + queue
      modifies this`queue, this`received
      ensures accepted == received + queue
      ensures r.Next? <==> old(queue) != []
      ensures r.Next? ==> received == old(received) + [r.command] && |queue| < |old(queue)|
      ensures !r.Next? ==> received == old(received) && queue == []
      ensures !r.Next? ==> (r.NoMore? <==> Sealed())
    {
      if queue == [] {
        return if Sealed() then NoMore else NoCommand;
      }
      var c := queue[0];
      assert queue == [c] + queue[1..];
      Assoc(received, [c], queue[1..]);
      received := received + [c];
      queue := queue[1..];
      return Next(c);
    }

    /** Use a reply. */
    ghost method Reply(c: Command, o: Outcome)
      requires AllSuit(answered, outcomes) && Suits(c, o)
      modifies this`answered, this`outcomes
      ensures answered == old(answered) + [c] && outcomes == old(outcomes) + [o]
      ensures AllSuit(answered, outcomes)
    {
      answered := answered + [c];
      outcomes := outcomes + [o];
    }

    /** State `Idle`: inbound streams first, then one command. */
    method StepIdle() returns (r: Option<Poll>)
      requires Valid() && state.Idle?
      modifies this`state, this`queue, this`received, this`receiverClosed, this`closeAt,
               connection`inbound, connection`inboundFailed, connection`given, connection`pendings
      ensures connection.given == old(connection.given) + if r.Some? then PassedOn(r.value, state) else []
      ensures Valid() && !state.Poisoned? && old(connection.pendings) <= connection.pendings
      ensures r.None? ==>
        |queue| < |old(queue)| || (queue == old(queue) == [] && state == Closing(None, ClosingConnection))
      ensures r.Some? ==> queue == old(queue) && (r != Some(Error) ==> state.Idle?)
      ensures r == Some(Error) ==> state == Closing(None, DrainingControlCommands) && connection.inboundFailed
      ensures r == Some(Pending) ==> queue == [] && !Sealed() && old(connection.pendings) < connection.pendings
    {
      var inbound := connection.PollNextInbound();
      match inbound {
        case InboundPending =>
        case InboundStream(id) => return Some(Stream(id));
        case InboundEnd => return Some(End);
        case InboundError =>
          state := Closing(None, DrainingControlCommands);
          return Some(Error);
      }
      var c := PollCommand();
      match c {
        case NoCommand => return Some(Pending);
        case NoMore => state := Closing(None, ClosingConnection);
        case Next(OpenStream(reply)) => state := OpeningNewStream(reply);
        case Next(CloseConnection(reply)) =>
          receiverClosed := true;
          state := Closing(Some(reply), DrainingControlCommands);
          closeAt := |answered|;
          assert answered[..closeAt] == answered;
      }
      return None;
    }

    /** State `OpeningNewStream`: the reply carries the stream or the error. */
    method StepOpening() returns (r: Option<Poll>)
      requires Valid() && state.OpeningNewStream?
      modifies this`state, this`answered, this`outcomes, connection`outbound, connection`outcomes, connection`pendings
      ensures Valid() && (if r.None? then state.Idle? else r == Some(Pending) && state == old(state))
      ensures connection.pendings == old(connection.pendings) + (if r.None? then 0 else 1)
    {
      var stream := connection.PollNewOutbound();
      if stream.OutboundPending? {
        return Some(Pending);
      }
      Reply(OpenStream(state.reply), if stream.OutboundStream? then Opened(stream.stream) else OpenFailed);
      state := Idle;
      return None;
    }

    /** State `DrainingControlCommands`: refuse what is still queued. */
    method StepDraining() returns (r: Option<Poll>)
      requires Valid() && Draining()
      modifies this`state, this`queue, this`received, this`answered, this`outcomes
      ensures Valid() && state.Closing? && state.replyTo == old(state).replyTo
      ensures r.None? ==> |queue| < |old(queue)| || (queue == old(queue) == [] && !Draining())
      ensures r.None? && |queue| < |old(queue)| ==> state == old(state)
      ensures r.Some? ==> r == Some(Pending) && state == old(state) && queue == [] && !Sealed()
      ensures !Draining() ==> Sealed()
    {
      ghost var before := answered;
      var c := PollCommand();
      match c {
        case NoCommand => return Some(Pending);
        case NoMore => state := Closing(state.replyTo, ClosingConnection);
        case Next(command) =>
          if state.replyTo.Some? {
            Inserted(before, closeAt, CloseConnection(state.replyTo.value), command);
          }
          Reply(command, if command.OpenStream? then Refused else Acknowledged);
      }
      return None;
    }

    /** State `ClosingConnection`: close, then answer whoever asked for it. */
    method StepClosing() returns (r: Poll)
      requires Valid() && state.Closing? && state.inner.ClosingConnection?
      modifies this`state, this`answered, this`outcomes, connection`closes, connection`closings, connection`pendings
      ensures connection.closings == old(connection.closings) + ClosedBy(r)
      ensures Valid() && !r.Stream? && (if r.Pending? then state == old(state) else state.Poisoned?)
      ensures connection.pendings == old(connection.pendings) + (if r.Pending? then 1 else 0)
    {
      var closed := connection.PollClose();
      if closed.ClosePending? {
        return Pending;
      }
      if state.replyTo.Some? {
        HeldLast(answered, closeAt, CloseConnection(state.replyTo.value));
        Reply(CloseConnection(state.replyTo.value), Acknowledged);
      }
      state := Poisoned;
      return if closed.CloseFailed? then Error else End;
    }

    /** How far the state is from one in which a poll returns. */
    function Rank(): nat
      reads this
    {
      match state
      case OpeningNewStream(_) => 3
      case Idle => 2
      case Closing(_, DrainingControlCommands) => 1
      case _ => 0
    }

    /** One turn of the loop while the connection is not yet being closed. */
    method StepOpen() returns (r: Option<Poll>)
      requires Valid() && (state.Idle? || state.OpeningNewStream? || Draining())
      modifies this`state, this`queue, this`received, this`receiverClosed, this`closeAt, this`answered, this`outcomes
      modifies connection`inbound, connection`inboundFailed, connection`given, connection`outbound, connection`outcomes
      modifies connection`pendings
      ensures Valid() && !state.Poisoned? && old(connection.pendings) <= connection.pendings
      ensures connection.given == old(connection.given) + if r.Some? then PassedOn(r.value, state) else []
      ensures r.None? ==> |queue| < |old(queue)| || (|queue| == |old(queue)| && Rank() < old(Rank()))
      ensures r == Some(Pending) ==> Draining() || old(connection.pendings) < connection.pendings
      ensures r == Some(Pending) && (state.Idle? || Draining()) ==> queue == [] && !Sealed()
      ensures r.Some? && r != Some(Pending) ==>
        state.Idle? || (Draining() && r == Some(Error) && connection.inboundFailed)
      ensures r.Some? && r.value.Stream? ==> state.Idle?
      ensures old(Draining()) ==>
        && state.Closing? && receiverClosed == old(receiverClosed) && (r.Some? ==> r == Some(Pending) && Draining())
        && (state.inner.ClosingConnection? ==> Sealed())
    {
      if state.Idle? {
        r := StepIdle();
      } else if state.OpeningNewStream? {
        r := StepOpening();
      } else {
        r := StepDraining();
      }
    }

    /** One poll of the stream. It terminates because the queue is finite, keeps every obligation,
        and leaves a command in the queue only when it returns early or an opening is pending. */
    method PollNext() returns (r: Poll)
      requires Valid()
      modifies this`state, this`queue, this`received, this`receiverClosed, this`closeAt,
               this`answered, this`outcomes, connection
      ensures Valid()
      ensures old(state).Poisoned? ==> r.Pending? && state.Poisoned? && answered == old(answered)
      ensures state.Poisoned? && !old(state).Poisoned? <==> !r.Pending? && !state.Idle? && !Draining()
      ensures !r.Pending? && Draining() ==> r.Error? && connection.inboundFailed
      ensures r.Stream? ==> state.Idle?
      ensures r.Pending? && (state.Idle? || Draining()) ==> queue == [] && !Sealed()
      ensures r.Pending? ==> Draining() || old(state).Poisoned? || old(connection.pendings) < connection.pendings
      ensures old(Draining() && !Sealed()) ==> r.Pending? && Draining()
      ensures connection.given == old(connection.given) + PassedOn(r, state)
      ensures connection.closings == old(connection.closings) +
        if state.Poisoned? && !old(state).Poisoned? then ClosedBy(r) else []
    {
      while true
        invariant Valid() && (old(state).Poisoned? <==> state.Poisoned?)
        invariant state.Poisoned? ==> answered == old(answered)
        invariant old(connection.pendings) <= connection.pendings
        invariant connection.given == old(connection.given) && connection.closings == old(connection.closings)
        invariant old(Draining()) ==> state.Closing? && receiverClosed == old(receiverClosed)
        invariant old(Draining()) && state.inner.ClosingConnection? ==> Sealed()
        decreases |queue|, Rank()
      {
        if state.Poisoned? {
          return Pending;
        }
        if state.Closing? && state.inner.ClosingConnection? {
          r := StepClosing();
          return;
        }
        var done := StepOpen();
        if done.Some? {
          return done.value;
        }
      }
    }

    /** Any run: controls send commands and are dropped, and the stream is polled, in any order. The
        streams that the polls return are exactly those that the connection gave, in order. */
    method Run(moves: seq<Move>) returns (results: seq<Poll>)
      requires Valid()
      modifies this, connection
      ensures Valid()
      ensures state.Poisoned? ==> multiset(answered) == multiset(accepted)
      ensures old(state).Poisoned? ==> state.Poisoned? && answered == old(answered)
      ensures Given(connection.given) == Given(old(connection.given)) + Returned(results)
    {
      results := [];
      for i := 0 to |moves|
        invariant Valid()
        invariant old(state).Poisoned? ==> state.Poisoned? && answered == old(answered)
        invariant Given(connection.given) == Given(old(connection.given)) + Returned(results)
      {
        match moves[i] {
          case Send(c) =>
            var ok := Enqueue(c);
          case DropControls => controls := false;
          case Poll =>
            ghost var given := connection.given;
            var r := PollNext();
            PassesOn(Given(old(connection.given)), given, results, r, state);
            results := results + [r];
        }
      }
      if state.Poisoned? {
        AllAnswered();
      }
    }
  }

  lemma PassesOn(before: seq<StreamId>, given: seq<Inbound>, results: seq<Poll>, r: Poll, s: State)
    requires Given(given) == before + Returned(results)
    ensures Given(given + PassedOn(r, s)) == before + Returned(results + [r])
  {
    assert (results + [r])[..|results|] == results;
    var more := PassedOn(r, s);
    if more == [] {
      assert given + more == given && Returned(results + [r]) == Returned(results) + [];
    } else {
      assert (given + more)[..|given|] == given;
      Assoc(before, Returned(results), if r.Stream? then [r.stream] else []);
    }
  }

  /** The last command moved to position `k`. */
  ghost function Reordered(answered: seq<Command>, k: nat): seq<Command>
    requires k < |answered|
  {
    var n := |answered| - 1;
    answered[..k] + [answered[n]] + answered[k..n]
  }

  lemma HeldLast(answered: seq<Command>, k: nat, held: Command)
    requires k <= |answered|
    ensures Reordered(answered + [held], k) == answered[..k] + [held] + answered[k..]
  {
    assert (answered + [held])[..k] == answered[..k];
    assert (answered + [held])[k..|answered|] == answered[k..];
  }

  lemma ReorderedSame(answered: seq<Command>, k: nat)
    requires k < |answered|
    ensures multiset(Reordered(answered, k)) == multiset(answered)
  {
    var n := |answered| - 1;
    assert answered == answered[..k] + answered[k..n] + [answered[n]];
  }

  lemma Inserted(answered: seq<Command>, k: nat, held: Command, c: Command)
    requires k <= |answered|
    ensures (answered[..k] + [held] + answered[k..]) + [c] ==
            (answered + [c])[..k] + [held] + (answered + [c])[k..]
  {
    assert (answered + [c])[..k] == answered[..k];
    assert (answered + [c])[k..] == answered[k..] + [c];
  }
}
