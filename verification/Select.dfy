/** The dialer and the listener of multistream-select as pollable machines over a framed
    byte stream. */
module Select {
  import opened Io
  import opened Multistream
  import opened LengthDelimited
  import opened MessageIo
  import opened Negotiation

  /** What a finished negotiation returned. `Violation` is a protocol error, `Garbled` an
      unreadable frame length, `IoError` a failure of the inner stream, and `Optimistic` a
      name settled on before it was confirmed. */
  datatype Verdict = Selected(name: bytes) | Optimistic(name: bytes) | Failed | Violation | Garbled | IoError

  datatype Version = V1 | V1Lazy

  /** Mentioned where the trace of a machine, its standing as a function of what it consumed,
      is to be unfolded. */
  predicate Traced(i: int) {
    true
  }

  /** A name that can be proposed at all. */
  predicate Sendable(name: bytes) {
    IsName(name) && |name| + 1 <= MAX_FRAME_SIZE
  }

  // ----- The dialer --------------------------------------------------------------------

  datatype DialerState =
    | SendHeader
    | SendProtocol(protocol: bytes, headerReceived: bool)
    | FlushProtocol(protocol: bytes, headerReceived: bool)
    | AwaitProtocol(protocol: bytes, headerReceived: bool)
    | Done(verdict: Verdict)

  /** What a dialer has consumed and submitted, and where it stands. */
  ghost predicate DialerTrace(names: seq<bytes>, inbox: seq<Message>, outbox: seq<Message>, view: DialerView,
      greeted: bool, proposed: nat) {
    forall i {:trigger Traced(i)} :: i == 0 && Traced(i) ==>
      && proposed <= |names|
      && view == DialerAfter(names, inbox)
      && outbox == if greeted then Proposals(names, proposed) else []
  }

  lemma DialerHears(names: seq<bytes>, inbox: seq<Message>, outbox: seq<Message>, view: DialerView, greeted: bool,
      proposed: nat, m: Message)
    requires DialerTrace(names, inbox, outbox, view, greeted, proposed)
    ensures DialerTrace(names, inbox + [m], outbox, DialerStep(names, view, m), greeted, proposed)
  {
    assert Traced(0);
    DialerSnoc(names, inbox, m);
  }

  lemma DialerGreets(names: seq<bytes>, inbox: seq<Message>, outbox: seq<Message>, view: DialerView)
    requires DialerTrace(names, inbox, outbox, view, false, 0)
    ensures DialerTrace(names, inbox, outbox + [Header], view, true, 0)
  {
    assert Traced(0);
  }

  lemma DialerProposes(names: seq<bytes>, inbox: seq<Message>, outbox: seq<Message>, view: DialerView, proposed: nat)
    requires DialerTrace(names, inbox, outbox, view, true, proposed) && proposed < |names|
    ensures DialerTrace(names, inbox, outbox + [Protocol(names[proposed])], view, true, proposed + 1)
  {
    assert Traced(0);
  }

  class Dialer {
    const io: MessageIo
    const names: seq<bytes>
    const version: Version
    /** The position of the iterator over the names. */
    var next: nat
    var state: DialerState
    /** Whether the header, and how many proposals, have been submitted. */
    ghost var greeted: bool
    ghost var proposed: nat

    /** The standing that follows from the messages consumed. */
    ghost var view: DialerView

    ghost predicate Tracks()
      reads this, io
    {
      DialerTrace(names, io.inbox, io.outbox, view, greeted, proposed)
    }

    /** Proposal `next - 1` is the open one, and `n` proposals have been submitted. */
    ghost predicate Proposes(p: bytes, h: bool, n: int)
      reads this
    {
      greeted && 0 < next <= |names| && p == names[next - 1] && view == Waiting(next - 1, h) && proposed == n
    }

    /** The dialer is done with the stream: it has not settled on a name optimistically. */
    predicate Over()
      reads this
    {
      state.Done? && !state.verdict.Optimistic?
    }

    /** Why the negotiation ended. */
    ghost predicate Ends(verdict: Verdict)
      reads this, io, io.io, io.io.source`received, io.io.source`eof, io.io.source`failed
      reads io.io.sink`sent, io.io.sink`failed, io.io.sink`stalled
    {
      match verdict
      case Selected(name) =>
        && greeted && view.Confirmed? && view.i < |names| && name == names[view.i] && proposed == view.i + 1
        && io.io.writeBuffer == [] && io.AtBoundary()
      case Optimistic(name) =>
        version == V1Lazy && greeted && names != [] && view.Waiting? && view.i == |names| - 1
          && name == names[view.i] && proposed == |names|
      case Failed =>
        && greeted
        && (if names == [] then io.io.sink.sent == [] else io.io.writeBuffer == [])
        && (if view.Exhausted? then proposed == |names|
            else view.Waiting? && proposed == view.i + 1 && io.io.source.eof && io.BetweenFrames())
      case Violation =>
        io.health.BadFrame? || view == DialerBroken || (0 < next <= |names| && !Sendable(names[next - 1]))
      case Garbled => io.health.BadLength?
      case IoError => io.Lost()
    }

    ghost predicate Valid()
      reads this, io, io.io, io.io.source`received, io.io.source`eof, io.io.source`failed
      reads io.io.sink`sent, io.io.sink`failed, io.io.sink`stalled
    {
      && io.Valid() && Tracks() && io.data == []
      && (greeted ==> proposed < MaySend(view, names))
      && (names == [] ==> view == Exhausted)
      && (io.health.Clean? || state == Done(Violation) || state == Done(Garbled))
      && match state
         case Done(verdict) => Ends(verdict)
         case SendHeader =>
           && !greeted && view == (if names == [] then Exhausted else Waiting(0, false)) && next == 0 && proposed == 0
           && io.io.sink.sent == io.io.writeBuffer == []
         case SendProtocol(p, h) => Proposes(p, h, next - 1)
         case FlushProtocol(p, h) => Proposes(p, h, next) && (version == V1 || next < |names|)
         case AwaitProtocol(p, h) =>
           Proposes(p, h, next) && (version == V1 || next < |names|) && io.io.writeBuffer == []
    }

    constructor (source: Source, sink: Sink, names: seq<bytes>, version: Version)
      requires source.received == [] && sink.sent == []
      ensures Valid() && fresh(io) && fresh(io.io) && state == SendHeader && this.names == names
        && this.version == version
      ensures io.io.source == source && io.io.sink == sink
    {
      io := new MessageIo(source, sink);
      this.names := names;
      this.version := version;
      next, state := 0, SendHeader;
      greeted, proposed, view := false, 0, DialerAfter(names, []);
    }

    /** Send the header and take the first name. */
    method Open()
      requires Valid() && state.SendHeader? && |io.io.writeBuffer| < MAX_FRAME_SIZE
      modifies this`state, this`next, this`greeted, io`outbox, io.io`writeBuffer, io.io`submitted
      ensures Valid() && (state.SendProtocol? || state.Done?) && state != Done(IoError)
    {
      io.StartSendHeader();
      DialerGreets(names, io.inbox, old(io.outbox), view);
      greeted := true;
      if next == |names| {
        state := Done(Failed);
      } else {
        next := next + 1;
        state := SendProtocol(names[next - 1], false);
      }
    }

    /** Submit one more proposal. */
    method Offer(p: bytes) returns (ok: bool)
      requires io.Valid() && Tracks() && io.health.Clean? && io.data == [] && |io.io.writeBuffer| < MAX_FRAME_SIZE
      requires greeted && proposed < |names| && p == names[proposed]
      modifies this`proposed, io`outbox, io.io`writeBuffer, io.io`submitted
      ensures io.Valid() && Tracks()
      ensures ok <==> Sendable(p)
      ensures proposed == if ok then old(proposed) + 1 else old(proposed)
    {
      if !IsName(p) {
        return false;
      }
      DialerProposes(names, io.inbox, io.outbox, view, proposed);
      ok := io.StartSendName(p);
      if ok {
        proposed := proposed + 1;
      }
    }

    /** Propose the current name. */
    method Propose()
      requires Valid() && state.SendProtocol? && |io.io.writeBuffer| < MAX_FRAME_SIZE
      modifies this`state, this`proposed, io`outbox, io.io`writeBuffer, io.io`submitted
      ensures Valid() && state == if !Sendable(old(state).protocol) then Done(Violation)
        else if next < |names| || version == V1 then FlushProtocol(old(state).protocol, old(state).headerReceived)
        else Done(Optimistic(old(state).protocol))
    {
      var p, h := state.protocol, state.headerReceived;
      var ok := Offer(p);
      state :=
        if !ok then Done(Violation)
        else if next < |names| || version == V1 then FlushProtocol(p, h)
        else Done(Optimistic(p));
    }

    /** States `SendHeader` and `SendProtocol`. */
    method StepSend() returns (blocked: bool)
      requires Valid() && (state.SendHeader? || state.SendProtocol?)
      modifies this`state, this`next, this`greeted, this`proposed, io`outbox, io.io`writeBuffer
      modifies io.io`submitted, io.io.sink
      ensures Valid() && old(io.io.sink.sent) <= io.io.sink.sent
      ensures io.io.sink.pendings == old(io.io.sink.pendings) + (if blocked then 1 else 0)
      ensures StopsOnly(old(Stops()))
      ensures if blocked then state == old(state)
              else state.Done? || (if old(state).SendHeader? then state.SendProtocol? else state.FlushProtocol?)
    {
      var ready := io.PollReady();
      match ready {
        case Blocked => return true;
        case Broken(_) => state := Done(IoError);
        case Complete =>
          if state.SendHeader? {
            Open();
          } else {
            Propose();
          }
      }
      return false;
    }

    /** State `FlushProtocol`. */
    method StepFlush() returns (blocked: bool)
      requires Valid() && state.FlushProtocol?
      modifies this`state, io.io`writeBuffer, io.io.sink
      ensures Valid() && (if blocked then state == old(state) else state.AwaitProtocol? || state.Done?)
      ensures old(io.io.sink.sent) <= io.io.sink.sent
      ensures io.io.sink.flushes == old(io.io.sink.flushes) + Tick(state.AwaitProtocol?)
      ensures io.io.sink.pendings == old(io.io.sink.pendings) + (if blocked then 1 else 0)
      ensures StopsOnly(old(Stops()))
    {
      var flushed := io.PollFlush();
      match flushed {
        case Blocked => return true;
        case Broken(_) => state := Done(IoError);
        case Complete => state := AwaitProtocol(state.protocol, state.headerReceived);
      }
      return false;
    }

    /** One message consumed while proposal `next - 1` was open. */
    method Consume(m: Message)
      requires io.Valid() && Tracks() && io.data == [] && io.health.Clean? && io.AtBoundary() && io.io.writeBuffer == []
      requires state.AwaitProtocol? && greeted && 0 < next <= |names| && state.protocol == names[next - 1]
        && proposed == next && (version == V1 || next < |names|)
      requires view == DialerStep(names, Waiting(next - 1, state.headerReceived), m)
      modifies this`state, this`next
      ensures Valid() && !state.SendHeader? && !state.FlushProtocol? && state != Done(IoError)
    {
      var p, h := state.protocol, state.headerReceived;
      if m == Header && !h {
        state := AwaitProtocol(p, true);
      } else if m == Protocol(p) {
        // The stream is taken back: both buffers are empty.
        assert io.io.readBuffer == [] && io.io.writeBuffer == [];
        state := Done(Selected(p));
      } else if m == NotAvailable {
        if next == |names| {
          state := Done(Failed);
        } else {
          next := next + 1;
          state := SendProtocol(names[next - 1], h);
        }
      } else {
        state := Done(Violation);
      }
    }

    /** Read one message and take its effect on the standing. */
    method Hear() returns (r: Received)
      requires io.Valid() && Tracks() && io.health.Clean?
      modifies this`view, io`inbox, io`health, io.io`readState, io.io`readBuffer, io.io`frames, io.io.source
      ensures io.Valid() && Tracks()
      ensures Leads(old(io.io.source.Now()), io.io.source.Now())
      ensures io.io.source.pendings == old(io.io.source.pendings) + (if r.Nothing? then 1 else 0)
      ensures io.io.source.ends == old(io.io.source.ends) + Tick(r.Finish? || r == Faulty(UnexpectedEof))
      ensures io.io.source.errors == old(io.io.source.errors) + Tick(r == Faulty(InnerError))
      ensures r.Got? ==> TapeSize(io.io.source.tape) < old(TapeSize(io.io.source.tape))
      ensures view == if r.Got? then DialerStep(names, old(view), r.message) else old(view)
      ensures match r
        case Got(m) => io.health.Clean? && io.AtBoundary()
        case Undecodable(error) => io.health.BadFrame?
        case Finish => io.health.Clean? && io.io.source.eof && io.BetweenFrames()
        case Faulty(fault) =>
          if fault == InvalidData then io.health.BadLength?
          else
            && io.health.Clean? && fault != WriteZero
            && if fault == UnexpectedEof then io.io.source.eof && !io.AtBoundary() else io.io.source.failed
        case Nothing => io.health.Clean?
    {
      r := io.PollNext();
      if r.Got? {
        DialerHears(names, old(io.inbox), io.outbox, view, greeted, proposed, r.message);
        view := DialerStep(names, view, r.message);
      }
    }

    /** State `AwaitProtocol`. */
    method StepAwait() returns (blocked: bool)
      requires Valid() && state.AwaitProtocol?
      modifies this`state, this`next, this`view, io`inbox, io`health, io.io`readState, io.io`readBuffer
      modifies io.io`frames, io.io.source
      ensures Valid() && (blocked ==> state == old(state))
      ensures Leads(old(io.io.source.Now()), io.io.source.Now())
      ensures io.io.source.pendings == old(io.io.source.pendings) + (if blocked then 1 else 0)
      ensures StopsOnly(old(Stops()))
      ensures !blocked && !state.Done? ==> TapeSize(io.io.source.tape) < old(TapeSize(io.io.source.tape))
    {
      var r := Hear();
      if r.Got? {
        Consume(r.message);
        return false;
      }
      if r.Nothing? {
        return true;
      }
      state := Done(
        if r.Finish? then Failed
        else if r.Undecodable? then Violation
        else if r.fault == InvalidData then Garbled
        else IoError);
      return false;
    }

    /** How often the inner stream has ended, failed or taken nothing. */
    ghost function Stops(): nat
      reads io.io.source`ends, io.io.source`errors, io.io.sink`zeros, io.io.sink`errors
    {
      io.io.source.ends + io.io.source.errors + io.io.sink.zeros + io.io.sink.errors
    }

    /** Such an answer ends the negotiation, and an I/O error comes only from one. */
    ghost predicate StopsOnly(before: nat)
      reads this`state, io.io.source`ends, io.io.source`errors, io.io.sink`zeros, io.io.sink`errors
    {
      if state == Done(IoError) then Stops() == before + 1
      else Stops() == before || (Stops() == before + 1 && state == Done(Failed))
    }

    /** How often the inner stream was not ready. */
    ghost function Waits(): nat
      reads io.io.source`pendings, io.io.sink`pendings
    {
      io.io.source.pendings + io.io.sink.pendings
    }

    function Rank(): nat
      reads this
    {
      match state
      case SendHeader => 4
      case SendProtocol(_, _) => 3
      case FlushProtocol(_, _) => 2
      case AwaitProtocol(_, _) => 1
      case Done(_) => 0
    }

    /** One turn of the loop. */
    method Step() returns (blocked: bool)
      requires Valid() && !state.Done?
      modifies this, io, io.io, io.io.source, io.io.sink
      ensures Valid() && (blocked ==> !state.Done?)
      ensures Leads(old(io.io.source.Now()), io.io.source.Now()) && old(io.io.sink.sent) <= io.io.sink.sent
      ensures Waits() == old(Waits()) + (if blocked then 1 else 0) && StopsOnly(old(Stops()))
      ensures !blocked && !state.Done? ==>
        || TapeSize(io.io.source.tape) < old(TapeSize(io.io.source.tape))
        || (TapeSize(io.io.source.tape) == old(TapeSize(io.io.source.tape)) && Rank() < old(Rank()))
    {
      LeadsSelf(io.io.source.Now());
      if state.AwaitProtocol? {
        blocked := StepAwait();
      } else if state.FlushProtocol? {
        blocked := StepFlush();
      } else {
        blocked := StepSend();
      }
    }

    /** `DialerSelectFuture::poll`: `None` is pending. */
    method Poll() returns (r: Option<Verdict>)
      requires Valid() && !state.Done?
      modifies this, io, io.io, io.io.source, io.io.sink
      ensures Valid() && (r.Some? <==> state.Done?) && (r.Some? ==> state == Done(r.value))
      ensures Leads(old(io.io.source.Now()), io.io.source.Now()) && old(io.io.sink.sent) <= io.io.sink.sent
      ensures Waits() == old(Waits()) + (if r.None? then 1 else 0) && StopsOnly(old(Stops()))
    {
      LeadsSelf(io.io.source.Now());
      while !state.Done?
        invariant Valid() && old(io.io.sink.sent) <= io.io.sink.sent
        invariant Leads(old(io.io.source.Now()), io.io.source.Now())
        invariant Waits() == old(Waits()) && StopsOnly(old(Stops()))
        decreases !state.Done?, TapeSize(io.io.source.tape), Rank()
      {
        ghost var before := io.io.source.Now();
        var blocked := Step();
        LeadsOn(old(io.io.source.Now()), before, io.io.source.Now());
        if blocked {
          return None;
        }
      }
      return Some(state.verdict);
    }
  }

  // ----- The listener ------------------------------------------------------------------

  datatype ListenerState =
    | RecvHeader
    | SendHeaderBack
    | RecvMessage
    | SendMessage(message: Message, protocol: Option<bytes>)
    | Flush(protocol: Option<bytes>)
    | Finished(verdict: Verdict)

  /** The names a listener keeps: those that are valid. */
  function Supported(names: seq<bytes>): (kept: seq<bytes>)
    ensures forall name :: name in kept <==> name in names && IsName(name)
  {
    if names == [] then []
    else (if IsName(names[0]) then [names[0]] else []) + Supported(names[1..])
  }

  predicate TooLong(m: Message) {
    |Encoding(m)| > MAX_FRAME_SIZE
  }

  /** What a listener has consumed, submitted and still owes, and where it stands. The last message
      was consumed while it listened. */
  ghost predicate ListenerTrace(protocols: seq<bytes>, inbox: seq<Message>, outbox: seq<Message>,
      view: ListenerView, owed: seq<Message>) {
    forall i {:trigger Traced(i)} :: i == 0 && Traced(i) ==>
      && view == ListenerAfter(protocols, inbox) && outbox + owed == ListenerOut(protocols, inbox)
      && (inbox != [] ==> ListenerAfter(protocols, inbox[..|inbox| - 1]).Listens())
  }

  lemma ListenerHears(protocols: seq<bytes>, inbox: seq<Message>, outbox: seq<Message>, view: ListenerView, m: Message)
    requires ListenerTrace(protocols, inbox, outbox, view, []) && view.Listens()
    ensures var step := ListenerStep(protocols, view, m); ListenerTrace(protocols, inbox + [m], outbox, step.0, step.1)
  {
    assert Traced(0);
    assert outbox + [] == outbox && (inbox + [m])[..|inbox|] == inbox;
    ListenerSnoc(protocols, inbox, m);
  }

  lemma ListenerAnswers(protocols: seq<bytes>, inbox: seq<Message>, outbox: seq<Message>, view: ListenerView,
      m: Message)
    requires ListenerTrace(protocols, inbox, outbox, view, [m])
    ensures ListenerTrace(protocols, inbox, outbox + [m], view, [])
  {
    assert Traced(0);
    assert outbox + [m] + [] == outbox + [m];
  }

  class Listener {
    const io: MessageIo
    /** The supported names, invalid ones left out. */
    const protocols: seq<bytes>
    var state: ListenerState
    var lastSentNa: bool
    /** The standing that follows from the messages consumed, and the answer not yet submitted. */
    ghost var view: ListenerView
    ghost var owed: seq<Message>

    ghost predicate Tracks()
      reads this, io
    {
      ListenerTrace(protocols, io.inbox, io.outbox, view, owed)
    }

    /** The flag records whether the last message submitted was a rejection. */
    ghost predicate Flagged()
      reads this, io
    {
      lastSentNa <==> io.outbox != [] && io.outbox[|io.outbox| - 1] == NotAvailable
    }

    ghost predicate Settles(protocol: Option<bytes>)
      reads this
    {
      view == if protocol.Some? then Chosen(protocol.value) else Open
    }

    /** Why the negotiation ended. */
    ghost predicate Ends(verdict: Verdict)
      reads this, io, io.io, io.io.source`received, io.io.source`eof, io.io.source`failed
      reads io.io.sink`sent, io.io.sink`failed, io.io.sink`stalled
    {
      match verdict
      case Selected(name) => owed == [] && view == Chosen(name) && io.io.writeBuffer == [] && io.AtBoundary()
      case Failed =>
        && owed == [] && view.Listens() && io.io.writeBuffer == []
        && (if io.health.Clean? then io.io.source.eof && (io.BetweenFrames() || lastSentNa)
            else io.health == BadFrame(InvalidMessage) && lastSentNa)
      case Violation =>
        || (io.health.BadFrame? && view.Listens() && !(io.health.error == InvalidMessage && lastSentNa))
        || view == ListenerBroken
        || (|owed| == 1 && TooLong(owed[0]))
      case Garbled => io.health.BadLength? && view.Listens()
      case IoError =>
        || io.io.sink.failed || io.io.sink.stalled || io.io.source.failed
        || (io.health.Clean? && io.io.source.eof && !io.AtBoundary() && !lastSentNa)
      case Optimistic(_) => false
    }

    ghost predicate Valid()
      reads this, io, io.io, io.io.source`received, io.io.source`eof, io.io.source`failed
      reads io.io.sink`sent, io.io.sink`failed, io.io.sink`stalled
    {
      && io.Valid() && Tracks() && io.data == []
      && (io.health.Clean? || (state.Finished? && !state.verdict.Selected?))
      && match state
         case Finished(verdict) => Ends(verdict)
         case RecvHeader => view == Fresh && owed == [] && Flagged() && !lastSentNa && io.io.writeBuffer == []
         case SendHeaderBack => view == Open && owed == [Header] && io.AtBoundary()
         case RecvMessage => view == Open && owed == [] && Flagged() && io.io.writeBuffer == []
         case SendMessage(m, p) => Settles(p) && owed == [m] && io.AtBoundary()
         case Flush(p) => Settles(p) && owed == [] && Flagged() && io.AtBoundary()
    }

    constructor (source: Source, sink: Sink, names: seq<bytes>)
      requires source.received == [] && sink.sent == []
      ensures Valid() && fresh(io) && fresh(io.io) && state == RecvHeader && protocols == Supported(names)
      ensures io.io.source == source && io.io.sink == sink
    {
      io := new MessageIo(source, sink);
      protocols := Supported(names);
      state, lastSentNa := RecvHeader, false;
      view, owed := Fresh, [];
    }

    /** Read one message and take its effect on the standing. */
    method Hear() returns (r: Received)
      requires io.Valid() && Tracks() && io.health.Clean? && owed == [] && view.Listens()
      modifies this`view, this`owed, io`inbox, io`health, io.io`readState, io.io`readBuffer, io.io`frames, io.io.source
      ensures io.Valid() && Tracks()
      ensures Leads(old(io.io.source.Now()), io.io.source.Now())
      ensures io.io.source.pendings == old(io.io.source.pendings) + (if r.Nothing? then 1 else 0)
      ensures io.io.source.ends == old(io.io.source.ends) + Tick(r.Finish? || r == Faulty(UnexpectedEof))
      ensures io.io.source.errors == old(io.io.source.errors) + Tick(r == Faulty(InnerError))
      ensures r.Got? ==> TapeSize(io.io.source.tape) < old(TapeSize(io.io.source.tape))
      ensures (view, owed) == if r.Got? then ListenerStep(protocols, old(view), r.message) else (old(view), [])
      ensures match r
        case Got(m) => io.health.Clean? && io.AtBoundary()
        case Undecodable(error) => io.health == BadFrame(error)
        case Finish => io.health.Clean? && io.io.source.eof && io.BetweenFrames()
        case Faulty(fault) =>
          if fault == InvalidData then io.health.BadLength?
          else
            && io.health.Clean? && fault != WriteZero
            && if fault == UnexpectedEof then io.io.source.eof && !io.AtBoundary() else io.io.source.failed
        case Nothing => io.health.Clean?
    {
      r := io.PollNext();
      if r.Got? {
        ListenerHears(protocols, old(io.inbox), io.outbox, view, r.message);
        ghost var step := ListenerStep(protocols, view, r.message);
        view, owed := step.0, step.1;
      }
    }

    /** A message heard in state `RecvHeader` or `RecvMessage`. */
    method Consume(m: Message)
      requires io.Valid() && Tracks() && io.data == [] && io.health.Clean? && io.AtBoundary()
      requires state.RecvHeader? || state.RecvMessage?
      requires (view, owed) == ListenerStep(protocols, if state.RecvHeader? then Fresh else Open, m)
      modifies this`state
      ensures Valid() && (state.SendHeaderBack? || state.SendMessage? || state.Finished?) && state != Finished(IoError)
    {
      if state.RecvHeader? {
        state := if m.Header? then SendHeaderBack else Finished(Violation);
      } else if m.ListProtocols? {
        state := SendMessage(Protocols(protocols), None);
      } else if m.Protocol? {
        state := if m.name in protocols then SendMessage(m, Some(m.name)) else SendMessage(NotAvailable, None);
      } else {
        state := Finished(Violation);
      }
    }

    /** States `RecvHeader` and `RecvMessage`. */
    method StepRecv() returns (blocked: bool)
      requires Valid() && (state.RecvHeader? || state.RecvMessage?)
      modifies this`state, this`view, this`owed, io`inbox, io`health, io.io`readState, io.io`readBuffer
      modifies io.io`frames, io.io.source
      ensures Valid() && (blocked ==> state == old(state))
      ensures Leads(old(io.io.source.Now()), io.io.source.Now())
      ensures io.io.source.pendings == old(io.io.source.pendings) + (if blocked then 1 else 0)
      ensures StopsOnly(old(Stops()))
      ensures !blocked && !state.Finished? ==> TapeSize(io.io.source.tape) < old(TapeSize(io.io.source.tape))
    {
      var r := Hear();
      if r.Got? {
        Consume(r.message);
        return false;
      }
      if r.Nothing? {
        return true;
      }
      GiveUp(r);
      return false;
    }

    /** The dialer's stream has ended, or what it says makes no sense. After a rejection the dialer may
        have gone on to something else. */
    method GiveUp(r: Received)
      requires io.Valid() && Tracks() && io.data == [] && !r.Got? && !r.Nothing?
      requires state.RecvHeader? || state.RecvMessage?
      requires view.Listens() && owed == [] && io.io.writeBuffer == [] && (state.RecvHeader? ==> !lastSentNa)
      requires match r
        case Undecodable(error) => io.health == BadFrame(error)
        case Finish => io.health.Clean? && io.io.source.eof && io.BetweenFrames()
        case Faulty(fault) =>
          if fault == InvalidData then io.health.BadLength?
          else
            && io.health.Clean? && fault != WriteZero
            && if fault == UnexpectedEof then io.io.source.eof && !io.AtBoundary() else io.io.source.failed
        case _ => true
      modifies this`state
      ensures Valid() && state.Finished?
      ensures state == Finished(IoError) <==> r == Faulty(InnerError) || (r == Faulty(UnexpectedEof) && !lastSentNa)
      ensures state == Finished(Failed) <==>
        || r.Finish? || (r == Faulty(UnexpectedEof) && lastSentNa) || (r == Undecodable(InvalidMessage) && lastSentNa)
    {
      var rejected := state.RecvMessage? && lastSentNa;
      state := Finished(
        if r.Finish? then Failed
        else if r.Undecodable? then if rejected && r.error == InvalidMessage then Failed else Violation
        else if r.fault == InvalidData then Garbled
        else if rejected && r.fault == UnexpectedEof then Failed
        else IoError);
    }

    /** Submit the answer that is owed. */
    method Answer(m: Message) returns (ok: bool)
      requires io.Valid() && Tracks() && io.health.Clean? && io.data == [] && |io.io.writeBuffer| < MAX_FRAME_SIZE
        && owed == [m]
      modifies this`owed, io`outbox, io.io`writeBuffer, io.io`submitted
      ensures io.Valid() && Tracks() && (io.AtBoundary() <==> old(io.AtBoundary()))
      ensures ok <==> !TooLong(m)
      ensures if ok then owed == [] && io.outbox == old(io.outbox) + [m] else owed == [m] && io.outbox == old(io.outbox)
    {
      ok := io.StartSend(m);
      if ok {
        owed := [];
        ListenerAnswers(protocols, io.inbox, old(io.outbox), view, m);
      }
    }

    /** Answer, and remember what is settled. */
    method Reply(m: Message, protocol: Option<bytes>)
      requires Valid() && |io.io.writeBuffer| < MAX_FRAME_SIZE
      requires state == SendMessage(m, protocol) || (state == SendHeaderBack && m == Header && protocol == None)
      modifies this`state, this`owed, this`lastSentNa, io`outbox, io.io`writeBuffer, io.io`submitted
      ensures Valid() && (state.Flush? || state.Finished?) && state != Finished(IoError)
    {
      var ok := Answer(m);
      lastSentNa := m == NotAvailable;
      state := if ok then Flush(protocol) else Finished(Violation);
    }

    /** States `SendHeader` and `SendMessage`. */
    method StepSend() returns (blocked: bool)
      requires Valid() && (state.SendHeaderBack? || state.SendMessage?)
      modifies this`state, this`owed, this`lastSentNa, io`outbox, io.io`writeBuffer, io.io`submitted, io.io.sink
      ensures Valid() && (if blocked then state == old(state) else state.Flush? || state.Finished?)
      ensures old(io.io.sink.sent) <= io.io.sink.sent
      ensures io.io.sink.pendings == old(io.io.sink.pendings) + (if blocked then 1 else 0)
      ensures StopsOnly(old(Stops()))
    {
      var ready := io.PollReady();
      match ready {
        case Blocked => return true;
        case Broken(_) => state := Finished(IoError);
        case Complete =>
          if state.SendHeaderBack? {
            Reply(Header, None);
          } else {
            Reply(state.message, state.protocol);
          }
      }
      return false;
    }

    /** State `Flush`. */
    method StepFlush() returns (blocked: bool)
      requires Valid() && state.Flush?
      modifies this`state, io.io`writeBuffer, io.io.sink
      ensures Valid() && (if blocked then state == old(state) else state.RecvMessage? || state.Finished?)
      ensures old(io.io.sink.sent) <= io.io.sink.sent
      ensures io.io.sink.flushes == old(io.io.sink.flushes) + Tick(!blocked && state != Finished(IoError))
      ensures io.io.sink.pendings == old(io.io.sink.pendings) + (if blocked then 1 else 0)
      ensures StopsOnly(old(Stops()))
    {
      var flushed := io.PollFlush();
      match flushed {
        case Blocked => return true;
        case Broken(_) => state := Finished(IoError);
        case Complete =>
          // When a name is settled the stream is taken back: both buffers are empty.
          assert io.io.writeBuffer == [] && io.io.readBuffer == [];
          state := if state.protocol.Some? then Finished(Selected(state.protocol.value)) else RecvMessage;
      }
      return false;
    }

    /** How often the inner stream has ended, failed or taken nothing. */
    ghost function Stops(): nat
      reads io.io.source`ends, io.io.source`errors, io.io.sink`zeros, io.io.sink`errors
    {
      io.io.source.ends + io.io.source.errors + io.io.sink.zeros + io.io.sink.errors
    }

    /** Such an answer ends the negotiation, and an I/O error comes only from one. */
    ghost predicate StopsOnly(before: nat)
      reads this`state, io.io.source`ends, io.io.source`errors, io.io.sink`zeros, io.io.sink`errors
    {
      if state == Finished(IoError) then Stops() == before + 1
      else Stops() == before || (Stops() == before + 1 && state == Finished(Failed))
    }

    /** How often the inner stream was not ready. */
    ghost function Waits(): nat
      reads io.io.source`pendings, io.io.sink`pendings
    {
      io.io.source.pendings + io.io.sink.pendings
    }

    function Rank(): nat
      reads this
    {
      match state
      case SendHeaderBack => 3
      case SendMessage(_, _) => 3
      case Flush(_) => 2
      case RecvHeader => 1
      case RecvMessage => 1
      case Finished(_) => 0
    }

    /** One turn of the loop. */
    method Step() returns (blocked: bool)
      requires Valid() && !state.Finished?
      modifies this, io, io.io, io.io.source, io.io.sink
      ensures Valid() && (blocked ==> !state.Finished?)
      ensures Leads(old(io.io.source.Now()), io.io.source.Now()) && old(io.io.sink.sent) <= io.io.sink.sent
      ensures Waits() == old(Waits()) + (if blocked then 1 else 0) && StopsOnly(old(Stops()))
      ensures !blocked && !state.Finished? ==>
        || TapeSize(io.io.source.tape) < old(TapeSize(io.io.source.tape))
        || (TapeSize(io.io.source.tape) == old(TapeSize(io.io.source.tape)) && Rank() < old(Rank()))
    {
      LeadsSelf(io.io.source.Now());
      if state.RecvHeader? || state.RecvMessage? {
        blocked := StepRecv();
      } else if state.Flush? {
        blocked := StepFlush();
      } else {
        blocked := StepSend();
      }
    }

    /** `ListenerSelectFuture::poll`: `None` is pending. */
    method Poll() returns (r: Option<Verdict>)
      requires Valid() && !state.Finished?
      modifies this, io, io.io, io.io.source, io.io.sink
      ensures Valid() && (r.Some? <==> state.Finished?) && (r.Some? ==> state == Finished(r.value))
      ensures Leads(old(io.io.source.Now()), io.io.source.Now()) && old(io.io.sink.sent) <= io.io.sink.sent
      ensures Waits() == old(Waits()) + (if r.None? then 1 else 0) && StopsOnly(old(Stops()))
    {
      LeadsSelf(io.io.source.Now());
      while !state.Finished?
        invariant Valid() && old(io.io.sink.sent) <= io.io.sink.sent
        invariant Leads(old(io.io.source.Now()), io.io.source.Now())
        invariant Waits() == old(Waits()) && StopsOnly(old(Stops()))
        decreases !state.Finished?, TapeSize(io.io.source.tape), Rank()
      {
        ghost var before := io.io.source.Now();
        var blocked := Step();
        LeadsOn(old(io.io.source.Now()), before, io.io.source.Now());
        if blocked {
          return None;
        }
      }
      return Some(state.verdict);
    }
  }
}
