/** The stream a negotiation returns. For a lazy dialer that is before its proposal is confirmed:
    application data may be written at once, and reading first reads the confirmation. */
module Negotiated {
  import opened Io
  import opened Multistream
  import opened Delimited
  import opened LengthDelimited
  import opened MessageIo
  import opened Agreement

  datatype State = Expecting(header: bool) | Completed | Invalid

  datatype Error = StreamError | UnexpectedEnd | BadFrameLength | BadMessage | Refused

  /** `Panics` stands for the assertion in `into_inner`: the stream is taken back while
      negotiation bytes are still buffered. */
  datatype Outcome = NotYet | Ready | Fails(error: Error) | Panics

  /** The inner stream has ended or failed. */
  predicate Stopping(r: Outcome) {
    r == Fails(UnexpectedEnd) || r == Fails(StreamError)
  }

  /** A read passes on the next answer of the inner stream. */
  predicate Passes(cap: nat, tape: seq<ReadReply>, r: Outcome, data: bytes) {
    if cap == 0 then r.Ready? && data == []
    else match r
      case NotYet => TapeAnswers(tape, ReadPending)
      case Ready => TapeAnswers(tape, ReadReady(data))
      case Fails(StreamError) => TapeAnswers(tape, ReadFailed)
      case _ => false
  }

  class Negotiated {
    const io: MessageIo
    const protocol: bytes
    var state: State
    /** Whether a confirmation was expected, what had been heard before, and what was heard of it. */
    ghost const expected: bool
    ghost const before: seq<Message>
    ghost var heard: seq<Message>
    /** Application data read behind the negotiation. */
    ghost var input: bytes

    /** What holds in every state: the messages heard are the first of the received bytes, and what
        was sent and what is buffered are the messages and the data behind them. */
    ghost predicate Base()
      reads this, io, io.io, io.io.source`received, io.io.sink`sent
    {
      && |heard| <= 2 && (|heard| == 2 ==> heard[0] == Header)
      && io.inbox == before + heard && Listens(io.io.frames, io.inbox, io.io.source.received)
      && Said(io.outbox, io.data, io.io.submitted) && io.io.sink.sent + io.io.writeBuffer == io.io.submitted
      && (io.data != [] ==> io.io.writeBuffer == [])
    }

    ghost predicate Intact()
      reads this, io, io.io, io.io.source`received, io.io.sink`sent
    {
      match state
      case Expecting(header) =>
        && expected && io.Valid() && io.health.Clean? && io.inbox == before + heard && input == []
        && heard == (if header then [] else [Header])
      case Completed =>
        && Base() && io.io.writeBuffer == [] && |io.inbox| == |io.io.frames|
        && io.io.source.received == Wire(io.io.frames) + input
        && (if expected then Confirming() else heard == [])
      case Invalid =>
        && expected && Base() && io.Valid() && input == []
        && (io.health.Clean? || heard == [] || heard == [Header])
    }

    ghost predicate Valid()
      reads this, io, io.io, io.io.source`received, io.io.sink`sent
    {
      forall i {:trigger Looked(i)} :: i == 0 && Looked(i) ==> Intact()
    }

    lemma Open()
      requires Valid()
      ensures Intact()
    {
      assert Looked(0);
    }

    /** The last message heard is the confirmation. */
    ghost predicate Confirming()
      reads this
    {
      heard != [] && heard[|heard| - 1] == Protocol(protocol)
    }

    lemma Holds()
      requires Valid()
      ensures Base()
    {
      Open();
      if state.Expecting? {
        Opened();
      }
    }

    lemma Opened()
      requires io.Valid() && io.inbox == before + heard && |heard| <= 2 && (|heard| == 2 ==> heard[0] == Header)
      ensures Base()
    {
      io.Listening();
      io.Open();
    }

    /** What an error tells: the inner stream failed or ended inside a message; it ended between two;
        it carried no frame, no message or a second header; or the name was refused. */
    ghost predicate Justified(error: Error)
      reads this, io, io.io, io.io.source`received, io.io.source`eof, io.io.source`failed, io.io.sink`failed
    {
      match error
      case StreamError =>
        io.io.sink.failed || io.io.source.failed || (state.Invalid? && io.io.source.eof && !io.AtBoundary())
      case UnexpectedEnd => state.Invalid? && io.io.source.eof && io.BetweenFrames()
      case BadFrameLength => state.Invalid? && io.health.BadLength?
      case BadMessage => state.Invalid? && (io.health.BadFrame? || (1 < |heard| && heard[|heard| - 1] == Header))
      case Refused =>
        state.Invalid? && heard != [] && heard[|heard| - 1] != Header && heard[|heard| - 1] != Protocol(protocol)
    }

    /** How often the inner stream has ended or failed. */
    ghost function Stops(): nat
      reads io.io.source`ends, io.io.source`errors, io.io.sink`errors
    {
      io.io.source.ends + io.io.source.errors + io.io.sink.errors
    }

    /** How often it was flushed, with any answer, or did not get so far. */
    ghost function Flushes(): nat
      reads io.io.sink`flushes, io.io.sink`pendings, io.io.sink`zeros, io.io.sink`errors
    {
      io.io.sink.flushes + io.io.sink.pendings + io.io.sink.zeros + io.io.sink.errors
    }

    /** How often the inner stream was not ready. */
    ghost function Waits(): nat
      reads io.io.source`pendings, io.io.sink`pendings
    {
      io.io.source.pendings + io.io.sink.pendings
    }

    /** `Negotiated::expecting` */
    constructor (io: MessageIo, protocol: bytes)
      requires io.Valid() && io.health.Clean?
      ensures Valid() && this.io == io && this.protocol == protocol && state == Expecting(true)
      ensures before == io.inbox && heard == [] && input == [] && expected
    {
      this.io := io;
      this.protocol := protocol;
      state := Expecting(true);
      expected, before, heard, input := true, io.inbox, [], [];
    }

    /** `Negotiated::completed`: both buffers are empty. */
    constructor Complete(io: MessageIo, protocol: bytes)
      requires io.Valid() && io.health.Clean? && io.AtBoundary() && io.io.writeBuffer == []
      ensures Valid() && this.io == io && this.protocol == protocol && state == Completed
      ensures before == io.inbox && heard == [] && input == [] && !expected
    {
      this.io := io;
      this.protocol := protocol;
      state := Completed;
      expected, before, heard, input := false, io.inbox, [], [];
      new;
      assert io.inbox == before + heard;
      Opened();
      io.Open();
      assert Wire(io.io.frames) + [] == Wire(io.io.frames);
    }

    /** One message of the expected confirmation; `None` means that more is to be read. */
    method Consume(m: Message, header: bool) returns (r: Option<Outcome>)
      requires expected && state == Invalid && io.Valid() && io.health.Clean? && io.AtBoundary() && input == []
      requires io.inbox == before + heard + [m] && heard == (if header then [] else [Header])
      modifies this`state, this`heard
      ensures Intact() && io.inbox == before + heard && heard == old(heard) + [m]
      ensures r.None? <==> m.Header? && header
      ensures r.None? ==> state == Expecting(false)
      ensures r == Some(Ready) <==> m == Protocol(protocol) && io.io.writeBuffer == []
      ensures r == Some(Ready) <==> state.Completed?
      ensures r == Some(Panics) <==> m == Protocol(protocol) && io.io.writeBuffer != []
      ensures r == Some(Fails(BadMessage)) <==> m.Header? && !header
      ensures r == Some(Fails(Refused)) <==> !m.Header? && m != Protocol(protocol)
      ensures r.Some? ==> !r.value.NotYet? && !Stopping(r.value)
      ensures r.Some? && r.value.Fails? ==> Justified(r.value.error)
    {
      heard := heard + [m];
      Assoc(before, old(heard), [m]);
      Opened();
      if m.Header? {
        if header {
          state := Expecting(false);
          return None;
        }
        return Some(Fails(BadMessage));
      }
      if m == Protocol(protocol) {
        if io.io.writeBuffer != [] {
          return Some(Panics);
        }
        io.Open();
        assert Wire(io.io.frames) + [] == Wire(io.io.frames);
        state := Completed;
        return Some(Ready);
      }
      return Some(Fails(Refused));
    }

    /** Read one message of the expected confirmation. */
    method Await() returns (r: Option<Outcome>)
      requires Intact() && state.Expecting?
      modifies this`state, this`heard, io`inbox, io`health
      modifies io.io`readState, io.io`readBuffer, io.io`frames, io.io.source
      ensures Intact() && Leads(old(io.io.source.Now()), io.io.source.Now())
      ensures r.None? ==> state.Expecting? && TapeSize(io.io.source.tape) < old(TapeSize(io.io.source.tape))
      ensures r == Some(NotYet) ==> state == old(state)
      ensures r == Some(Ready) <==> state.Completed?
      ensures r == Some(Panics) <==> Confirming() && io.io.writeBuffer != []
      ensures r.Some? && r.value.Fails? ==> state.Invalid? && Justified(r.value.error)
      ensures r == Some(Panics) ==> state.Invalid?
      ensures io.io.source.pendings == old(io.io.source.pendings) + (if r == Some(NotYet) then 1 else 0)
      ensures Stops() == old(Stops()) + Tick(r == Some(Fails(UnexpectedEnd)) || r == Some(Fails(StreamError)))
    {
      var header := state.header;
      state := Invalid;
      var next := io.PollNext();
      if next.Got? {
        r := Consume(next.message, header);
        return;
      }
      Opened();
      match next
      case Nothing =>
        state := Expecting(header);
        r := Some(NotYet);
      case Finish => r := Some(Fails(UnexpectedEnd));
      case Undecodable(_) => r := Some(Fails(BadMessage));
      case Faulty(fault) => r := Some(Fails(if fault == InvalidData then BadFrameLength else StreamError));
    }

    /** `Negotiated::poll`: flush, then read the confirmation. A stream that takes no more
        bytes does not stop the reading: this is how taking it back can fail. */
    method Poll() returns (r: Outcome)
      requires Valid() && !state.Invalid?
      modifies this`state, this`heard, io`inbox, io`health, io.io`readState, io.io`readBuffer, io.io`frames
      modifies io.io`writeBuffer, io.io.source, io.io.sink
      ensures Valid() && Leads(old(io.io.source.Now()), io.io.source.Now()) && old(io.io.sink.sent) <= io.io.sink.sent
      ensures old(io.io.sink.failed) ==> io.io.sink.failed
      ensures r.Ready? ==> state.Completed?
      ensures r.NotYet? ==> !state.Invalid?
      ensures old(state).Expecting? ==> (state.Completed? <==> r.Ready?)
      ensures r.Panics? <==> Confirming() && io.io.writeBuffer != []
      ensures r.Panics? ==> state.Invalid? && io.io.sink.stalled
      ensures old(state.Expecting? && io.io.writeBuffer != [] && io.io.sink.TakesNothing()) ==>
                && io.io.writeBuffer == old(io.io.writeBuffer) && io.io.sink.pendings == old(io.io.sink.pendings)
                && io.io.sink.failed == old(io.io.sink.failed)
      ensures r.Fails? ==> Justified(r.error)
      ensures Waits() == old(Waits()) + (if r.NotYet? then 1 else 0)
      ensures Stops() == old(Stops()) + Tick(Stopping(r)) && Flushes() == old(Flushes()) + 1
      ensures old(state).Completed? ==> state.Completed? && io.inbox == old(io.inbox)
    {
      Open();
      LeadsSelf(io.io.source.Now());
      if state.Completed? {
        r := FlushOn();
        return;
      }
      var flushed := io.PollFlush();
      if flushed.Blocked? {
        return NotYet;
      }
      if flushed.Broken? && flushed.fault != WriteZero {
        return Fails(StreamError);
      }
      r := AwaitAll();
    }

    /** Flush the inner stream. */
    method FlushOn() returns (r: Outcome)
      requires Intact() && state.Completed?
      modifies io.io.sink
      ensures Intact() && io.io.sink.sent == old(io.io.sink.sent) && (old(io.io.sink.failed) ==> io.io.sink.failed)
      ensures r.Ready? || r.NotYet? || (r == Fails(StreamError) && io.io.sink.failed)
      ensures io.io.sink.pendings == old(io.io.sink.pendings) + Tick(r.NotYet?)
      ensures io.io.sink.errors == old(io.io.sink.errors) + Tick(r.Fails?) && Flushes() == old(Flushes()) + 1
    {
      var flushed := io.io.sink.PollFlush();
      return if flushed.WritePending? then NotYet
        else if flushed == WriteFailed(false) then Fails(StreamError)
        else Ready;
    }

    /** Read messages until the confirmation is settled. */
    method AwaitAll() returns (r: Outcome)
      requires Intact() && state.Expecting?
      modifies this`state, this`heard, io`inbox, io`health
      modifies io.io`readState, io.io`readBuffer, io.io`frames, io.io.source
      ensures Intact() && Leads(old(io.io.source.Now()), io.io.source.Now())
      ensures r.NotYet? ==> state.Expecting?
      ensures r.Ready? <==> state.Completed?
      ensures r.Panics? <==> Confirming() && io.io.writeBuffer != []
      ensures r.Panics? ==> state.Invalid?
      ensures r.Fails? ==> Justified(r.error) && state.Invalid?
      ensures io.io.source.pendings == old(io.io.source.pendings) + (if r.NotYet? then 1 else 0)
      ensures Stops() == old(Stops()) + Tick(Stopping(r))
    {
      LeadsSelf(io.io.source.Now());
      while true
        invariant Intact() && state.Expecting? && io.io.source.pendings == old(io.io.source.pendings)
        invariant Stops() == old(Stops())
        invariant Leads(old(io.io.source.Now()), io.io.source.Now())
        decreases TapeSize(io.io.source.tape)
      {
        ghost var now := io.io.source.Now();
        var step := Await();
        LeadsOn(old(io.io.source.Now()), now, io.io.source.Now());
        if step.Some? {
          return step.value;
        }
      }
    }

    /** `poll_write`: behind the negotiation while it is open, directly afterwards. */
    method PollWrite(bytes: bytes) returns (r: WriteReply)
      requires Valid() && !state.Invalid?
      modifies io`data, io.io`writeBuffer, io.io`submitted, io.io.sink
      ensures Valid() && old(io.io.sink.sent) <= io.io.sink.sent && (old(io.io.sink.failed) ==> io.io.sink.failed)
      ensures r.WriteReady? ==> r.n <= |bytes| && io.data == old(io.data) + bytes[..r.n]
      ensures !r.WriteReady? ==> io.data == old(io.data)
      ensures r.WriteFailed? ==> if r.writeZero then io.io.sink.stalled else io.io.sink.failed
      ensures io.io.sink.pendings == old(io.io.sink.pendings) + (if r.WritePending? then 1 else 0)
      ensures io.io.sink.zeros == old(io.io.sink.zeros) +
        Tick(r == WriteFailed(true) || (bytes != [] && r == WriteReady(0)))
      ensures io.io.sink.errors == old(io.io.sink.errors) + Tick(r == WriteFailed(false))
    {
      Open();
      if state.Expecting? {
        r := io.PollWrite(bytes);
        return;
      }
      r := io.io.sink.PollWrite(bytes);
      if r.WriteReady? {
        SaidData(io.outbox, io.data, bytes[..r.n], io.io.submitted);
        io.data := io.data + bytes[..r.n];
        io.io.submitted := io.io.submitted + bytes[..r.n];
        assert io.io.sink.sent + [] == io.io.sink.sent;
      }
    }

    /** `poll_read`: the first byte handed out is the one after the confirmation. */
    method PollRead(cap: nat) returns (r: Outcome, data: bytes)
      requires Valid() && !state.Invalid?
      modifies this`state, this`heard, this`input, io`inbox, io`health, io.io`readState, io.io`readBuffer
      modifies io.io`frames, io.io`writeBuffer, io.io.source, io.io.sink
      ensures Valid() && Leads(old(io.io.source.Now()), io.io.source.Now()) && old(io.io.sink.sent) <= io.io.sink.sent
      ensures old(io.io.sink.failed) ==> io.io.sink.failed
      ensures r.NotYet? ==> !state.Invalid?
      ensures r.Ready? ==> state.Completed? && |data| <= cap && input == old(input) + data
      ensures !r.Ready? ==> input == old(input)
      ensures r.Panics? <==> Confirming() && io.io.writeBuffer != []
      ensures r.Panics? ==> state.Invalid? && io.io.sink.stalled
      ensures r.Fails? ==> Justified(r.error)
      ensures Waits() == old(Waits()) + (if r.NotYet? then 1 else 0)
      ensures Stops() == old(Stops()) + Tick(Stopping(r) || (r.Ready? && 0 < cap && data == []))
      ensures r.Ready? && 0 < cap ==> TapeSize(io.io.source.tape) < old(TapeSize(io.io.source.tape))
      ensures old(state).Completed? ==> Passes(cap, old(io.io.source.tape), r, data)
      ensures old(state).Completed? ==> io.io.source.received == old(io.io.source.received) + data
      ensures !r.Ready? ==> data == []
      ensures old(state).Completed? && 0 < cap && old(io.io.source.tape) != [] ==>
        TapeSize(io.io.source.tape) < old(TapeSize(io.io.source.tape))
      ensures old(state).Completed? ==> state.Completed? && io.inbox == old(io.inbox)
    {
      Open();
      data := [];
      LeadsSelf(io.io.source.Now());
      if state.Expecting? {
        r := Poll();
        if !r.Ready? {
          return;
        }
      }
      Open();
      ghost var now := io.io.source.Now();
      LeadsKeeps(old(io.io.source.Now()), now);
      r, data := ReadOn(cap);
      LeadsOn(old(io.io.source.Now()), now, io.io.source.Now());
    }

    /** Read from the inner stream. */
    method ReadOn(cap: nat) returns (r: Outcome, data: bytes)
      requires Intact() && state.Completed?
      modifies this`input, io.io.source
      ensures Intact() && Leads(old(io.io.source.Now()), io.io.source.Now())
      ensures r.Ready? ==> |data| <= cap && input == old(input) + data
      ensures !r.Ready? ==> input == old(input) && (r.NotYet? || (r == Fails(StreamError) && io.io.source.failed))
      ensures io.io.source.pendings == old(io.io.source.pendings) + (if r.NotYet? then 1 else 0)
      ensures Stops() == old(Stops()) + Tick(r.Fails? || (r.Ready? && 0 < cap && data == []))
      ensures Passes(cap, old(io.io.source.tape), r, data)
      ensures io.io.source.received == old(io.io.source.received) + data && (!r.Ready? ==> data == [])
      ensures 0 < cap && old(io.io.source.tape) != [] ==>
        TapeSize(io.io.source.tape) < old(TapeSize(io.io.source.tape))
    {
      data := [];
      ghost var was := io.io.source.received;
      var reply := io.io.source.PollRead(cap);
      match reply
      case ReadPending => r := NotYet;
      case ReadFailed => r := Fails(StreamError);
      case ReadReady(d) =>
        Assoc(Wire(io.io.frames), input, d);
        input := input + d;
        data := d;
        r := Ready;
    }
  }

  // ----- How taking the stream back can fail -------------------------------------------

  const A_NAME: bytes := [47, 97]
  const CONFIRMATION: seq<Message> := [Header, Protocol(A_NAME)]

  lemma ConfirmationCarries()
    ensures AllCarry(CONFIRMATION) && Wire(Encodings(CONFIRMATION)) != []
  {
    var said := CONFIRMATION;
    assert |Encoding(Header)| == 19 && |Encoding(Protocol(A_NAME))| == 3;
    assert |Encodings(said)| == 2;
  }

  /** Of exactly the confirmation either a part has been heard, or all of it. */
  lemma HearsConfirmation(n: Negotiated)
    requires n.Valid() && !n.state.Completed? && n.before == [] && n.protocol == A_NAME
    requires var w := Wire(Encodings(CONFIRMATION)); n.io.io.source.received <= w
    ensures n.io.health.Clean? && n.heard <= CONFIRMATION
    ensures n.io.io.source.received == Wire(Encodings(CONFIRMATION)) ==>
      n.heard == CONFIRMATION
  {
    n.Open();
    ConfirmationCarries();
    HearsMessages(CONFIRMATION, n.io);
    assert n.before + n.heard == n.heard;
  }

  /** A tape that holds some bytes and nothing else. */
  lemma JustBytes(w: bytes, now: Flow)
    requires w != [] && Leads(Flow([], [ReadReady(w)], false, false, 0, 0, 0), now)
    ensures now.received <= w && !now.eof && !now.failed && (0 < now.pendings ==> now.received == w)
  {
    assert Flowing(0);
    assert TapeBytes([ReadReady(w)]) == w;
    assert now.received + TapeBytes(now.tape) == w;
  }

  /** With unsent bytes and only the confirmation to read, no other outcome is left. */
  lemma OnlyPanics(n: Negotiated, r: Outcome)
    requires n.Valid() && n.before == [] && n.protocol == A_NAME && n.io.io.writeBuffer != [] && !n.io.io.sink.failed
    requires Leads(Flow([], [ReadReady(Wire(Encodings(CONFIRMATION)))], false, false, 0, 0, 0), n.io.io.source.Now())
    requires (r.Ready? ==> n.state.Completed?) && (r.NotYet? ==> !n.state.Invalid? && 0 < n.io.io.source.pendings)
    requires r.Fails? ==> n.Justified(r.error)
    ensures r.Panics?
  {
    ConfirmationCarries();
    JustBytes(Wire(Encodings(CONFIRMATION)), n.io.io.source.Now());
    n.Open();
    if !n.state.Completed? {
      HearsConfirmation(n);
    }
  }

  /** A stream that takes nothing, or says so in an error, and a peer that confirms a name it has
      not been sent. */
  method TakenBackTooEarly(answer: WriteReply) returns (r: Outcome)
    requires answer == WriteReady(0) || answer == WriteFailed(true)
    ensures r.Panics?
  {
    ConfirmationCarries();
    var w := Wire(Encodings(CONFIRMATION));
    var source := new Source([ReadReady(w)]);
    var sink := new Sink([answer]);
    var n := Proposing(source, sink);
    r := n.Poll();
    OnlyPanics(n, r);
  }

  /** A lazy dialer's stream with its proposal still to be sent. */
  method Proposing(source: Source, sink: Sink) returns (n: Negotiated)
    requires source.received == [] && sink.sent == []
    ensures n.Valid() && n.state.Expecting? && n.before == [] && n.protocol == A_NAME && n.io.io.writeBuffer != []
    ensures n.io.io.source == source && n.io.io.sink == sink && fresh(n) && fresh(n.io) && fresh(n.io.io)
  {
    var io := new MessageIo(source, sink);
    io.StartSendHeader();
    HeaderBuffered(io);
    var ok := io.StartSendName(A_NAME);
    ProposalBuffered(io);
    n := new Negotiated(io, A_NAME);
  }

  lemma HeaderBuffered(io: MessageIo)
    requires io.Valid() && io.outbox == [Header] && io.data == [] && io.io.sink.sent == []
    ensures |io.io.writeBuffer| < MAX_FRAME_SIZE
  {
    io.Submits();
    io.Open();
    assert [] + [Header] == [Header];
    EncodingsSnoc([], Header);
    assert |Encoding(Header)| == 19 && |Frame(Encoding(Header))| == 20;
  }

  lemma ProposalBuffered(io: MessageIo)
    requires io.Valid() && io.outbox != [] && io.io.sink.sent == []
    ensures io.io.writeBuffer != []
  {
    io.Submits();
    io.Open();
    assert io.outbox == io.outbox[..|io.outbox| - 1] + [io.outbox[|io.outbox| - 1]];
    EncodingsSnoc(io.outbox[..|io.outbox| - 1], io.outbox[|io.outbox| - 1]);
  }
}
