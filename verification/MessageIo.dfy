/** Messages over a framed stream: what has been read and written, message by message. */
module MessageIo {
  import opened Io
  import opened Multistream
  import opened Delimited
  import opened LengthDelimited

  /** `Poll<Option<Result<Message, ProtocolError>>>` */
  datatype Received =
    | Nothing
    | Finish
    | Got(message: Message)
    | Undecodable(error: ProtocolError)
    | Faulty(fault: Fault)

  /** Whether what was read is all messages, or ends in a frame that is none, or in a length
      that is none. */
  datatype Health = Clean | BadFrame(error: ProtocolError) | BadLength

  function Encodings(ms: seq<Message>): (fs: seq<bytes>)
    ensures |fs| == |ms|
  {
    if ms == [] then [] else Encodings(ms[..|ms| - 1]) + [Encoding(ms[|ms| - 1])]
  }

  /** Names a position, so that what holds at all positions is used only where one is named. */
  predicate At(i: int) {
    true
  }

  /** Mentioned where the invariant of the reading, or of the writing, half of a message stream is to
      be unfolded. */
  predicate Held(i: int) {
    true
  }

  predicate Put(i: int) {
    true
  }

  /** Mentioned where the bytes of what was submitted matter. */
  predicate Spoken(i: int) {
    true
  }

  /** The frames that were read decode to the messages that were consumed. */
  ghost predicate Decodes(frames: seq<bytes>, inbox: seq<Message>) {
    |frames| == |inbox| &&
    forall i {:trigger At(i)} :: 0 <= i < |frames| && At(i) ==> Decoding(frames[i]) == Ok(inbox[i])
  }

  /** The last frame that was read is no message. */
  ghost predicate Undecoded(frames: seq<bytes>, error: ProtocolError) {
    forall i {:trigger At(i)} :: i == |frames| - 1 && 0 <= i && At(i) ==> Decoding(frames[i]) == Err(error)
  }

  /** These frames, of which the first are these messages, have been read off the front. */
  ghost predicate Listens(frames: seq<bytes>, inbox: seq<Message>, received: bytes) {
    && AllLegal(RULE, frames) && Wire(frames) <= received
    && |inbox| <= |frames| && Decodes(frames[..|inbox|], inbox)
  }

  /** Exactly these messages, and then this data, have been submitted. */
  ghost predicate Said(outbox: seq<Message>, data: bytes, submitted: bytes) {
    forall i {:trigger Spoken(i)} :: i == |outbox| && Spoken(i) ==> submitted == Wire(Encodings(outbox)) + data
  }

  lemma SaidSnoc(outbox: seq<Message>, m: Message, item: bytes, submitted: bytes)
    requires Said(outbox, [], submitted) && item == Encoding(m)
    ensures Said(outbox + [m], [], submitted + Frame(item))
  {
    assert Spoken(|outbox|);
    EncodingsSnoc(outbox, m);
    assert Wire(Encodings(outbox)) + [] == Wire(Encodings(outbox));
    assert Wire(Encodings(outbox + [m])) + [] == Wire(Encodings(outbox + [m]));
  }

  lemma SaidData(outbox: seq<Message>, data: bytes, more: bytes, submitted: bytes)
    requires Said(outbox, data, submitted)
    ensures Said(outbox, data + more, submitted + more)
  {
    assert Spoken(|outbox|);
    Assoc(Wire(Encodings(outbox)), data, more);
  }

  lemma EncodingsSnoc(ms: seq<Message>, m: Message)
    ensures Wire(Encodings(ms + [m])) == Wire(Encodings(ms)) + Frame(Encoding(m))
  {
    assert (ms + [m])[..|ms|] == ms;
    WireSnoc(Encodings(ms), Encoding(m));
  }

  lemma DecodesSnoc(frames: seq<bytes>, inbox: seq<Message>, frame: bytes, m: Message)
    requires Decodes(frames, inbox) && Decoding(frame) == Ok(m)
    ensures Decodes(frames + [frame], inbox + [m])
  {
    forall i | 0 <= i <= |frames| && At(i)
      ensures Decoding((frames + [frame])[i]) == Ok((inbox + [m])[i])
    {
    }
  }

  class MessageIo {
    const io: Framed
    ghost var inbox: seq<Message>
    ghost var outbox: seq<Message>
    /** Application data written behind the messages. */
    ghost var data: bytes
    ghost var health: Health

    ghost predicate Heard()
      reads this`health, this`inbox, io`frames, io`readState, io`readBuffer, io.source`received
    {
      match health
      case Clean => io.Reading() && Decodes(io.frames, inbox)
      case BadFrame(error) =>
        && io.Reading() && |io.frames| == |inbox| + 1
        && Decodes(io.frames[..|inbox|], inbox) && Undecoded(io.frames, error)
      case BadLength => Stuck(RULE, io.frames, io.source.received) && Decodes(io.frames, inbox)
    }

    ghost predicate Written()
      reads this`outbox, this`data, io`writeBuffer, io`submitted, io.sink`sent
    {
      && io.Writing() && Said(outbox, data, io.submitted)
      && io.sink.sent <= io.submitted
      && (io.writeBuffer == [] ==> io.sink.sent == io.submitted)
      && (data != [] ==> io.writeBuffer == [])
    }

    ghost predicate Reads()
      reads this`health, this`inbox, io`frames, io`readState, io`readBuffer, io.source`received
    {
      forall i {:trigger Held(i)} :: i == 0 && Held(i) ==> Heard()
    }

    ghost predicate Writes()
      reads this`outbox, this`data, io`writeBuffer, io`submitted, io.sink`sent
    {
      forall i {:trigger Put(i)} :: i == 0 && Put(i) ==> Written()
    }

    ghost predicate Valid()
      reads this, io, io.source`received, io.sink`sent
    {
      Reads() && Writes()
    }

    lemma Open()
      requires Valid()
      ensures Heard() && Written()
    {
      assert Held(0) && Put(0);
    }

    lemma OpenWrites()
      requires Writes()
      ensures Written()
    {
      assert Put(0);
    }

    lemma OpenReads()
      requires Reads()
      ensures Heard()
    {
      assert Held(0);
    }

    /** What has been sent is a part of the messages and the data behind them. */
    lemma Submits()
      requires Valid()
      ensures io.sink.sent <= io.submitted == Wire(Encodings(outbox)) + data
    {
      OpenWrites();
      assert Spoken(|outbox|);
    }

    /** Whatever has become of the stream, the messages consumed are its first. */
    lemma Listening()
      requires Valid()
      ensures Listens(io.frames, inbox, io.source.received)
    {
      OpenReads();
      assert Judged(0);
      assert io.frames[..|inbox|] == io.frames || health.BadFrame?;
    }

    lemma Flushed()
      requires Valid() && io.writeBuffer == []
      ensures io.sink.sent == io.submitted
    {
      OpenWrites();
    }

    /** Nothing beyond the consumed messages has been read, and no part of it is buffered. */
    ghost predicate AtBoundary()
      reads io`frames, io`readBuffer, io.source`received
    {
      io.source.received == Wire(io.frames) && io.readBuffer == []
    }

    /** Only whole frames have been read. */
    ghost predicate BetweenFrames()
      reads io`frames, io.source`received
    {
      io.source.received == Wire(io.frames)
    }

    /** The inner stream has failed, has taken nothing, or has ended inside a frame. */
    ghost predicate Lost()
      reads this, io, io.source`received, io.source`eof, io.source`failed, io.sink`failed, io.sink`stalled
    {
      io.sink.failed || io.sink.stalled || io.source.failed || (health.Clean? && io.source.eof && !AtBoundary())
    }

    constructor (source: Source, sink: Sink)
      requires source.received == [] && sink.sent == []
      ensures Valid() && fresh(io) && io.writeBuffer == []
      ensures inbox == [] && outbox == [] && data == [] && health == Clean
      ensures io.source == source && io.sink == sink && AtBoundary()
    {
      io := new Framed(source, sink);
      inbox, outbox, data, health := [], [], [], Clean;
    }

    /** `poll_ready` */
    method PollReady() returns (r: Progress)
      requires Valid() && health.Clean?
      modifies io`writeBuffer, io.sink
      ensures Valid() && (AtBoundary() <==> old(AtBoundary())) && old(io.sink.sent) <= io.sink.sent
      ensures r.Complete? ==> |io.writeBuffer| < MAX_FRAME_SIZE
      ensures old(|io.writeBuffer|) < MAX_FRAME_SIZE ==>
                r.Complete? && io.writeBuffer == old(io.writeBuffer) && io.sink.sent == old(io.sink.sent)
      ensures io.sink.pendings == old(io.sink.pendings) + (if r.Blocked? then 1 else 0)
      ensures io.sink.zeros == old(io.sink.zeros) + Tick(r == Broken(WriteZero))
      ensures io.sink.errors == old(io.sink.errors) + Tick(r == Broken(InnerError))
      ensures io.sink.flushes == old(io.sink.flushes)
      ensures r.Broken? ==> (r.fault == WriteZero && io.sink.stalled) || (r.fault == InnerError && io.sink.failed)
    {
      OpenWrites();
      r := io.PollReady();
    }

    /** `poll_flush` */
    method PollFlush() returns (r: Progress)
      requires Valid() && health.Clean?
      modifies io`writeBuffer, io.sink
      ensures Valid() && (AtBoundary() <==> old(AtBoundary())) && old(io.sink.sent) <= io.sink.sent
      ensures old(io.sink.failed) ==> io.sink.failed
      ensures r.Complete? ==> io.writeBuffer == []
      ensures io.sink.pendings == old(io.sink.pendings) + (if r.Blocked? then 1 else 0)
      ensures io.sink.zeros == old(io.sink.zeros) + Tick(r == Broken(WriteZero))
      ensures io.sink.errors == old(io.sink.errors) + Tick(r == Broken(InnerError))
      ensures io.sink.flushes == old(io.sink.flushes) + Tick(r.Complete?)
      ensures r.Broken? ==> (r.fault == WriteZero && io.sink.stalled) || (r.fault == InnerError && io.sink.failed)
      ensures old(io.writeBuffer != [] && io.sink.TakesNothing()) ==>
        r == Broken(WriteZero) && io.writeBuffer == old(io.writeBuffer) && io.sink.failed == old(io.sink.failed)
    {
      OpenWrites();
      r := io.PollFlush();
    }

    /** `start_send`: refused exactly when the encoding is too long for a frame. */
    method StartSend(m: Message) returns (ok: bool)
      requires Valid() && health.Clean? && data == [] && |io.writeBuffer| < MAX_FRAME_SIZE
      modifies this`outbox, io`writeBuffer, io`submitted
      ensures Valid() && (AtBoundary() <==> old(AtBoundary()))
      ensures ok <==> |Encoding(m)| <= MAX_FRAME_SIZE
      ensures outbox == if ok then old(outbox) + [m] else old(outbox)
    {
      var item := EncodeMessage(m);
      ok := Submit(item, m);
    }

    method Submit(item: bytes, ghost m: Message) returns (ok: bool)
      requires Valid() && health.Clean? && data == [] && |io.writeBuffer| < MAX_FRAME_SIZE && item == Encoding(m)
      modifies this`outbox, io`writeBuffer, io`submitted
      ensures Valid() && (AtBoundary() <==> old(AtBoundary()))
      ensures ok <==> |item| <= MAX_FRAME_SIZE
      ensures outbox == if ok then old(outbox) + [m] else old(outbox)
    {
      OpenWrites();
      SaidSnoc(outbox, m, item, io.submitted);
      ok := io.StartSend(item);
      if ok {
        outbox := outbox + [m];
      }
    }

    /** The header always fits. */
    method StartSendHeader()
      requires Valid() && health.Clean? && data == [] && |io.writeBuffer| < MAX_FRAME_SIZE
      modifies this`outbox, io`writeBuffer, io`submitted
      ensures Valid() && (AtBoundary() <==> old(AtBoundary()))
      ensures outbox == old(outbox) + [Header]
    {
      assert |Encoding(Header)| == 19;
      var ok := StartSend(Header);
    }

    /** A proposal or confirmation is refused exactly when the name is too long. */
    method StartSendName(name: bytes) returns (ok: bool)
      requires Valid() && health.Clean? && data == [] && |io.writeBuffer| < MAX_FRAME_SIZE
      modifies this`outbox, io`writeBuffer, io`submitted
      ensures Valid() && (AtBoundary() <==> old(AtBoundary()))
      ensures ok <==> |name| + 1 <= MAX_FRAME_SIZE
      ensures outbox == if ok then old(outbox) + [Protocol(name)] else old(outbox)
    {
      assert |Encoding(Protocol(name))| == |name| + 1;
      ok := StartSend(Protocol(name));
    }

    /** `poll_next`: one more message, or what went wrong. */
    method PollNext() returns (r: Received)
      requires Valid() && health.Clean?
      modifies this`inbox, this`health, io`readState, io`readBuffer, io`frames, io.source
      ensures Valid()
      ensures Leads(old(io.source.Now()), io.source.Now())
      ensures io.source.pendings == old(io.source.pendings) + (if r.Nothing? then 1 else 0)
      ensures io.source.ends == old(io.source.ends) + Tick(r.Finish? || r == Faulty(UnexpectedEof))
      ensures io.source.errors == old(io.source.errors) + Tick(r == Faulty(InnerError))
      ensures r.Got? ==> TapeSize(io.source.tape) < old(TapeSize(io.source.tape))
      ensures match r
        case Got(m) => inbox == old(inbox) + [m] && health.Clean? && AtBoundary()
        case Undecodable(error) => inbox == old(inbox) && health == BadFrame(error)
        case Finish => inbox == old(inbox) && health.Clean? && io.source.eof && io.source.received == Wire(io.frames)
        case Faulty(InvalidData) => inbox == old(inbox) && health.BadLength?
        case Faulty(fault) =>
          && inbox == old(inbox) && health.Clean? && fault != WriteZero
          && if fault == UnexpectedEof then io.source.eof && !AtBoundary() else io.source.failed
        case Nothing => inbox == old(inbox) && health.Clean?
    {
      ghost var frames := io.frames;
      var next := ReadFrame();
      if next.Item? {
        r := Interpret(next.frame, frames);
        return;
      }
      if next == Faulted(InvalidData) {
        health := BadLength;
        return Faulty(InvalidData);
      }
      return match next case Pending => Nothing case End => Finish case Faulted(fault) => Faulty(fault);
    }

    /** One more frame, not yet looked at. */
    method ReadFrame() returns (next: Next)
      requires Reads() && health.Clean?
      modifies io`readState, io`readBuffer, io`frames, io.source
      ensures Leads(old(io.source.Now()), io.source.Now())
      ensures io.source.pendings == old(io.source.pendings) + (if next.Pending? then 1 else 0)
      ensures io.source.ends == old(io.source.ends) + Tick(next == End || next == Faulted(UnexpectedEof))
      ensures io.source.errors == old(io.source.errors) + Tick(next == Faulted(InnerError))
      ensures next.Item? ==> TapeSize(io.source.tape) < old(TapeSize(io.source.tape))
      ensures match next
        case Item(frame) =>
          && io.Reading() && AtBoundary()
          && Decodes(old(io.frames), inbox) && io.frames == old(io.frames) + [frame]
        case Faulted(InvalidData) => Stuck(RULE, io.frames, io.source.received) && Decodes(io.frames, inbox)
        case Faulted(fault) =>
          && Reads() && fault != WriteZero
          && if fault == UnexpectedEof then io.source.eof && !AtBoundary() else io.source.failed
        case End => Reads() && io.source.eof && io.source.received == Wire(io.frames)
        case Pending => Reads()
    {
      OpenReads();
      next := io.PollNext();
    }

    /** A frame has been read behind `frames`. */
    method Interpret(frame: bytes, ghost frames: seq<bytes>) returns (r: Received)
      requires io.Reading() && health.Clean? && Decodes(frames, inbox) && io.frames == frames + [frame]
      modifies this`inbox, this`health
      ensures Reads() && (r.Got? || r.Undecodable?)
      ensures r.Got? ==> inbox == old(inbox) + [r.message] && health.Clean?
      ensures r.Undecodable? ==> inbox == old(inbox) && health == BadFrame(r.error)
    {
      var decoded := DecodeMessage(frame);
      match decoded
      case Ok(m) =>
        DecodesSnoc(frames, inbox, frame, m);
        inbox := inbox + [m];
        return Got(m);
      case Err(error) =>
        assert io.frames[..|inbox|] == frames;
        health := BadFrame(error);
        return Undecodable(error);
    }

    /** `MessageReader::poll_write`: application data goes behind all messages. */
    method PollWrite(bytes: bytes) returns (r: WriteReply)
      requires Valid() && health.Clean?
      modifies this`data, io`writeBuffer, io`submitted, io.sink
      ensures Valid() && (AtBoundary() <==> old(AtBoundary())) && old(io.sink.sent) <= io.sink.sent
      ensures old(io.sink.failed) ==> io.sink.failed
      ensures r.WriteReady? ==> r.n <= |bytes| && data == old(data) + bytes[..r.n] && io.writeBuffer == []
      ensures !r.WriteReady? ==> data == old(data)
      ensures r.WriteFailed? ==> if r.writeZero then io.sink.stalled else io.sink.failed
      ensures io.sink.pendings == old(io.sink.pendings) + (if r.WritePending? then 1 else 0)
      ensures io.sink.zeros == old(io.sink.zeros) + Tick(r == WriteFailed(true) || (bytes != [] && r == WriteReady(0)))
      ensures io.sink.errors == old(io.sink.errors) + Tick(r == WriteFailed(false))
      ensures io.sink.flushes == old(io.sink.flushes)
    {
      OpenWrites();
      r := io.PollWriteThrough(bytes);
      if r.WriteReady? {
        SaidData(outbox, data, bytes[..r.n], old(io.submitted));
        data := data + bytes[..r.n];
      }
    }
  }
}
