/** Two Noise sockets joined by a reliable byte stream: what one side accepts, the other
    side delivers, over every schedule. */
module NoiseLink {
  import opened Io
  import opened NoiseFraming
  import NoiseReader
  import NoiseWriter

  lemma NothingToReject(writer: NoiseWriter.Writer, received: bytes)
    requires writer.Valid() && received <= writer.sink.sent
    ensures !Malformed(writer.cipher, 0, received)
  {
    writer.Open();
    assert NoiseWriter.Covered(0);
    assert writer.sink.sent <= Wire(Sealed(writer.cipher, writer.chunks));
    PrefixOfWire(writer.cipher, writer.chunks, received);
  }

  /** The reader and the writer of one direction, with the wire between them: whatever has
      arrived, the reader has delivered a prefix of the accepted plaintext and finds nothing
      to reject; once everything is flushed, has arrived and is read out, it is all of it. */
  lemma EndToEnd(writer: NoiseWriter.Writer, reader: NoiseReader.Reader)
    requires writer.Valid() && reader.Valid() && writer.cipher == reader.cipher
    requires reader.source.received <= writer.sink.sent
    ensures reader.delivered <= writer.Accepted()
    ensures !Malformed(reader.cipher, 0, reader.source.received)
    ensures writer.state.Idle? && reader.source.received == writer.sink.sent && reader.state.ReadData? ==>
              reader.delivered == writer.Accepted()
  {
    writer.Open();
    assert NoiseWriter.Covered(0);
    var wire := Wire(Sealed(writer.cipher, writer.chunks));
    assert writer.sink.sent <= wire;
    assert writer.state.Idle? ==> writer.sink.sent == wire;
    PrefixOfWire(writer.cipher, writer.chunks, reader.source.received);
    reader.DeliversPrefix();
    if reader.state.ReadData? {
      reader.Open();
      reader.WaitingMeansDrained();
    }
  }

  /** One move of the writer, of the reader or of the network between them. */
  datatype Move =
    | Write(data: bytes)
    | Flush
    | Read(size: nat)
    /** The network takes the writer's next bytes as it pleases. */
    | Accept(reply: WriteReply)
    /** The network hands over the next `n` bytes it has taken, or stalls, breaks, ends. */
    | Carry(n: nat)
    | Stall
    | Break
    | HangUp

  class Link {
    const sink: Sink
    const source: Source
    const writer: NoiseWriter.Writer
    const reader: NoiseReader.Reader
    /** How much of the wire the network has carried over. */
    var carried: nat
    /** How often the network has hung up, or broken, and how often a read has said so. */
    var hangUps: nat
    var breaks: nat
    var ended: nat
    var broken: nat
    /** Everything `poll_write` accepted, and everything `poll_read` returned. */
    ghost var input: bytes
    ghost var output: bytes

    ghost predicate Valid()
      reads this, sink, source, writer, writer.encryptBuffer, reader, reader.readBuffer
    {
      && writer.sink == sink && reader.source == source && writer.cipher == reader.cipher
      && writer.encryptBuffer != reader.readBuffer
      && writer.Valid() && input == writer.Accepted()
      && reader.Valid() && output == reader.delivered
      && carried <= |sink.sent| && Brings(source.Now(), sink.sent, carried)
      && ended == source.ends && broken == source.errors && Counted(source.Now(), hangUps, breaks)
    }

    constructor (cipher: Cipher, factor: nat, writeBufferSize: nat)
      requires Sound(cipher) && 1 <= factor && 1 <= writeBufferSize
      ensures Valid() && input == [] && output == []
      ensures fresh(sink) && fresh(source) && fresh(writer) && fresh(writer.encryptBuffer)
      ensures fresh(reader) && fresh(reader.readBuffer)
    {
      var k := new Sink([]);
      var s := new Source([]);
      sink, source := k, s;
      writer := new NoiseWriter.Writer(cipher, k, writeBufferSize);
      reader := new NoiseReader.Reader(cipher, s, factor);
      carried, hangUps, breaks, ended, broken := 0, 0, 0, 0, 0;
      input, output := [], [];
    }

    method DoWrite(data: bytes)
      requires Valid()
      modifies this`input, sink, writer, writer.encryptBuffer
      ensures Valid()
      ensures input == old(input) || input == old(input) + data
    {
      var r := writer.PollWrite(data);
      if r.Ready? {
        input := input + data;
      }
      BringsWrite(source.Now(), old(sink.sent), sink.sent, carried);
    }

    method DoFlush()
      requires Valid()
      modifies sink, writer
      ensures Valid()
    {
      var r := writer.PollFlush();
      BringsWrite(source.Now(), old(sink.sent), sink.sent, carried);
    }

    /** One read, and what it hands out. */
    method PollReader(size: nat) returns (r: NoiseReader.Outcome, ghost got: bytes)
      requires Valid()
      modifies source, reader, reader.readBuffer
      ensures writer.Valid() && input == writer.Accepted() && reader.Valid() && reader.delivered == output + got
      ensures Brings(source.Now(), sink.sent, carried) && Counted(source.Now(), hangUps, breaks)
      ensures source.ends == ended + Tick(r == NoiseReader.Failed(NoiseReader.UnexpectedEof))
      ensures source.errors == broken + Tick(r == NoiseReader.Failed(NoiseReader.InnerError))
    {
      var out := new byte[size];
      ghost var before := source.Now();
      r := reader.PollRead(out);
      BringsRead(before, source.Now(), sink.sent, carried);
      CountedRead(before, source.Now(), hangUps, breaks);
      NothingToReject(writer, source.received);
      got := if r.Ready? then out[..r.n] else [];
    }

    method DoRead(size: nat)
      requires Valid()
      modifies this`output, this`ended, this`broken, source, reader, reader.readBuffer
      ensures Valid() && old(output) <= output
    {
      var r, got := PollReader(size);
      ended := ended + Tick(r == NoiseReader.Failed(NoiseReader.UnexpectedEof));
      broken := broken + Tick(r == NoiseReader.Failed(NoiseReader.InnerError));
      output := output + got;
    }

    method DoCarry(reply: ReadReply, n: nat)
      requires Valid()
      requires if reply.ReadReady? then carried + n <= |sink.sent|
        && reply.data == sink.sent[carried..carried + n] else n == 0
      modifies this`carried, this`hangUps, this`breaks, source`tape
      ensures Valid() && hangUps == old(hangUps) + Tick(reply == ReadReady([]))
      ensures breaks == old(breaks) + Tick(reply.ReadFailed?)
    {
      BringsOn(source.Now(), reply, sink.sent, carried, n);
      CountedOn(source.Now(), reply, hangUps, breaks);
      hangUps, breaks := hangUps + Tick(reply == ReadReady([])), breaks + Tick(reply.ReadFailed?);
      source.tape := source.tape + [reply];
      carried := carried + n;
    }

    method Step(move: Move)
      requires Valid()
      modifies this, sink, source, writer, writer.encryptBuffer, reader, reader.readBuffer
      ensures Valid() && old(input) <= input && old(output) <= output
    {
      match move
      case Write(data) => DoWrite(data);
      case Flush => DoFlush();
      case Read(size) => DoRead(size);
      case Accept(reply) => sink.tape := sink.tape + [reply];
      case Carry(n) =>
        var all := sink.sent;
        if carried + n <= |all| {
          DoCarry(ReadReady(all[carried..carried + n]), n);
        }
      case Stall => DoCarry(ReadPending, 0);
      case Break => DoCarry(ReadFailed, 0);
      case HangUp => DoCarry(ReadReady([]), 0);
    }

    /** Every schedule: after any list of moves the output is a prefix of the input, and it is all
        of the input when nothing is left to flush, to carry or to read. Every end and every error of
        the stream has been reported to the reader's caller once, or is still ahead of it. */
    method Run(moves: seq<Move>)
      requires Valid()
      modifies this, sink, source, writer, writer.encryptBuffer, reader, reader.readBuffer
      ensures Valid() && old(input) <= input && old(output) <= output <= input
      ensures writer.state.Idle? && source.received == sink.sent && reader.state.ReadData? ==> output == input
      ensures hangUps == ended + EndsIn(source.tape) && breaks == broken + ErrorsIn(source.tape)
    {
      for i := 0 to |moves|
        invariant Valid() && old(input) <= input && old(output) <= output
      {
        Step(moves[i]);
      }
      BringsArrived(source.Now(), sink.sent, carried);
      CountedStops(source.Now(), hangUps, breaks);
      EndToEnd(writer, reader);
    }
  }
}
