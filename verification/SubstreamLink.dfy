/** The two ends of a substream joined by a reliable byte stream: what one side accepts, the other
    side returns, over every schedule. */
module SubstreamLink {
  import opened Io
  import opened Varint
  import opened Substream

  /** One move of the writer, of the reader or of the network between them. */
  datatype Move =
    | Send(item: bytes)
    | Flush
    | Poll
    /** The network takes the writer's next bytes as it pleases. */
    | Accept(reply: WriteReply)
    /** The network hands over the next `n` bytes it has taken, or stalls, breaks, ends. */
    | Carry(n: nat)
    | Stall
    | Break
    | HangUp

  /** Mentioned where the state of the writer, or of the reader, is to be unfolded. */
  predicate Used(i: int) {
    true
  }

  /** The reader says that the inner stream has ended or failed. */
  predicate Stops(codec: Codec, r: Next) {
    (r.End? && codec != Identity(0)) || (r.ReadFailure? && codec.Identity?)
  }

  class Link {
    const sink: Sink
    const source: Source
    const writer: Writer
    const reader: Reader
    /** How much of the wire the network has carried over. */
    var carried: nat
    /** Whether the writer has reported an inner error, and whether it was used after that. */
    var broken: bool
    var strayed: bool
    /** Whether the reader has returned an error, and whether it has panicked. */
    var rejected: bool
    var panicked: bool
    /** How often the network has hung up, or broken, and how often the reader has said so. */
    var hangUps: nat
    var breaks: nat
    var stopped: nat
    /** Everything that was accepted, and everything that was returned. */
    ghost var input: seq<bytes>
    ghost var output: seq<bytes>

    ghost predicate Valid()
      reads this, sink, source, writer, reader
    {
      && writer.sink == sink && reader.source == source && writer.codec == reader.codec
      && Writes() && Reads()
      && carried <= |sink.sent| && Brings(source.Now(), sink.sent, carried)
      && stopped == source.ends + source.errors && Counted(source.Now(), hangUps, breaks)
    }

    ghost predicate Written()
      reads this`input, this`broken, this`strayed, writer, writer.sink`sent
    {
      && writer.Valid() && input == writer.items
      && (0 < writer.lost ==> broken) && (!strayed ==> writer.Honest())
    }

    ghost predicate Returned()
      reads this`output, this`rejected, this`panicked, this`strayed
      reads reader, reader.source`received, reader.source`failed
    {
      && output == reader.items
      && (if reader.codec.Identity? then reader.Valid() && (rejected ==> reader.source.failed)
          else (rejected ==> strayed) && (!rejected ==> reader.Valid()))
      && (panicked ==> reader.codec.Identity? && reader.codec.payloadSize > FIRST_BUFFER)
    }

    ghost predicate Writes()
      reads this`input, this`broken, this`strayed, writer, writer.sink`sent
    {
      forall i {:trigger Used(i)} :: i == 0 && Used(i) ==> Written()
    }

    ghost predicate Reads()
      reads this`output, this`rejected, this`panicked, this`strayed
      reads reader, reader.source`received, reader.source`failed
    {
      forall i {:trigger Used(i)} :: i == 1 && Used(i) ==> Returned()
    }

    lemma OpenWrites()
      requires Writes()
      ensures Written()
    {
      assert Used(0);
    }

    lemma OpenReads()
      requires Reads()
      ensures Returned()
    {
      assert Used(1);
    }

    constructor (codec: Codec)
      ensures Valid() && input == [] && output == [] && writer.codec == codec && !broken && !strayed && !rejected
      ensures fresh(sink) && fresh(source) && fresh(writer) && fresh(reader)
    {
      var k := new Sink([]);
      var s := new Source([]);
      sink, source := k, s;
      writer := new Writer(codec, k);
      reader := new Reader(codec, s);
      carried := 0;
      broken, strayed, rejected, panicked := false, false, false, false;
      hangUps, breaks, stopped := 0, 0, 0;
      input, output := [], [];
      new;
      Starts();
    }

    lemma Starts()
      requires writer.sink == sink && reader.source == source && writer.codec == reader.codec
      requires writer.Valid() && writer.Honest() && writer.items == [] && writer.lost == 0
      requires reader.Valid() && reader.items == []
      requires source.tape == [] && source.received == [] && source.ends == source.errors == 0
      requires carried == hangUps == breaks == stopped == 0 && input == [] && output == []
      requires !rejected && !panicked
      ensures Valid()
    {
    }

    /** Before the writer is used. */
    method Use()
      requires Valid()
      modifies this`strayed
      ensures Valid() && (!strayed ==> writer.lost == 0) && Written()
    {
      OpenWrites();
      OpenReads();
      strayed := strayed || broken;
    }

    method DoSend(item: bytes)
      requires Valid() && |item| < USIZE_BOUND
      modifies this`strayed, this`broken, this`input, sink, writer
      ensures Valid() && old(input) <= input
    {
      Use();
      var r, ok := writer.Send(item);
      BringsWrite(source.Now(), old(sink.sent), sink.sent, carried);
      Note(r);
    }

    /** After the writer was used. */
    method Note(r: Outcome)
      requires Reads() && Brings(source.Now(), sink.sent, carried) && carried <= |sink.sent|
      requires writer.sink == sink && reader.source == source && writer.codec == reader.codec
      requires stopped == source.ends + source.errors && Counted(source.Now(), hangUps, breaks)
      requires writer.Valid() && (!strayed ==> writer.Honest()) && (0 < writer.lost ==> broken || r == Failed(false))
      modifies this`broken, this`input
      ensures Valid() && input == writer.items
    {
      broken := broken || r == Failed(false);
      input := writer.items;
    }

    method DoFlush()
      requires Valid()
      modifies this`strayed, this`broken, this`input, sink, writer
      ensures Valid() && input == old(input)
    {
      Use();
      var r := writer.PollFlush();
      BringsWrite(source.Now(), old(sink.sent), sink.sent, carried);
      Note(r);
    }

    method PollReader() returns (r: Next)
      requires Valid() && reader.Valid()
      modifies source, reader
      ensures Writes() && Brings(source.Now(), sink.sent, carried) && Counted(source.Now(), hangUps, breaks)
      ensures old(reader.items) <= reader.items && (old(source.failed) ==> source.failed)
      ensures source.ends + source.errors == stopped + Tick(Stops(reader.codec, r))
      ensures r.ReadFailure? ==> if reader.codec.Identity? then source.failed && reader.Valid() else strayed
      ensures !r.ReadFailure? ==> reader.Valid()
      ensures r.Panics? ==> reader.codec.Identity? && reader.codec.payloadSize > FIRST_BUFFER
    {
      ghost var before := source.Now();
      r := reader.PollNext();
      BringsRead(before, source.Now(), sink.sent, carried);
      CountedRead(before, source.Now(), hangUps, breaks);
      LeadsKeeps(before, source.Now());
      if !strayed && reader.codec.UnsignedVarint? {
        OpenWrites();
        NotRejected(writer, source.received, reader.items, r);
      }
    }

    method DoPoll()
      requires Valid() && (!rejected || reader.codec.Identity?)
      modifies this`rejected, this`panicked, this`output, this`stopped, source, reader
      ensures Valid() && old(output) <= output
    {
      OpenReads();
      var r := PollReader();
      Conclude(r);
    }

    /** After the reader was polled. */
    method Conclude(r: Next)
      requires Writes() && Brings(source.Now(), sink.sent, carried) && carried <= |sink.sent|
      requires writer.sink == sink && reader.source == source && writer.codec == reader.codec
      requires Counted(source.Now(), hangUps, breaks)
      requires source.ends + source.errors == stopped + Tick(Stops(reader.codec, r))
      requires rejected ==> reader.codec.Identity? && source.failed
      requires r.ReadFailure? ==> if reader.codec.Identity? then source.failed && reader.Valid() else strayed
      requires !r.ReadFailure? ==> reader.Valid()
      requires panicked || r.Panics? ==> reader.codec.Identity? && reader.codec.payloadSize > FIRST_BUFFER
      modifies this`rejected, this`panicked, this`output, this`stopped
      ensures Valid() && output == reader.items
    {
      rejected, panicked := rejected || r.ReadFailure?, panicked || r.Panics?;
      output := reader.items;
      stopped := stopped + Tick(Stops(reader.codec, r));
      StillWrites();
      assert Returned();
    }

    twostate lemma StillWrites()
      requires old(Writes()) && unchanged(writer, writer.sink, this`input, this`broken, this`strayed)
      ensures Writes()
    {
    }

    method DoCarry(reply: ReadReply, n: nat)
      requires Valid()
      requires if reply.ReadReady? then carried + n <= |sink.sent| && reply.data == sink.sent[carried..carried + n]
        else n == 0
      modifies this`carried, this`hangUps, this`breaks, source`tape
      ensures Valid() && hangUps == old(hangUps) + Tick(reply == ReadReady([]))
      ensures breaks == old(breaks) + Tick(reply.ReadFailed?)
    {
      BringsOn(source.Now(), reply, sink.sent, carried, n);
      CountedOn(source.Now(), reply, hangUps, breaks);
      hangUps, breaks := hangUps + Tick(reply == ReadReady([])), breaks + Tick(reply.ReadFailed?);
      source.tape := source.tape + [reply];
      carried := carried + n;
    }

    method Step(move: Move)
      requires Valid()
      modifies this, sink, source, writer, reader
      ensures Valid() && old(input) <= input && old(output) <= output
    {
      match move
      case Send(item) =>
        if |item| < USIZE_BOUND {
          DoSend(item);
        }
      case Flush => DoFlush();
      case Poll =>
        if !rejected || reader.codec.Identity? {
          DoPoll();
        }
      case Accept(reply) => sink.tape := sink.tape + [reply];
      case Carry(n) =>
        var all := sink.sent;
        if carried + n <= |all| {
          DoCarry(ReadReady(all[carried..carried + n]), n);
        }
      case Stall => DoCarry(ReadPending, 0);
      case Break => DoCarry(ReadFailed, 0);
      case HangUp => DoCarry(ReadReady([]), 0);
    }

    /** Every schedule, as long as the writer is not used after an inner error: the items returned are
        the first of those accepted, and all of them when nothing was lost and nothing is left to
        write or to carry; with a varint codec nothing is rejected, and without one only a failed
        stream is. Every end and error of the inner stream has ended or failed a poll once, or is still
        ahead of the reader. */
    method Run(moves: seq<Move>)
      requires Valid()
      modifies this, sink, source, writer, reader
      ensures Valid() && old(input) <= input && old(output) <= output
      ensures !strayed ==> output <= input && (rejected ==> reader.codec.Identity? && source.failed)
      ensures !strayed && writer.pendingOutBytes == 0 && source.received == sink.sent && reader.codec != Identity(0) ==>
        output == input
      ensures panicked ==> reader.codec.Identity? && reader.codec.payloadSize > FIRST_BUFFER
      ensures hangUps + breaks == stopped + EndsIn(source.tape) + ErrorsIn(source.tape)
    {
      for i := 0 to |moves|
        invariant Valid() && old(input) <= input && old(output) <= output
      {
        Step(moves[i]);
      }
      OpenReads();
      CountedStops(source.Now(), hangUps, breaks);
      if !strayed {
        BringsArrived(source.Now(), sink.sent, carried);
        OpenWrites();
        if reader.codec.Identity? {
          IdentityRoundTrip(writer, reader);
        } else {
          RoundTrip(writer, reader);
        }
      }
    }
  }
}
