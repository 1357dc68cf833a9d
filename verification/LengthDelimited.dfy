/** The length-delimited framing under multistream-select: a stream and a sink of frames of
    at most 16383 bytes that never reads past the frame it returns. */
module LengthDelimited {
  import opened Io
  import opened Varint
  import opened Delimited

  const MAX_LEN_BYTES: nat := 2
  const MAX_FRAME_SIZE: nat := 16383
  const RULE: Rule := Rule(MAX_LEN_BYTES, MAX_FRAME_SIZE)

  datatype ReadState =
    | ReadLength(buf: bytes, pos: nat)
    | ReadData(len: nat, pos: nat)

  const START: ReadState := ReadLength([0, 0], 0)

  datatype Fault = UnexpectedEof | InvalidData | InnerError | WriteZero

  /** `Poll<Option<Result<Bytes, io::Error>>>` */
  datatype Next = Pending | End | Item(frame: bytes) | Faulted(fault: Fault)

  /** `Poll<Result<(), io::Error>>` */
  datatype Progress = Blocked | Complete | Broken(fault: Fault)

  /** The bytes of a length read one at a time are decoded like a whole prefix. */
  lemma LengthPrefix(buf: bytes, pos: nat)
    requires |buf| == 2 && 1 <= pos <= 2 && (pos == 2 ==> buf[0] >= 128)
    ensures var d := Decode(buf, 3); var s := buf[..pos];
            if buf[pos - 1] >= 128 then pos == 2 ==> Peel(RULE, s) == Bad
            else if d.Decoded? then d.used == pos && Encode(d.value) == s && d.value <= MAX_FRAME_SIZE
            else Peel(RULE, s) == Bad
  {
    if pos == 1 {
      assert buf[..1] == [buf[0]];
    } else {
      assert buf[..2] == buf && buf[1..] == [buf[1]];
      assert buf[1] < 128 ==> DecodeFrom(buf[1..], 2, false) == DecodeFrom(buf[1..], 1, false);
      assert buf[1] >= 128 ==> DecodeFrom(buf[1..], 1, false) == Overflow;
      assert Decode(buf, 2) == DecodeFrom(buf, 2, true);
    }
    if Decode(buf, 3).Decoded? {
      EncodeDecode(buf, 3);
    }
  }

  /** Whatever is neither a frame nor bad is the beginning of a frame: a reader never waits in vain. */
  lemma WaitsForFrame(s: bytes) returns (m: bytes)
    requires Peel(RULE, s) == Short
    ensures Legal(RULE, m) && s < Frame(m)
  {
    var d := Decode(s, MAX_LEN_BYTES);
    if d.Decoded? {
      EncodeDecode(s, MAX_LEN_BYTES);
      var rest := s[d.used..];
      m := rest + seq(d.value - |rest|, _ => 0);
      assert s == Encode(d.value) + rest;
    } else if s == [] {
      m := [];
    } else {
      assert DecodeFrom(s, MAX_LEN_BYTES, true).Insufficient? && DecodeFrom(s[1..], 1, false).Insufficient?;
      assert |s| == 1 && s[0] >= 128;
      m := seq(s[0], _ => 0);
      assert Encode(|m|) == [s[0], 1];
    }
  }

  lemma SplitAt(sent: bytes, data: bytes, n: nat)
    requires n <= |data|
    ensures sent + data[..n] + data[n..] == sent + data
  {
  }

  lemma EmptyFrame(frames: seq<bytes>)
    requires AllLegal(RULE, frames)
    ensures AllLegal(RULE, frames + [[]]) && Wire(frames + [[]]) == Wire(frames) + Encode(0)
  {
    WireSnoc(frames, []);
    assert Frame([]) == Encode(0);
  }

  /** Some more bytes of a payload, which may complete it. */
  lemma DataArrives(frames: seq<bytes>, buffer: bytes, pos: nat, data: bytes)
    requires AllLegal(RULE, frames) && 0 < |buffer| <= MAX_FRAME_SIZE && pos + |data| <= |buffer|
    ensures var next := buffer[..pos] + data + buffer[pos + |data|..];
            var partial := Wire(frames) + (Encode(|buffer|) + buffer[..pos]) + data;
            && |next| == |buffer| && partial == Wire(frames) + (Encode(|buffer|) + next[..pos + |data|])
            && (pos + |data| == |buffer| ==> AllLegal(RULE, frames + [next]) && partial == Wire(frames + [next]))
  {
    var next := buffer[..pos] + data + buffer[pos + |data|..];
    assert next[..pos + |data|] == buffer[..pos] + data;
    Assoc(Wire(frames), Encode(|buffer|) + buffer[..pos], data);
    Assoc(Encode(|buffer|), buffer[..pos], data);
    if pos + |data| == |buffer| {
      assert next[..|buffer|] == next;
      TwoBytes(|buffer|);
      WireSnoc(frames, next);
    }
  }

  class Framed {
    const source: Source
    const sink: Sink
    var readBuffer: bytes
    var writeBuffer: bytes
    var readState: ReadState

    /** The frames returned so far, and all bytes ever handed over for writing. */
    ghost var frames: seq<bytes>
    ghost var submitted: bytes

    /** The part of the next frame that has been read. */
    ghost function Partial(): bytes
      reads this`readState, this`readBuffer
    {
      match readState
      case ReadLength(buf, pos) => if pos <= |buf| then buf[..pos] else []
      case ReadData(len, pos) => Encode(len) + (if pos <= |readBuffer| then readBuffer[..pos] else [])
    }

    ghost predicate Reading()
      reads this`frames, this`readState, this`readBuffer, source`received
    {
      && AllLegal(RULE, frames)
      && source.received == Wire(frames) + Partial()
      && match readState
         case ReadLength(buf, pos) =>
           |buf| == 2 && pos < 2 && (pos == 1 ==> buf[0] >= 128) && readBuffer == []
         case ReadData(len, pos) =>
           0 < len <= MAX_FRAME_SIZE && |readBuffer| == len && pos < len
    }

    ghost predicate Writing()
      reads this`writeBuffer, this`submitted, sink`sent
    {
      && sink.sent + writeBuffer == submitted
      && |writeBuffer| <= 2 * MAX_FRAME_SIZE + 1
    }

    ghost predicate Valid()
      reads this, source`received, sink`sent
    {
      Reading() && Writing()
    }

    constructor (source: Source, sink: Sink)
      requires source.received == []
      ensures Valid() && frames == [] && submitted == sink.sent && writeBuffer == []
      ensures this.source == source && this.sink == sink
    {
      this.source := source;
      this.sink := sink;
      readBuffer, writeBuffer := [], [];
      readState := START;
      frames, submitted := [], sink.sent;
    }

    /** State `ReadLength`: one more byte of the length. */
    method TakeLengthByte(b: byte) returns (r: Option<Next>)
      requires AllLegal(RULE, frames) && readState.ReadLength? && readBuffer == []
      requires var pos := readState.pos; |readState.buf| == 2 && pos < 2 && (pos == 1 ==> readState.buf[0] >= 128)
      requires source.received == Wire(frames) + readState.buf[..readState.pos] + [b]
      modifies this`readState, this`readBuffer, this`frames
      ensures r.None? || r.value.Item? ==> Reading()
      ensures r.None? ==> frames == old(frames)
      ensures r.Some? && r.value.Item? ==>
        frames == old(frames) + [r.value.frame] && source.received == Wire(frames) && readBuffer == []
      ensures r.Some? && !r.value.Item? ==>
        r.value == Faulted(InvalidData) && frames == old(frames) && Stuck(RULE, frames, source.received)
    {
      var buf, pos := readState.buf[readState.pos := b], readState.pos + 1;
      ghost var s := buf[..pos];
      assert s == readState.buf[..readState.pos] + [b];
      Assoc(Wire(frames), readState.buf[..readState.pos], [b]);
      LengthPrefix(buf, pos);
      readState := ReadLength(buf, pos);
      if b < 128 {
        var d := Decode(buf, 3);
        if !d.Decoded? {
          GetsStuck(RULE, frames, s);
          return Some(Faulted(InvalidData));
        }
        r := TakeLength(d.value);
        return;
      } else if pos == MAX_LEN_BYTES {
        GetsStuck(RULE, frames, s);
        return Some(Faulted(InvalidData));
      }
      return None;
    }

    /** The length is complete. */
    method TakeLength(len: nat) returns (r: Option<Next>)
      requires AllLegal(RULE, frames) && len <= MAX_FRAME_SIZE && readBuffer == []
      requires source.received == Wire(frames) + Encode(len)
      modifies this`readState, this`readBuffer, this`frames
      ensures Reading() && (r.Some? ==> r.value.Item?)
      ensures r.None? ==> frames == old(frames)
      ensures r.Some? ==>
        frames == old(frames) + [r.value.frame] && source.received == Wire(frames) && readBuffer == []
    {
      if len >= 1 {
        readState := ReadData(len, 0);
        readBuffer := seq(len, _ => 0);
        assert Encode(len) + readBuffer[..0] == Encode(len);
        return None;
      }
      readState := START;
      EmptyFrame(frames);
      frames := frames + [[]];
      assert Wire(frames) + START.buf[..0] == Wire(frames);
      return Some(Item([]));
    }

    /** State `ReadData`: some more bytes of the payload. */
    method TakeData(data: bytes) returns (r: Option<Next>)
      requires AllLegal(RULE, frames) && readState.ReadData? && 0 < |data|
      requires 0 < readState.len <= MAX_FRAME_SIZE && |readBuffer| == readState.len
        && readState.pos + |data| <= readState.len
      requires source.received == Wire(frames) + Partial() + data
      modifies this`readState, this`readBuffer, this`frames
      ensures Reading()
      ensures r.None? ==> frames == old(frames)
      ensures r.Some? ==>
        r.value.Item? && frames == old(frames) + [r.value.frame] && source.received == Wire(frames) && readBuffer == []
    {
      var len, pos := readState.len, readState.pos + |data|;
      DataArrives(frames, readBuffer, readState.pos, data);
      readBuffer := readBuffer[..readState.pos] + data + readBuffer[pos..];
      readState := ReadData(len, pos);
      if pos == len {
        var frame := readBuffer;
        readBuffer := [];
        readState := START;
        frames := frames + [frame];
        assert Wire(frames) + [] == Wire(frames);
        return Some(Item(frame));
      }
      return None;
    }

    /** One inner read and what follows from it. */
    method ReadOnce() returns (r: Option<Next>)
      requires Reading()
      modifies this`readState, this`readBuffer, this`frames, source
      ensures Leads(old(source.Now()), source.Now())
      ensures source.pendings == old(source.pendings) + (if r == Some(Pending) then 1 else 0)
      ensures source.ends == old(source.ends) + Tick(r == Some(End) || r == Some(Faulted(UnexpectedEof)))
      ensures source.errors == old(source.errors) + Tick(r == Some(Faulted(InnerError)))
      ensures r == Some(Faulted(InvalidData)) || Reading()
      ensures r.None? ==> frames == old(frames)
      ensures r.None? || r.value.Item? ==> TapeSize(source.tape) < old(TapeSize(source.tape))
      ensures r.Some? ==> match r.value
        case Pending => frames == old(frames)
        case Item(frame) => frames == old(frames) + [frame] && source.received == Wire(frames) && readBuffer == []
        case End => frames == old(frames) && source.eof && source.received == Wire(frames)
        case Faulted(InvalidData) => frames == old(frames) && Stuck(RULE, frames, source.received)
        case Faulted(UnexpectedEof) => frames == old(frames) && source.eof && Wire(frames) < source.received
        case Faulted(InnerError) => frames == old(frames) && source.failed
        case Faulted(WriteZero) => false
    {
      ghost var had := source.received;
      match readState
      case ReadLength(buf, pos) =>
        var reply := source.PollRead(1);
        match reply {
          case ReadPending => return Some(Pending);
          case ReadFailed => return Some(Faulted(InnerError));
          case ReadReady(data) =>
            if data == [] {
              assert source.received == had;
              return Some(if pos == 0 then End else Faulted(UnexpectedEof));
            }
            assert data == [data[0]];
            r := TakeLengthByte(data[0]);
        }
      case ReadData(len, pos) =>
        var reply := source.PollRead(len - pos);
        match reply {
          case ReadPending => return Some(Pending);
          case ReadFailed => return Some(Faulted(InnerError));
          case ReadReady(data) =>
            if data == [] {
              assert source.received == had;
              return Some(Faulted(UnexpectedEof));
            }
            r := TakeData(data);
        }
    }

    /** While a frame is incomplete, the reference reader sees only the frames returned. */
    lemma ReturnsItems()
      requires Reading()
      ensures Items(RULE, source.received) == frames && !Malformed(RULE, source.received)
    {
      ItemsOfWire(RULE, frames, Partial());
      match readState
      case ReadLength(buf, pos) =>
        if pos == 1 {
          assert buf[..1] == [buf[0]];
          assert Decode(buf[..1], 2) == DecodeFrom(buf[..1][1..], 1, false) == Insufficient;
        }
      case ReadData(len, pos) =>
        TwoBytes(len);
        DecodeEncode(len, readBuffer[..pos], 2);
    }

    /** `poll_next`: the frames of the received stream, one by one. At each frame nothing
        beyond it has been read from the inner stream and the read buffer is empty. */
    method PollNext() returns (r: Next)
      requires Reading()
      modifies this`readState, this`readBuffer, this`frames, source
      ensures r.Item? ==> TapeSize(source.tape) < old(TapeSize(source.tape))
      ensures Leads(old(source.Now()), source.Now())
      ensures source.pendings == old(source.pendings) + (if r.Pending? then 1 else 0)
      ensures source.ends == old(source.ends) + Tick(r == End || r == Faulted(UnexpectedEof))
      ensures source.errors == old(source.errors) + Tick(r == Faulted(InnerError))
      ensures r == Faulted(InvalidData) || Reading()
      ensures match r
        case Pending => frames == old(frames)
        case Item(frame) => frames == old(frames) + [frame] && source.received == Wire(frames) && readBuffer == []
        case End => frames == old(frames) && source.eof && source.received == Wire(frames)
        case Faulted(InvalidData) => frames == old(frames) && Stuck(RULE, frames, source.received)
        case Faulted(UnexpectedEof) => frames == old(frames) && source.eof && Wire(frames) < source.received
        case Faulted(InnerError) => frames == old(frames) && source.failed
        case Faulted(WriteZero) => false
    {
      LeadsSelf(source.Now());
      while true
        invariant Reading() && frames == old(frames) && TapeSize(source.tape) <= old(TapeSize(source.tape))
        invariant Leads(old(source.Now()), source.Now()) && source.pendings == old(source.pendings)
        invariant source.ends == old(source.ends) && source.errors == old(source.errors)
        decreases TapeSize(source.tape)
      {
        ghost var before := source.Now();
        var step := ReadOnce();
        LeadsOn(old(source.Now()), before, source.Now());
        if step.Some? {
          return step.value;
        }
      }
    }

    /** `poll_write_buffer`: success means that everything submitted is on the wire. */
    method PollWriteBuffer() returns (r: Progress)
      requires Writing()
      modifies this`writeBuffer, sink
      ensures Writing() && |writeBuffer| <= old(|writeBuffer|)
      ensures old(sink.sent) <= sink.sent && (old(sink.failed) ==> sink.failed)
      ensures r.Complete? ==> writeBuffer == [] && sink.sent == submitted
      ensures sink.pendings == old(sink.pendings) + (if r.Blocked? then 1 else 0)
      ensures sink.zeros == old(sink.zeros) + Tick(r == Broken(WriteZero))
      ensures sink.errors == old(sink.errors) + Tick(r == Broken(InnerError))
      ensures sink.flushes == old(sink.flushes)
      ensures r.Broken? ==> (r.fault == WriteZero && sink.stalled) || (r.fault == InnerError && sink.failed)
      ensures old(writeBuffer != [] && sink.TakesNothing()) ==>
        r == Broken(WriteZero) && writeBuffer == old(writeBuffer) && sink.failed == old(sink.failed)
    {
      while writeBuffer != []
        invariant Writing() && |writeBuffer| <= old(|writeBuffer|) && sink.pendings == old(sink.pendings)
        invariant sink.zeros == old(sink.zeros) && sink.errors == old(sink.errors) && sink.flushes == old(sink.flushes)
        invariant old(sink.sent) <= sink.sent && (old(sink.failed) ==> sink.failed)
        invariant old(writeBuffer != [] && sink.TakesNothing()) ==>
          writeBuffer == old(writeBuffer) && sink.TakesNothing() && sink.failed == old(sink.failed)
        decreases |sink.tape|
      {
        ghost var sent, data := sink.sent, writeBuffer;
        var reply := sink.PollWrite(writeBuffer);
        if reply.WritePending? {
          return Blocked;
        }
        if reply.WriteFailed? {
          return Broken(if reply.writeZero then WriteZero else InnerError);
        }
        var n := reply.n;
        SplitAt(sent, data, n);
        if n == 0 {
          assert sink.sent == sent;
          return Broken(WriteZero);
        }
        writeBuffer := writeBuffer[n..];
      }
      assert sink.sent + [] == sink.sent;
      return Complete;
    }

    /** `poll_ready`: success leaves less than one frame buffered. */
    method PollReady() returns (r: Progress)
      requires Writing()
      modifies this`writeBuffer, sink
      ensures Writing() && |writeBuffer| <= old(|writeBuffer|) && old(sink.sent) <= sink.sent
      ensures r.Complete? ==> |writeBuffer| < MAX_FRAME_SIZE
      ensures r.Complete? && old(|writeBuffer|) >= MAX_FRAME_SIZE ==> writeBuffer == []
      ensures old(|writeBuffer|) < MAX_FRAME_SIZE ==>
        r.Complete? && writeBuffer == old(writeBuffer) && sink.sent == old(sink.sent)
      ensures sink.pendings == old(sink.pendings) + (if r.Blocked? then 1 else 0)
      ensures sink.zeros == old(sink.zeros) + Tick(r == Broken(WriteZero))
      ensures sink.errors == old(sink.errors) + Tick(r == Broken(InnerError))
      ensures sink.flushes == old(sink.flushes)
      ensures r.Broken? ==> (r.fault == WriteZero && sink.stalled) || (r.fault == InnerError && sink.failed)
    {
      if |writeBuffer| >= MAX_FRAME_SIZE {
        r := PollWriteBuffer();
        return;
      }
      return Complete;
    }

    /** `start_send`, called when `poll_ready` has succeeded: the frame is queued, or it is too long. */
    method StartSend(item: bytes) returns (ok: bool)
      requires Writing() && |writeBuffer| < MAX_FRAME_SIZE
      modifies this`writeBuffer, this`submitted
      ensures Writing() && (ok <==> |item| <= MAX_FRAME_SIZE)
      ensures submitted == if ok then old(submitted) + Frame(item) else old(submitted)
    {
      if |item| > MAX_FRAME_SIZE {
        return false;
      }
      TwoBytes(|item|);
      Assoc(sink.sent, writeBuffer, Frame(item));
      writeBuffer := writeBuffer + Frame(item);
      submitted := submitted + Frame(item);
      return true;
    }

    /** `poll_flush` and `poll_close`: write everything, then flush or close the inner stream. */
    method PollFlush() returns (r: Progress)
      requires Writing()
      modifies this`writeBuffer, sink
      ensures Writing() && |writeBuffer| <= old(|writeBuffer|)
      ensures old(sink.sent) <= sink.sent && (old(sink.failed) ==> sink.failed)
      ensures r.Complete? ==> writeBuffer == [] && sink.sent == submitted
      ensures sink.pendings == old(sink.pendings) + (if r.Blocked? then 1 else 0)
      ensures sink.zeros == old(sink.zeros) + Tick(r == Broken(WriteZero))
      ensures sink.errors == old(sink.errors) + Tick(r == Broken(InnerError))
      ensures sink.flushes == old(sink.flushes) + Tick(r.Complete?)
      ensures r.Broken? ==> (r.fault == WriteZero && sink.stalled) || (r.fault == InnerError && sink.failed)
      ensures old(writeBuffer != [] && sink.TakesNothing()) ==>
        r == Broken(WriteZero) && writeBuffer == old(writeBuffer) && sink.failed == old(sink.failed)
    {
      r := PollWriteBuffer();
      if r.Complete? {
        var reply := sink.PollFlush();
        match reply
        case WritePending => r := Blocked;
        case WriteFailed(writeZero) => r := Broken(if writeZero then WriteZero else InnerError);
        case WriteReady(_) =>
      }
    }

    /** `LengthDelimitedReader::poll_write`: write directly, once nothing is buffered. A
        failure to drain the buffer is reported as a failure to write. */
    method PollWriteThrough(data: bytes) returns (r: WriteReply)
      requires Writing()
      modifies this`writeBuffer, this`submitted, sink
      ensures Writing() && old(sink.sent) <= sink.sent && (old(sink.failed) ==> sink.failed)
      ensures r.WriteReady? ==> r.n <= |data| && submitted == old(submitted) + data[..r.n] && writeBuffer == []
      ensures !r.WriteReady? ==> submitted == old(submitted)
      ensures r.WriteFailed? ==> if r.writeZero then sink.stalled else sink.failed
      ensures sink.pendings == old(sink.pendings) + (if r.WritePending? then 1 else 0)
      ensures sink.zeros == old(sink.zeros) + Tick(r == WriteFailed(true) || (data != [] && r == WriteReady(0)))
      ensures sink.errors == old(sink.errors) + Tick(r == WriteFailed(false))
      ensures sink.flushes == old(sink.flushes)
      ensures old(writeBuffer) == [] ==> writeBuffer == []
    {
      var drained := PollWriteBuffer();
      match drained
      case Blocked => return WritePending;
      case Broken(fault) => return WriteFailed(fault == WriteZero);
      case Complete =>
        r := sink.PollWrite(data);
        if r.WriteReady? {
          submitted := submitted + data[..r.n];
        }
        assert sink.sent + [] == sink.sent;
    }
  }
}
