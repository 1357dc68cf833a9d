/** Framed messages over a substream: an incremental reader and a sink that counts the bytes
    it has not written. */
module Substream {
  import opened Io
  import opened Varint
  import opened Delimited

  const BACKPRESSURE_BOUNDARY: nat := 65536
  const FIRST_BUFFER: nat := 1024

  datatype Codec = Identity(payloadSize: nat) | UnsignedVarint(maxSize: Option<nat>)

  /** The frames a varint codec accepts. */
  function RuleOf(maxSize: Option<nat>): Rule {
    Rule(USIZE_BYTES, if maxSize.Some? && maxSize.value < USIZE_BOUND then maxSize.value else USIZE_BOUND - 1)
  }

  // ----- Reading a length --------------------------------------------------------------

  datatype Size = Size(value: nat, used: nat) | NotEnoughBytes | TooMany | DecodeError

  /** `read_payload_size`: look for the last byte of the length, then decode up to it. */
  method ReadPayloadSize(buffer: bytes) returns (r: Size)
    ensures match DecodeUsize(buffer)
      case Decoded(value, used) => r == Size(value, used)
      case Insufficient => r == NotEnoughBytes
      case _ =>
        r == if |buffer| >= USIZE_BYTES && forall k :: 0 <= k < USIZE_BYTES ==> buffer[k] >= 128 then TooMany
             else DecodeError
  {
    var bound := if |buffer| < USIZE_BYTES then |buffer| else USIZE_BYTES;
    for i := 0 to bound
      invariant forall k :: 0 <= k < i ==> buffer[k] >= 128
    {
      if buffer[i] < 128 {
        LengthEndsAt(buffer, i, USIZE_BYTES, true);
        var d := DecodeUsize(buffer[..i + 1]);
        return if d.Decoded? then Size(d.value, i + 1) else DecodeError;
      }
    }
    NoLengthEnd(buffer, USIZE_BYTES, true);
    return if |buffer| < USIZE_BYTES then NotEnoughBytes else TooMany;
  }

  /** Decoding looks no further than the last byte of the length. */
  lemma {:induction false} LengthEndsAt(s: bytes, i: nat, limit: nat, first: bool)
    requires i < |s| && i < limit && s[i] < 128 && forall k :: 0 <= k < i ==> s[k] >= 128
    ensures DecodeFrom(s, limit, first) == DecodeFrom(s[..i + 1], limit, first)
    ensures DecodeFrom(s, limit, first).Decoded? ==> DecodeFrom(s, limit, first).used == i + 1
    ensures !DecodeFrom(s, limit, first).Insufficient?
    decreases i
  {
    if i > 0 {
      LengthEndsAt(s[1..], i - 1, limit - 1, false);
      assert s[..i + 1][1..] == s[1..][..i];
    }
  }

  lemma {:induction false} NoLengthEnd(s: bytes, limit: nat, first: bool)
    requires 0 < limit && forall k :: 0 <= k < |s| && k < limit ==> s[k] >= 128
    ensures DecodeFrom(s, limit, first) == if |s| < limit then Insufficient else Overflow
    decreases |s|
  {
    if s != [] && limit > 1 {
      NoLengthEnd(s[1..], limit - 1, false);
    }
  }

  // ----- Frames without a length -------------------------------------------------------

  function Concat(items: seq<bytes>): bytes {
    if items == [] then [] else Concat(items[..|items| - 1]) + items[|items| - 1]
  }

  lemma ConcatSnoc(items: seq<bytes>, item: bytes)
    ensures Concat(items + [item]) == Concat(items) + item
  {
    assert (items + [item])[..|items|] == items;
  }

  lemma {:induction false} ConcatHead(items: seq<bytes>)
    requires items != []
    ensures Concat(items) == items[0] + Concat(items[1..])
  {
    var k := |items| - 1;
    if k > 0 {
      ConcatHead(items[..k]);
      assert items[..k][1..] == items[1..][..k - 1];
      Assoc(items[0], Concat(items[1..][..k - 1]), items[k]);
    } else {
      assert items[..0] == [] && items[1..] == [];
    }
  }

  /** The bytes of a run of items under a codec. */
  function Bytes(codec: Codec, items: seq<bytes>): bytes {
    if codec.Identity? then Concat(items) else Wire(items)
  }

  function Encoded(codec: Codec, item: bytes): bytes {
    if codec.Identity? then item else Frame(item)
  }

  lemma BytesSnoc(codec: Codec, items: seq<bytes>, item: bytes)
    ensures Bytes(codec, items + [item]) == Bytes(codec, items) + Encoded(codec, item)
  {
    ConcatSnoc(items, item);
    WireSnoc(items, item);
  }

  // ----- The sink ----------------------------------------------------------------------

  /** `Failed(true)` means that the stream took nothing, `Failed(false)` that it reported an error. */
  datatype Outcome = Blocked | Done | Failed(zero: bool)

  class Writer {
    const codec: Codec
    const sink: Sink
    var pendingOutFrames: seq<bytes>
    var pendingOutBytes: nat
    var pendingOutFrame: Option<bytes>
    /** The items accepted so far, and how many bytes were in hand when an error was reported. */
    ghost var items: seq<bytes>
    ghost var lost: nat

    /** What is still to be written. */
    ghost function Queued(): bytes
      reads this`pendingOutFrame, this`pendingOutFrames
    {
      (if pendingOutFrame.Some? then pendingOutFrame.value else []) + Concat(pendingOutFrames)
    }

    /** The byte count is exactly what has not been written, lost bytes included. As long as none is
        lost, what was written and what is queued are together the framing of all accepted items. */
    ghost predicate Intact()
      reads this, sink`sent
    {
      && pendingOutBytes == |Queued()| + lost
      && |sink.sent| + pendingOutBytes == |Bytes(codec, items)|
      && (lost == 0 ==> sink.sent + Queued() == Bytes(codec, items))
      && AllAccepted()
    }

    ghost predicate Valid()
      reads this, sink`sent
    {
      forall i {:trigger Looked(i)} :: i == 0 && Looked(i) ==> Intact()
    }

    lemma Open()
      requires Valid()
      ensures Intact()
    {
      assert Looked(0);
    }

    ghost predicate AllAccepted()
      reads this`items
    {
      forall i :: 0 <= i < |items| ==> Accepts(items[i]) && |items[i]| < USIZE_BOUND
    }

    /** What was written begins the framing of the accepted items. */
    ghost predicate Honest()
      reads this`items, sink`sent
    {
      forall i {:trigger Looked(i)} :: i == 0 && Looked(i) ==> AllAccepted() && sink.sent <= Bytes(codec, items)
    }

    lemma IsHonest()
      requires Valid() && lost == 0
      ensures Honest()
    {
      Open();
      assert sink.sent <= sink.sent + Queued();
    }

    lemma OpenHonest()
      requires Honest()
      ensures AllAccepted() && sink.sent <= Bytes(codec, items)
    {
      assert Looked(0);
    }

    constructor (codec: Codec, sink: Sink)
      requires sink.sent == []
      ensures Valid() && items == [] && lost == 0 && this.codec == codec && this.sink == sink && pendingOutBytes == 0
    {
      this.codec := codec;
      this.sink := sink;
      pendingOutFrames, pendingOutBytes, pendingOutFrame := [], 0, None;
      items, lost := [], 0;
    }

    ghost predicate Accepts(item: bytes)
    {
      match codec
      case Identity(size) => |item| == size
      case UnsignedVarint(max) => max.Some? ==> |item| <= max.value
    }

    /** Queue one chunk of bytes. */
    method Enqueue(chunk: bytes)
      modifies this`pendingOutFrames, this`pendingOutBytes
      ensures Queued() == old(Queued()) + chunk && pendingOutBytes == old(pendingOutBytes) + |chunk|
    {
      ConcatSnoc(pendingOutFrames, chunk);
      Assoc(if pendingOutFrame.Some? then pendingOutFrame.value else [], Concat(pendingOutFrames), chunk);
      pendingOutBytes := pendingOutBytes + |chunk|;
      pendingOutFrames := pendingOutFrames + [chunk];
    }

    /** Queue an item, behind its length if the codec has one. */
    method EnqueueItem(item: bytes)
      modifies this`pendingOutFrames, this`pendingOutBytes
      ensures Queued() == old(Queued()) + Encoded(codec, item)
      ensures pendingOutBytes == old(pendingOutBytes) + |Encoded(codec, item)|
    {
      if codec.Identity? {
        Enqueue(item);
      } else {
        ghost var before := Queued();
        Enqueue(Encode(|item|));
        Enqueue(item);
        Assoc(before, Encode(|item|), item);
      }
    }

    /** `start_send`. The length of a buffer is a `usize`. */
    method StartSend(item: bytes) returns (ok: bool)
      requires Valid() && |item| < USIZE_BOUND
      modifies this`pendingOutFrames, this`pendingOutBytes, this`items
      ensures Valid() && (ok <==> Accepts(item))
      ensures items == if ok then old(items) + [item] else old(items)
      ensures pendingOutBytes == old(pendingOutBytes) + if ok then |Encoded(codec, item)| else 0
      ensures Queued() == if ok then old(Queued()) + Encoded(codec, item) else old(Queued())
    {
      ok := match codec
        case Identity(size) => |item| == size
        case UnsignedVarint(max) => max.None? || |item| <= max.value;
      if !ok {
        return;
      }
      Open();
      ghost var before := Queued();
      EnqueueItem(item);
      items := items + [item];
      ItemIsQueued(before, old(items), item);
    }

    lemma ItemIsQueued(before: bytes, was: seq<bytes>, item: bytes)
      requires items == was + [item] && Queued() == before + Encoded(codec, item)
      requires pendingOutBytes == |Queued()| + lost && |sink.sent| + |before| + lost == |Bytes(codec, was)|
      requires lost == 0 ==> sink.sent + before == Bytes(codec, was)
      requires AllAccepted()
      ensures Intact()
    {
      BytesSnoc(codec, was, item);
      Assoc(sink.sent, before, Encoded(codec, item));
    }

    /** Write some of the frame in hand. An error drops it, and its bytes stay counted. */
    method WriteFrame(frame: bytes) returns (r: Option<Outcome>)
      requires frame != [] && pendingOutFrame.None? && |frame| <= pendingOutBytes
      modifies this`pendingOutFrame, this`pendingOutBytes, this`lost, sink
      ensures r.None? ==> |sink.tape| < old(|sink.tape|)
      ensures r == Some(Failed(false)) ==> sink.failed || sink.stalled
      ensures r == Some(Failed(true)) ==> sink.stalled
      ensures sink.pendings == old(sink.pendings) + (if r == Some(Blocked) then 1 else 0)
      ensures sink.zeros + sink.errors == old(sink.zeros + sink.errors) + Tick(r.Some? && r.value.Failed?)
      ensures sink.faults == old(sink.faults) + Tick(r == Some(Failed(false)))
      ensures sink.flushes == old(sink.flushes)
      ensures r != Some(Done) && (old(sink.Fails()) ==> r == Some(Failed(false)))
      ensures pendingOutBytes + |sink.sent| == old(pendingOutBytes + |sink.sent|)
      ensures lost == old(lost) + (if r == Some(Failed(false)) then |frame| else 0)
      ensures if r == Some(Failed(false)) then sink.sent == old(sink.sent) && pendingOutFrame.None?
        else old(sink.sent) <= sink.sent && sink.sent + Queued() == old(sink.sent) + (frame + Concat(pendingOutFrames))
    {
      ghost var sent, rest := sink.sent, Concat(pendingOutFrames);
      var reply := sink.PollWrite(frame);
      match reply
      case WriteFailed(_) =>
        lost := lost + |frame|;
        return Some(Failed(false));
      case WritePending =>
        pendingOutFrame := Some(frame);
        return Some(Blocked);
      case WriteReady(n) =>
        if n == 0 {
          assert sink.sent == sent;
          pendingOutFrame := Some(frame);
          return Some(Failed(true));
        }
        SplitFrame(sent, frame, n, rest);
        // The subtraction does not saturate.
        pendingOutBytes := pendingOutBytes - n;
        if frame[n..] != [] {
          pendingOutFrame := Some(frame[n..]);
        }
        return None;
    }

    /** The next frame to write: the one in hand, else the first queued. */
    method TakeFrame() returns (frame: Option<bytes>)
      modifies this`pendingOutFrame, this`pendingOutFrames
      ensures pendingOutFrame.None?
      ensures frame.None? ==> pendingOutFrames == [] && old(Queued()) == Queued() == []
      ensures frame.Some? ==> frame.value + Concat(pendingOutFrames) == old(Queued())
      ensures frame.Some? ==> |pendingOutFrames| < old(|pendingOutFrames| + if pendingOutFrame.Some? then 1 else 0)
    {
      if pendingOutFrame.Some? {
        frame := pendingOutFrame;
        pendingOutFrame := None;
        return;
      }
      if pendingOutFrames == [] {
        return None;
      }
      ConcatHead(pendingOutFrames);
      assert [] + Concat(pendingOutFrames) == Concat(pendingOutFrames);
      frame := Some(pendingOutFrames[0]);
      pendingOutFrames := pendingOutFrames[1..];
    }

    /** Write the next frame, or some of it. `None` means that nothing is left. */
    method WriteNext() returns (more: bool, r: Option<Outcome>)
      requires Intact()
      modifies this`pendingOutFrame, this`pendingOutFrames, this`pendingOutBytes, this`lost, sink
      ensures Intact() && (!more ==> Queued() == [] && unchanged(sink) && lost == old(lost) && r.None?)
      ensures more && r.None? ==>
        |sink.tape| < old(|sink.tape|) || (sink.tape == old(sink.tape) && Frames() < old(Frames()))
      ensures r == Some(Failed(false)) ==> sink.failed || sink.stalled
      ensures r == Some(Failed(true)) ==> sink.stalled
      ensures sink.pendings == old(sink.pendings) + (if r == Some(Blocked) then 1 else 0)
      ensures sink.zeros + sink.errors == old(sink.zeros + sink.errors) + Tick(r.Some? && r.value.Failed?)
      ensures sink.faults == old(sink.faults) + Tick(r == Some(Failed(false)))
      ensures sink.flushes == old(sink.flushes)
      ensures r != Some(Done) && old(lost) <= lost && (old(lost) < lost <==> r == Some(Failed(false)))
      ensures old(sink.sent) <= sink.sent <= old(sink.sent + Queued())
      ensures lost == old(lost) ==> sink.sent + Queued() == old(sink.sent + Queued())
      ensures old(sink.Fails() && Queued() != []) ==>
        r == Some(Failed(false)) || (more && r.None? && sink.Fails() && Queued() != [])
    {
      ghost var sent := sink.sent;
      var frame := TakeFrame();
      if frame.None? {
        return false, None;
      }
      more := true;
      if frame.value == [] {
        assert frame.value + Concat(pendingOutFrames) == Queued();
        return true, None;
      }
      r := WriteFrame(frame.value);
    }

    ghost function Frames(): nat
      reads this`pendingOutFrame, this`pendingOutFrames
    {
      |pendingOutFrames| + if pendingOutFrame.Some? then 1 else 0
    }

    /** Write all frames, then flush the inner stream. */
    method FlushFrames() returns (r: Outcome)
      requires Intact()
      modifies this`pendingOutFrame, this`pendingOutFrames, this`pendingOutBytes, this`lost, sink
      ensures Intact() && (r.Done? ==> Queued() == [])
      ensures r == Failed(false) ==> sink.failed || sink.stalled
      ensures r == Failed(true) ==> sink.stalled
      ensures sink.pendings == old(sink.pendings) + (if r.Blocked? then 1 else 0)
      ensures sink.zeros + sink.errors == old(sink.zeros + sink.errors) + Tick(r.Failed?)
      ensures sink.faults == old(sink.faults) + Tick(r == Failed(false))
      ensures sink.flushes == old(sink.flushes) + Tick(r.Done?)
      ensures old(lost) <= lost && (old(lost) < lost ==> r == Failed(false))
      ensures old(sink.sent) <= sink.sent <= old(sink.sent + Queued())
      ensures old(sink.Fails() && Queued() != []) ==> old(lost) < lost
    {
      while true
        invariant Intact() && sink.pendings == old(sink.pendings) && lost == old(lost)
        invariant sink.zeros + sink.errors == old(sink.zeros + sink.errors) && sink.flushes == old(sink.flushes)
        invariant sink.faults == old(sink.faults)
        invariant old(sink.sent) <= sink.sent && sink.sent + Queued() == old(sink.sent + Queued())
        invariant old(sink.Fails() && Queued() != []) ==> sink.Fails() && Queued() != []
        decreases |sink.tape|, Frames()
      {
        var more, step := WriteNext();
        if !more {
          break;
        }
        if step.Some? {
          return step.value;
        }
      }
      assert sink.sent + [] == sink.sent;
      var reply := sink.PollFlush();
      return match reply case WritePending => Blocked case WriteFailed(_) => Failed(false) case WriteReady(_) => Done;
    }

    /** `poll_flush`: success means that every accepted item is on the wire if and only if no frame
        has been lost to an error. */
    method PollFlush() returns (r: Outcome)
      requires Valid()
      modifies this`pendingOutFrame, this`pendingOutFrames, this`pendingOutBytes, this`lost, sink
      ensures Valid() && (old(lost) == 0 ==> Honest())
      ensures r.Done? ==> pendingOutBytes == lost && Queued() == [] && (sink.sent == Bytes(codec, items) <==> lost == 0)
      ensures r == Failed(false) ==> sink.failed || sink.stalled
      ensures r == Failed(true) ==> sink.stalled
      ensures sink.pendings == old(sink.pendings) + (if r.Blocked? then 1 else 0)
      ensures sink.zeros + sink.errors == old(sink.zeros + sink.errors) + Tick(r.Failed?)
      ensures sink.faults == old(sink.faults) + Tick(r == Failed(false))
      ensures sink.flushes == old(sink.flushes) + Tick(r.Done?)
      ensures old(lost) <= lost && (old(lost) < lost ==> r == Failed(false))
      ensures old(sink.sent) <= sink.sent
      ensures old(sink.Fails() && Queued() != []) ==> old(lost) < lost
    {
      Open();
      r := FlushFrames();
      assert sink.sent + [] == sink.sent;
    }

    /** `poll_ready`: success leaves fewer bytes queued than the boundary. */
    method PollReady() returns (r: Outcome)
      requires Valid()
      modifies this`pendingOutFrame, this`pendingOutFrames, this`pendingOutBytes, this`lost, sink
      ensures Valid() && (old(lost) == 0 ==> Honest()) && (r.Done? ==> |Queued()| < BACKPRESSURE_BOUNDARY)
      ensures old(pendingOutBytes) < BACKPRESSURE_BOUNDARY ==>
        r.Done? && sink.flushes == old(sink.flushes) && Queued() == old(Queued())
      ensures old(pendingOutBytes) >= BACKPRESSURE_BOUNDARY ==> sink.flushes == old(sink.flushes) + Tick(r.Done?)
      ensures r.Failed? ==> sink.stalled || (!r.zero && sink.failed)
      ensures sink.pendings == old(sink.pendings) + (if r.Blocked? then 1 else 0)
      ensures sink.zeros + sink.errors == old(sink.zeros + sink.errors) + Tick(r.Failed?)
      ensures sink.faults == old(sink.faults) + Tick(r == Failed(false))
      ensures old(lost) <= lost && (old(lost) < lost ==> r == Failed(false))
      ensures old(sink.sent) <= sink.sent
    {
      Open();
      if pendingOutBytes >= BACKPRESSURE_BOUNDARY {
        r := PollFlush();
        return;
      }
      if lost == 0 {
        IsHonest();
      }
      return Done;
    }

    /** Sending as a sink is used, ready first: the queue stays below the boundary and one item. */
    method Send(item: bytes) returns (r: Outcome, ok: bool)
      requires Valid() && |item| < USIZE_BOUND
      modifies this, sink
      ensures Valid() && (old(lost) == 0 ==> Honest()) && (ok <==> r.Done? && Accepts(item))
      ensures items == if ok then old(items) + [item] else old(items)
      ensures r.Done? ==> |Queued()| < BACKPRESSURE_BOUNDARY + if ok then |Encoded(codec, item)| else 0
      ensures r.Failed? ==> sink.stalled || (!r.zero && sink.failed)
      ensures sink.pendings == old(sink.pendings) + Tick(r.Blocked?)
      ensures sink.zeros + sink.errors == old(sink.zeros + sink.errors) + Tick(r.Failed?)
      ensures sink.faults == old(sink.faults) + Tick(r == Failed(false))
      ensures old(lost) <= lost && (old(lost) < lost ==> r == Failed(false))
      ensures old(sink.sent) <= sink.sent
    {
      ok := false;
      r := PollReady();
      if r.Done? {
        ok := StartSend(item);
        if lost == 0 {
          IsHonest();
        }
      }
    }
  }

  /** A frame is lost: the stream reports an error on the first write, and from then on no successful
      flush means that all items are written. */
  method FrameIsLost() returns (w: Writer)
    ensures w.Valid() && w.items == [[0]] && 0 < w.lost
  {
    var sink := new Sink([WriteFailed(false)]);
    w := new Writer(UnsignedVarint(None), sink);
    var ok := w.StartSend([0]);
    assert |Encoded(w.codec, [0])| > 0 && w.Queued() != [];
    var r := w.PollFlush();
  }

  /** `write_all`: write until everything is taken; `false` if the stream fails, takes nothing, or
      never becomes ready again. */
  method WriteAll(sink: Sink, data: bytes) returns (ok: bool)
    modifies sink
    ensures ok ==> sink.sent == old(sink.sent) + data
    ensures old(sink.sent) <= sink.sent <= old(sink.sent) + data
    ensures if ok then sink.zeros + sink.errors == old(sink.zeros + sink.errors)
      else sink.zeros + sink.errors == old(sink.zeros + sink.errors) + 1 || sink.tape == []
    ensures sink.flushes == old(sink.flushes)
  {
    var at: nat := 0;
    while at < |data|
      invariant at <= |data| && sink.sent == old(sink.sent) + data[..at]
      invariant sink.zeros + sink.errors == old(sink.zeros + sink.errors) && sink.flushes == old(sink.flushes)
      decreases |sink.tape|, |data| - at
    {
      if sink.tape == [] {
        return false;
      }
      ghost var sent := sink.sent;
      var reply := sink.PollWrite(data[at..]);
      if reply.WriteFailed? || (reply.WriteReady? && reply.n == 0) {
        return false;
      }
      if reply.WriteReady? {
        assert data[..at] + data[at..][..reply.n] == data[..at + reply.n];
        Assoc(old(sink.sent), data[..at], data[at..][..reply.n]);
        at := at + reply.n;
      }
    }
    assert data[..at] == data;
    return true;
  }

  /** `flush`: poll until the stream is flushed. */
  method FlushAll(sink: Sink) returns (ok: bool)
    modifies sink
    ensures sink.sent == old(sink.sent) && (old(sink.stalled) ==> sink.stalled)
    ensures sink.flushes == old(sink.flushes) + Tick(ok)
    ensures if ok then sink.zeros + sink.errors == old(sink.zeros + sink.errors)
      else sink.zeros + sink.errors == old(sink.zeros + sink.errors) + 1 || sink.tape == []
  {
    while sink.tape != []
      invariant sink.sent == old(sink.sent) && (old(sink.stalled) ==> sink.stalled)
      invariant sink.zeros + sink.errors == old(sink.zeros + sink.errors) && sink.flushes == old(sink.flushes)
      decreases |sink.tape|
    {
      var reply := sink.PollFlush();
      if !reply.WritePending? {
        return reply.WriteReady?;
      }
    }
    return false;
  }

  /** `send_unsigned_varint_payload`: the bytes on the wire are those of the sink. */
  method SendFramed(sink: Sink, item: bytes, maxSize: Option<nat>) returns (ok: bool)
    modifies sink
    ensures ok ==> sink.sent == old(sink.sent) + Encoded(UnsignedVarint(maxSize), item)
    ensures old(sink.sent) <= sink.sent <= old(sink.sent) + Encoded(UnsignedVarint(maxSize), item)
    ensures maxSize.Some? && |item| > maxSize.value ==> !ok && sink.sent == old(sink.sent)
    ensures !ok ==>
      || (maxSize.Some? && |item| > maxSize.value)
      || sink.zeros + sink.errors == old(sink.zeros + sink.errors) + 1 || sink.tape == []
    ensures ok ==> sink.flushes == old(sink.flushes) + 1 && sink.zeros + sink.errors == old(sink.zeros + sink.errors)
  {
    if maxSize.Some? && |item| > maxSize.value {
      return false;
    }
    ghost var sent := sink.sent;
    Assoc(sent, Encode(|item|), item);
    ok := WriteAll(sink, Encode(|item|));
    if ok {
      ok := WriteAll(sink, item);
    }
    if ok {
      ok := FlushAll(sink);
    }
  }

  // ----- The stream --------------------------------------------------------------------

  /** `Panics` stands for slicing the first read buffer beyond its end. */
  datatype Next = NotYet | End | Item(frame: bytes) | ReadFailure | Panics

  class Reader {
    const codec: Codec
    const source: Source
    var readBuffer: bytes
    var offset: nat
    var currentFrameSize: Option<nat>
    var sizeVec: bytes
    /** The items returned so far. */
    ghost var items: seq<bytes>

    ghost function Partial(): bytes
      reads this
    {
      match codec
      case Identity(_) => if offset <= |readBuffer| then readBuffer[..offset] else []
      case UnsignedVarint(_) =>
        if currentFrameSize.Some? then
          Encode(currentFrameSize.value) + (if offset <= |readBuffer| then readBuffer[..offset] else [])
        else if offset <= |sizeVec| then sizeVec[..offset] else []
    }

    ghost predicate Intact()
      reads this, source`received
    {
      && source.received == Bytes(codec, items) + Partial()
      && match codec
         case Identity(size) =>
           && |readBuffer| == (if items == [] then FIRST_BUFFER else size) && offset <= |readBuffer|
           && (offset < size || offset == 0) && (items != [] ==> 0 < size <= FIRST_BUFFER)
           && forall i :: 0 <= i < |items| ==> |items[i]| == size
         case UnsignedVarint(max) =>
           && AllLegal(RuleOf(max), items) && |sizeVec| == USIZE_BYTES
           && if currentFrameSize.Some? then
                && 0 < currentFrameSize.value <= RuleOf(max).max && |readBuffer| == currentFrameSize.value
                && offset < currentFrameSize.value && |Encode(currentFrameSize.value)| <= USIZE_BYTES
              else offset < USIZE_BYTES && forall k :: 0 <= k < offset ==> sizeVec[k] >= 128
    }

    ghost predicate Valid()
      reads this, source`received
    {
      forall i {:trigger Looked(i)} :: i == 0 && Looked(i) ==> Intact()
    }

    lemma Open()
      requires Valid()
      ensures Intact()
    {
      assert Looked(0);
    }

    constructor (codec: Codec, source: Source)
      requires source.received == []
      ensures Valid() && items == [] && this.codec == codec && this.source == source
    {
      this.codec := codec;
      this.source := source;
      readBuffer, offset, currentFrameSize := seq(FIRST_BUFFER, _ => 0), 0, None;
      sizeVec := seq(USIZE_BYTES, _ => 0);
      items := [];
    }

    /** Some more bytes of a frame whose size is known. */
    method TakeData(data: bytes) returns (r: Option<Next>)
      requires codec.UnsignedVarint? && currentFrameSize.Some? && 0 < |data|
      requires AllLegal(RuleOf(codec.maxSize), items) && |sizeVec| == USIZE_BYTES
      requires var size := currentFrameSize.value;
               && 0 < size <= RuleOf(codec.maxSize).max && |readBuffer| == size && |Encode(size)| <= USIZE_BYTES
               && offset + |data| <= size
      requires source.received == Wire(items) + Partial() + data
      modifies this`readBuffer, this`offset, this`currentFrameSize, this`items
      ensures Intact()
      ensures r.None? ==> items == old(items)
      ensures r.Some? ==> r.value.Item? && items == old(items) + [r.value.frame] && source.received == Wire(items)
    {
      var size := currentFrameSize.value;
      ghost var before := readBuffer[..offset];
      Assoc(Wire(items), Encode(size) + before, data);
      Assoc(Encode(size), before, data);
      readBuffer := readBuffer[..offset] + data + readBuffer[offset + |data|..];
      offset := offset + |data|;
      assert readBuffer[..offset] == before + data;
      if offset == size {
        var frame := readBuffer;
        assert readBuffer[..offset] == frame;
        WireSnoc(items, frame);
        items := items + [frame];
        readBuffer, offset, currentFrameSize := [], 0, None;
        assert Wire(items) + [] == Wire(items);
        return Some(Item(frame));
      }
      return None;
    }

    /** One more byte of a length. The buffer for it is never outgrown. */
    method TakeSizeByte(b: byte) returns (r: Option<Next>)
      requires codec.UnsignedVarint? && currentFrameSize.None? && AllLegal(RuleOf(codec.maxSize), items)
      requires |sizeVec| == USIZE_BYTES && offset < USIZE_BYTES && forall k :: 0 <= k < offset ==> sizeVec[k] >= 128
      requires source.received == Wire(items) + sizeVec[..offset] + [b]
      modifies this`readBuffer, this`offset, this`currentFrameSize, this`sizeVec, this`items
      ensures r.None? || r.value.Item? ==> Intact()
      ensures r.None? ==> items == old(items)
      ensures r.Some? && r.value.Item? ==> items == old(items) + [r.value.frame] && source.received == Wire(items)
      ensures r.Some? && !r.value.Item? ==>
        r.value == ReadFailure && items == old(items) && Stuck(RuleOf(codec.maxSize), items, source.received)
    {
      ghost var rule, was := RuleOf(codec.maxSize), sizeVec[..offset];
      sizeVec := sizeVec[offset := b];
      offset := offset + 1;
      var s := sizeVec[..offset];
      assert s == was + [b];
      Assoc(Wire(items), was, [b]);
      var size := SizeSoFar(codec.maxSize, s);
      if size.NotEnoughBytes? {
        return None;
      }
      if !size.Size? || (codec.maxSize.Some? && size.value > codec.maxSize.value) {
        GetsStuck(rule, items, s);
        return Some(ReadFailure);
      }
      assert size.used == offset;
      r := TakeSize(size.value);
    }

    /** The length is complete and the item not too long. */
    method TakeSize(value: nat) returns (r: Option<Next>)
      requires codec.UnsignedVarint? && currentFrameSize.None? && AllLegal(RuleOf(codec.maxSize), items)
      requires |sizeVec| == USIZE_BYTES && value <= RuleOf(codec.maxSize).max && |Encode(value)| <= USIZE_BYTES
      requires source.received == Wire(items) + Encode(value)
      modifies this`readBuffer, this`offset, this`currentFrameSize, this`items
      ensures Intact() && (r.Some? ==> r.value.Item?)
      ensures r.None? ==> items == old(items)
      ensures r.Some? ==> items == old(items) + [r.value.frame] && source.received == Wire(items)
    {
      if value == 0 {
        TakeEmpty(Encode(value));
        return Some(Item([]));
      }
      ghost var s := Encode(value);
      offset, currentFrameSize := 0, Some(value);
      readBuffer := seq(value, _ => 0);
      assert s + readBuffer[..0] == s;
      return None;
    }

    /** An empty item has no payload to read. */
    method TakeEmpty(ghost s: bytes)
      requires codec.UnsignedVarint? && currentFrameSize.None? && AllLegal(RuleOf(codec.maxSize), items)
      requires |sizeVec| == USIZE_BYTES && s == Encode(0) && source.received == Wire(items) + s
      modifies this`offset, this`items
      ensures Intact() && items == old(items) + [[]] && source.received == Wire(items)
    {
      offset := 0;
      EmptyItem(RuleOf(codec.maxSize), items, s);
      items := items + [[]];
    }

    /** Some bytes of an item of fixed size. */
    method TakePart(data: bytes) returns (r: Option<Next>)
      requires codec.Identity? && Sized() && 0 < |data| && offset + |data| <= codec.payloadSize <= |readBuffer|
      requires |readBuffer| == if items == [] then FIRST_BUFFER else codec.payloadSize
      requires codec.payloadSize <= FIRST_BUFFER
      requires source.received == Concat(items) + readBuffer[..offset] + data
      modifies this`readBuffer, this`offset, this`items
      ensures Intact()
      ensures r.None? ==> items == old(items)
      ensures r.Some? ==> r.value.Item? && items == old(items) + [r.value.frame] && source.received == Concat(items)
    {
      ghost var before := readBuffer[..offset];
      Assoc(Concat(items), before, data);
      readBuffer := readBuffer[..offset] + data + readBuffer[offset + |data|..];
      offset := offset + |data|;
      assert readBuffer[..offset] == before + data;
      if offset == codec.payloadSize {
        var payload := readBuffer[..offset];
        ConcatSnoc(items, payload);
        items := items + [payload];
        readBuffer := seq(offset, _ => 0);
        offset := 0;
        assert Concat(items) + [] == Concat(items);
        IsIntact([]);
        return Some(Item(payload));
      }
      IsIntact(before + data);
      return None;
    }

    lemma IsIntact(partial: bytes)
      requires codec.Identity? && Sized() && offset <= |readBuffer| && partial == readBuffer[..offset]
      requires |readBuffer| == if items == [] then FIRST_BUFFER else codec.payloadSize
      requires (offset < codec.payloadSize || offset == 0) && (items != [] ==> 0 < codec.payloadSize <= FIRST_BUFFER)
      requires source.received == Concat(items) + partial
      ensures Intact()
    {
    }

    ghost predicate Sized()
      reads this
      requires codec.Identity?
    {
      forall i :: 0 <= i < |items| ==> |items[i]| == codec.payloadSize
    }

    /** The stream ends, or fails, exactly if the inner stream did; with a varint codec an error of it
        is an end, and items of size zero end the stream without it. */
    ghost predicate Ended(ends: nat, errors: nat, end: bool, failure: bool)
      reads source`ends, source`errors
    {
      if codec.Identity? then
        source.ends == ends + Tick(end && 0 < codec.payloadSize) && source.errors == errors + Tick(failure)
      else source.ends + source.errors == ends + errors + Tick(end)
    }

    /** One inner read of an item of fixed size. */
    method ReadSized() returns (r: Option<Next>)
      requires Intact() && codec.Identity?
      modifies this`readBuffer, this`offset, this`items, source
      ensures Leads(old(source.Now()), source.Now())
      ensures source.pendings == old(source.pendings) + (if r == Some(NotYet) then 1 else 0)
      ensures source.ends == old(source.ends) + Tick(r == Some(End) && 0 < codec.payloadSize)
      ensures source.errors == old(source.errors) + Tick(r == Some(ReadFailure))
      ensures Intact() && (r.None? ==> TapeSize(source.tape) < old(TapeSize(source.tape)))
      ensures if r.Some? && r.value.Item? then items == old(items) + [r.value.frame] && source.received == Concat(items)
        else items == old(items)
      ensures r == Some(End) ==> source.eof || codec == Identity(0)
      ensures r == Some(ReadFailure) ==> source.failed
      ensures r == Some(Panics) <==> codec.payloadSize > FIRST_BUFFER
      ensures codec == Identity(0) ==> r == Some(End)
    {
      if codec.payloadSize > |readBuffer| {
        LeadsSelf(source.Now());
        return Some(Panics);
      }
      var reply := source.PollRead(codec.payloadSize - offset);
      match reply
      case ReadPending => return Some(NotYet);
      case ReadFailed => return Some(ReadFailure);
      case ReadReady(data) =>
        if data == [] {
          return Some(End);
        }
        r := TakePart(data);
    }

    /** One inner read of a length or of a payload. */
    method ReadFramed() returns (r: Option<Next>)
      requires Intact() && codec.UnsignedVarint?
      modifies this, source
      ensures Leads(old(source.Now()), source.Now())
      ensures source.pendings == old(source.pendings) + (if r == Some(NotYet) then 1 else 0)
      ensures source.ends + source.errors == old(source.ends + source.errors) + Tick(r == Some(End))
      ensures r.None? ==> source.ends == old(source.ends) && source.errors == old(source.errors)
      ensures r.None? ==> TapeSize(source.tape) < old(TapeSize(source.tape))
      ensures if r.Some? && r.value.Item? then items == old(items) + [r.value.frame] && source.received == Wire(items)
        else items == old(items)
      ensures r == Some(End) ==> source.eof || source.failed
      ensures if r == Some(ReadFailure) then Stuck(RuleOf(codec.maxSize), items, source.received) else Intact()
      ensures r != Some(Panics)
    {
      var reply := source.PollRead(if currentFrameSize.Some? then currentFrameSize.value - offset else 1);
      match reply
      case ReadPending => return Some(NotYet);
      case ReadFailed => return Some(End);
      case ReadReady(data) =>
        if data == [] {
          return Some(End);
        }
        if currentFrameSize.Some? {
          r := TakeData(data);
        } else {
          assert data == [data[0]];
          r := TakeSizeByte(data[0]);
        }
    }

    /** One inner read, and what follows from it. */
    method ReadOnce() returns (r: Option<Next>)
      requires Valid()
      modifies this, source
      ensures Leads(old(source.Now()), source.Now())
      ensures source.pendings == old(source.pendings) + (if r == Some(NotYet) then 1 else 0)
      ensures Ended(old(source.ends), old(source.errors), r == Some(End), r == Some(ReadFailure))
      ensures r != Some(ReadFailure) ==> Valid()
      ensures r.None? ==> source.ends == old(source.ends) && source.errors == old(source.errors)
      ensures r.None? ==> items == old(items) && TapeSize(source.tape) < old(TapeSize(source.tape))
      ensures r.Some? ==> match r.value
        case Item(frame) => items == old(items) + [frame] && source.received == Bytes(codec, items)
        case NotYet => items == old(items)
        case End => items == old(items) && (source.eof || source.failed || codec == Identity(0))
        case ReadFailure =>
          && items == old(items)
          && if codec.Identity? then source.failed && Valid() else Stuck(RuleOf(codec.maxSize), items, source.received)
        case Panics => items == old(items)
      ensures r == Some(Panics) <==> codec.Identity? && codec.payloadSize > FIRST_BUFFER
      ensures codec == Identity(0) ==> r == Some(End)
    {
      Open();
      if codec.Identity? {
        r := ReadSized();
      } else {
        r := ReadFramed();
      }
    }

    /** `poll_next` */
    method PollNext() returns (r: Next)
      requires Valid()
      modifies this, source
      ensures Leads(old(source.Now()), source.Now())
      ensures source.pendings == old(source.pendings) + (if r.NotYet? then 1 else 0)
      ensures Ended(old(source.ends), old(source.errors), r.End?, r.ReadFailure?)
      ensures r != ReadFailure ==> Valid()
      ensures match r
        case Item(frame) => items == old(items) + [frame] && source.received == Bytes(codec, items)
        case NotYet => items == old(items)
        case End => items == old(items) && (source.eof || source.failed || codec == Identity(0))
        case ReadFailure =>
          && items == old(items)
          && if codec.Identity? then source.failed && Valid() else Stuck(RuleOf(codec.maxSize), items, source.received)
        case Panics => items == old(items)
      ensures r.Panics? <==> codec.Identity? && codec.payloadSize > FIRST_BUFFER
      ensures codec == Identity(0) ==> r.End?
    {
      LeadsSelf(source.Now());
      while true
        invariant Valid() && items == old(items)
        invariant Leads(old(source.Now()), source.Now()) && source.pendings == old(source.pendings)
        invariant source.ends == old(source.ends) && source.errors == old(source.errors)
        decreases TapeSize(source.tape)
      {
        ghost var before := source.Now();
        var step := ReadOnce();
        LeadsOn(old(source.Now()), before, source.Now());
        if step.Some? {
          return step.value;
        }
      }
    }
  }

  lemma EmptyItem(rule: Rule, items: seq<bytes>, s: bytes)
    requires s == Encode(0) && 0 < rule.limit && AllLegal(rule, items)
    ensures AllLegal(rule, items + [[]]) && Wire(items + [[]]) == Wire(items) + s
    ensures Wire(items + [[]]) + [] == Wire(items + [[]])
  {
    WireSnoc(items, []);
    assert Frame([]) == s;
  }

  /** A length of which the last byte has just arrived. */
  method SizeSoFar(maxSize: Option<nat>, s: bytes) returns (size: Size)
    requires 0 < |s| <= USIZE_BYTES && forall k :: 0 <= k < |s| - 1 ==> s[k] >= 128
    ensures size.NotEnoughBytes? ==> |s| < USIZE_BYTES && s[|s| - 1] >= 128
    ensures size.Size? ==> size.used == |s| && Encode(size.value) == s && size.value < USIZE_BOUND
    ensures !size.NotEnoughBytes? && (!size.Size? || size.value > RuleOf(maxSize).max) ==>
      Peel(RuleOf(maxSize), s) == Bad
  {
    SizeArrives(maxSize, s);
    size := ReadPayloadSize(s);
  }

  /** A length whose last byte has just arrived, or has not. */
  lemma SizeArrives(maxSize: Option<nat>, s: bytes)
    requires 0 < |s| <= USIZE_BYTES && forall k :: 0 <= k < |s| - 1 ==> s[k] >= 128
    ensures match DecodeUsize(s)
      case Decoded(value, used) =>
        && used == |s| && Encode(value) == s
        && (value > RuleOf(maxSize).max ==> Peel(RuleOf(maxSize), s) == Bad)
      case Insufficient => |s| < USIZE_BYTES && s[|s| - 1] >= 128
      case _ => Peel(RuleOf(maxSize), s) == Bad
  {
    var last := |s| - 1;
    if s[last] < 128 {
      LengthEndsAt(s, last, USIZE_BYTES, true);
      if Decode(s, USIZE_BYTES).Decoded? {
        EncodeDecode(s, USIZE_BYTES);
      }
    } else {
      NoLengthEnd(s, USIZE_BYTES, true);
    }
  }

  /** A sender takes exactly the items that the peer's stream does not reject. */
  lemma AcceptsWhatIsLegal(w: Writer, item: bytes)
    requires w.codec.UnsignedVarint? && |item| < USIZE_BOUND
    ensures w.Accepts(item) <==> Legal(RuleOf(w.codec.maxSize), item)
  {
    UsizeLength(|item|);
  }

  /** The smallest payload size at which the first read panics. */
  method OversizedPanics() returns (r: Next)
    ensures r.Panics?
  {
    var source := new Source([]);
    var reader := new Reader(Identity(FIRST_BUFFER + 1), source);
    r := reader.PollNext();
  }

  // ----- Round trips -------------------------------------------------------------------

  /** What the stream has returned is what the received bytes carry. */
  lemma ReturnsItems(r: Reader)
    requires r.Valid() && r.codec.UnsignedVarint?
    ensures Items(RuleOf(r.codec.maxSize), r.source.received) == r.items
    ensures !Malformed(RuleOf(r.codec.maxSize), r.source.received)
  {
    r.Open();
    var rule := RuleOf(r.codec.maxSize);
    ItemsOfWire(rule, r.items, r.Partial());
    if r.currentFrameSize.Some? {
      DecodeEncode(r.currentFrameSize.value, r.readBuffer[..r.offset], USIZE_BYTES);
    } else {
      NoLengthEnd(r.sizeVec[..r.offset], USIZE_BYTES, true);
    }
  }

  /** Of any part of what an honest writer has written the peer has nothing to reject. */
  lemma NothingToReject(w: Writer, received: bytes)
    requires w.Honest() && w.codec.UnsignedVarint? && received <= w.sink.sent
    ensures !Malformed(RuleOf(w.codec.maxSize), received) && Items(RuleOf(w.codec.maxSize), received) <= w.items
    ensures received == Wire(w.items) ==> Items(RuleOf(w.codec.maxSize), received) == w.items
  {
    w.OpenHonest();
    var rule := RuleOf(w.codec.maxSize);
    forall i | 0 <= i < |w.items|
      ensures Legal(rule, w.items[i])
    {
      assert w.Accepts(w.items[i]);
      UsizeLength(|w.items[i]|);
    }
    PrefixOfWire(rule, w.items, received);
  }

  /** So a reader that has received a part of it has not failed for that. */
  lemma NotRejected(w: Writer, received: bytes, items: seq<bytes>, r: Next)
    requires w.Honest() && w.codec.UnsignedVarint? && received <= w.sink.sent
    requires r.ReadFailure? ==> Stuck(RuleOf(w.codec.maxSize), items, received)
    ensures !r.ReadFailure?
  {
    assert Judged(0);
    NothingToReject(w, received);
  }

  /** Under any chunking the peer receives exactly the items that were sent, in order and
      empty ones included. */
  lemma RoundTrip(w: Writer, r: Reader)
    requires w.Valid() && w.Honest() && r.Valid() && w.codec == r.codec && w.codec.UnsignedVarint?
    requires r.source.received <= w.sink.sent
    ensures r.items <= w.items && !Malformed(RuleOf(r.codec.maxSize), r.source.received)
    ensures w.pendingOutBytes == 0 && r.source.received == w.sink.sent ==> r.items == w.items
  {
    w.Open();
    NothingToReject(w, r.source.received);
    ReturnsItems(r);
    if w.pendingOutBytes == 0 {
      assert w.sink.sent + [] == w.sink.sent;
    }
  }

  lemma {:induction false} SizedPrefix(a: seq<bytes>, b: seq<bytes>, size: nat, rest: bytes)
    requires 0 < size && |rest| < size && Concat(a) + rest <= Concat(b)
    requires (forall i :: 0 <= i < |a| ==> |a[i]| == size) && (forall i :: 0 <= i < |b| ==> |b[i]| == size)
    ensures a <= b && (Concat(a) + rest == Concat(b) ==> a == b)
    decreases |a|
  {
    if b == [] {
      if a != [] {
        ConcatHead(a);
      }
    } else if a != [] {
      ConcatHead(a);
      ConcatHead(b);
      var x, y := Concat(a[1..]) + rest, Concat(b[1..]);
      Assoc(a[0], Concat(a[1..]), rest);
      assert a[0] + x <= b[0] + y;
      assert a[0] == (a[0] + x)[..size] == (b[0] + y)[..size] == b[0];
      assert x == (a[0] + x)[size..] && y == (b[0] + y)[size..];
      SizedPrefix(a[1..], b[1..], size, rest);
    } else {
      ConcatHead(b);
    }
  }

  /** The same for items of a fixed size. Items of size zero do not arrive. */
  lemma IdentityRoundTrip(w: Writer, r: Reader)
    requires w.Valid() && w.Honest() && r.Valid() && w.codec == r.codec && w.codec.Identity?
    requires r.source.received <= w.sink.sent
    ensures r.items <= w.items
    ensures w.pendingOutBytes == 0 && r.source.received == w.sink.sent && 0 < w.codec.payloadSize ==> r.items == w.items
    ensures w.codec.payloadSize == 0 ==> r.items == []
  {
    w.Open();
    w.OpenHonest();
    r.Open();
    forall i | 0 <= i < |w.items|
      ensures |w.items[i]| == w.codec.payloadSize
    {
      assert w.Accepts(w.items[i]);
    }
    if 0 < w.codec.payloadSize {
      SizedPrefix(r.items, w.items, w.codec.payloadSize, r.readBuffer[..r.offset]);
    }
    if w.pendingOutBytes == 0 {
      assert w.sink.sent + [] == w.sink.sent;
    }
  }

  lemma SplitFrame(sent: bytes, frame: bytes, n: nat, rest: bytes)
    requires n <= |frame|
    ensures sent + frame[..n] + (frame[n..] + rest) == sent + (frame + rest)
  {
  }
}
