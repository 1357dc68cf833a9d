/** The writing half of `NoiseSocket`: an encrypting writer that packs frames into a
    bounded buffer and drains it into the inner stream. */
module NoiseWriter {
  import opened Io
  import opened NoiseFraming

  datatype WriteState = Idle | Writing(offset: nat, encryptedLen: nat)

  datatype Failure = WriteZero | InnerError | InvalidData

  datatype Outcome = Pending | Ready(n: nat) | Failed(error: Failure)

  /** Mentioned where the bytes of a framing matter. */
  predicate Covered(i: int) {
    true
  }

  /** These bytes are the framing of these chunks. */
  ghost predicate Covers(c: Cipher, chunks: seq<bytes>, wire: bytes) {
    forall i {:trigger Covered(i)} :: i == 0 && Covered(i) ==>
      Chunks(chunks) && Framable(Sealed(c, chunks)) && wire == Wire(Sealed(c, chunks))
  }

  class Writer {
    const cipher: Cipher
    const sink: Sink
    const encryptBuffer: array<byte>
    var nonce: nat
    var state: WriteState

    /** The plaintext chunks accepted so far, one per frame. */
    ghost var chunks: seq<bytes>

    ghost function Accepted(): bytes
      reads this
    {
      Concat(chunks)
    }

    ghost function Buffered(): bytes
      reads this, encryptBuffer
      requires state.Writing? ==> state.offset <= state.encryptedLen <= encryptBuffer.Length
    {
      if state.Idle? then [] else encryptBuffer[state.offset..state.encryptedLen]
    }

    /** What was sent and what is buffered are together the framing of all accepted plaintext. */
    ghost predicate Intact()
      reads this, sink`sent, encryptBuffer
    {
      && Sound(cipher)
      && MAX_NOISE_MSG_LEN + 2 <= encryptBuffer.Length
      && (state.Writing? ==> state.offset < state.encryptedLen <= encryptBuffer.Length)
      && nonce == |chunks| && Covers(cipher, chunks, sink.sent + Buffered())
    }

    ghost predicate Valid()
      reads this, sink`sent, encryptBuffer
    {
      forall i {:trigger Looked(i)} :: i == 0 && Looked(i) ==> Intact()
    }

    lemma Open()
      requires Valid()
      ensures Intact()
    {
      assert Looked(0);
    }

    constructor (cipher: Cipher, sink: Sink, maxWriteBufferSize: nat)
      requires Sound(cipher) && 1 <= maxWriteBufferSize && sink.sent == []
      ensures Valid() && Accepted() == [] && fresh(encryptBuffer)
      ensures this.cipher == cipher && this.sink == sink
    {
      this.cipher := cipher;
      this.sink := sink;
      encryptBuffer := new byte[maxWriteBufferSize * (MAX_NOISE_MSG_LEN + 2)];
      nonce := 0;
      state := Idle;
      chunks := [];
    }

    /** One inner write of what is buffered; `Ready(n)` is the number of bytes taken. */
    method DrainOnce() returns (r: Outcome)
      requires Intact() && state.Writing?
      modifies this`state, sink
      ensures Intact() && old(sink.sent) <= sink.sent
      ensures r.Ready? ==> |sink.tape| < old(|sink.tape|)
      ensures r.Pending? ==> state.Writing?
      ensures r.Failed? ==> (r.error == WriteZero && sink.stalled) || (r.error == InnerError && sink.failed)
      ensures sink.pendings == old(sink.pendings) + Tick(r.Pending?)
      ensures sink.zeros == old(sink.zeros) + Tick(r == Failed(WriteZero))
      ensures sink.errors == old(sink.errors) + Tick(r == Failed(InnerError))
      ensures sink.flushes == old(sink.flushes) && sink.closes == old(sink.closes)
    {
      var from, to := state.offset, state.encryptedLen;
      var data := encryptBuffer[from..to];
      ghost var sent := sink.sent;
      var reply := sink.PollWrite(data);
      if reply.WritePending? {
        return Pending;
      }
      if reply.WriteFailed? {
        return Failed(if reply.writeZero then WriteZero else InnerError);
      }
      var n := reply.n;
      state := if from + n == to then Idle else Writing(from + n, to);
      Drained(sent, data, from, n, to);
      return if n == 0 then Failed(WriteZero) else Ready(n);
    }

    /** Some of the buffered bytes have been sent. */
    lemma Drained(sent: bytes, data: bytes, from: nat, n: nat, to: nat)
      requires Sound(cipher) && MAX_NOISE_MSG_LEN + 2 <= encryptBuffer.Length && nonce == |chunks|
      requires from <= from + n <= to <= encryptBuffer.Length && data == encryptBuffer[from..to]
      requires state == if from + n == to then Idle else Writing(from + n, to)
      requires sink.sent == sent + data[..n] && Covers(cipher, chunks, sent + data)
      ensures Intact()
    {
      assert Buffered() == data[n..];
      SplitAt(sent, data, n);
    }

    /** Push the buffered frames into the inner stream until it blocks. `Ready` means the
        buffer is empty. */
    method Drain() returns (r: Outcome)
      requires Intact()
      modifies this`state, sink
      ensures Intact() && old(sink.sent) <= sink.sent
      ensures r.Ready? ==> state.Idle?
      ensures r.Pending? ==> state.Writing?
      ensures r.Failed? ==> (r.error == WriteZero && sink.stalled) || (r.error == InnerError && sink.failed)
      ensures sink.pendings == old(sink.pendings) + Tick(r.Pending?)
      ensures sink.zeros == old(sink.zeros) + Tick(r == Failed(WriteZero))
      ensures sink.errors == old(sink.errors) + Tick(r == Failed(InnerError))
      ensures sink.flushes == old(sink.flushes) && sink.closes == old(sink.closes)
    {
      while state.Writing?
        invariant Intact() && sink.pendings == old(sink.pendings) && old(sink.sent) <= sink.sent
        invariant sink.zeros == old(sink.zeros) && sink.errors == old(sink.errors)
        invariant sink.flushes == old(sink.flushes) && sink.closes == old(sink.closes)
        decreases |sink.tape|
      {
        r := DrainOnce();
        if !r.Ready? {
          return;
        }
      }
      return Ready(0);
    }

    /** What is on the wire is the framing of these chunks. */
    ghost predicate Sent(chunks: seq<bytes>)
      reads sink`sent
    {
      Framable(Sealed(cipher, chunks)) && sink.sent == Wire(Sealed(cipher, chunks))
    }

    lemma AllSent()
      requires Intact() && state.Idle?
      ensures Sent(chunks)
    {
      assert Covered(0) && sink.sent + [] == sink.sent;
    }

    /** Whether the first chunk of that much data fits behind the buffered frames. */
    ghost predicate Room(size: nat)
      reads this
    {
      var chunk := if size < MAX_FRAME_LEN then size else MAX_FRAME_LEN;
      (if state.Idle? then 0 else state.encryptedLen) + chunk + 2 + NOISE_EXTRA_ENCRYPT_SPACE <= encryptBuffer.Length
    }

    /** Where the unsent bytes start and where the next frame goes. */
    ghost function Start(): nat
      reads this
    {
      if state.Idle? then 0 else state.offset
    }

    /** Lay a frame down at `at`; what lies before it is untouched. */
    method PutFrame(at: nat, message: bytes)
      requires |message| <= 65535 && at + 2 + |message| <= encryptBuffer.Length
      modifies encryptBuffer
      ensures encryptBuffer[..at + 2 + |message|] == old(encryptBuffer[..at]) + Frame(message)
    {
      forall i | 0 <= i < |message| {
        encryptBuffer[at + 2 + i] := message[i];
      }
      encryptBuffer[at] := |message| / 256;
      encryptBuffer[at + 1] := |message| % 256;
      assert encryptBuffer[..at] == old(encryptBuffer[..at]);
      assert encryptBuffer[at..at + 2 + |message|] == Frame(message);
    }

    /** Everything between `Start()` and `end` is the unsent part of the framing. */
    ghost predicate Packed(end: nat)
      reads this, sink`sent, encryptBuffer
    {
      && Sound(cipher) && MAX_NOISE_MSG_LEN + 2 <= encryptBuffer.Length
      && Start() <= end <= encryptBuffer.Length
      && nonce == |chunks| && Covers(cipher, chunks, sink.sent + encryptBuffer[Start()..end])
    }

    /** Encrypt one chunk and append its frame. */
    method PackChunk(chunk: bytes, end: nat) returns (newEnd: nat)
      requires Packed(end) && 0 < |chunk| < MAX_FRAME_LEN
      requires end + |chunk| + 2 + NOISE_EXTRA_ENCRYPT_SPACE <= encryptBuffer.Length
      modifies this`nonce, this`chunks, encryptBuffer
      ensures Packed(newEnd) && end < newEnd && chunks == old(chunks) + [chunk]
    {
      ghost var start, front := Start(), encryptBuffer[..end];
      var message := cipher.seal(nonce, chunk);
      assert encryptBuffer[start..end] == front[start..];
      OneMore(cipher, chunks, chunk, sink.sent, front, start);
      PutFrame(end, message);
      newEnd := end + 2 + |message|;
      assert encryptBuffer[start..newEnd] == encryptBuffer[..newEnd][start..];
      nonce := nonce + 1;
      chunks := chunks + [chunk];
    }

    /** Encrypt as many chunks of `data` as fit; `false` means the cipher refused one. */
    method PackChunks(data: bytes, start: nat) returns (ok: bool, total: nat, end: nat)
      requires Packed(start) && 0 < |data|
      modifies this`nonce, this`chunks, encryptBuffer
      ensures Packed(end) && (end == start <==> total == 0)
      ensures total == 0 ==> unchanged(this) && unchanged(encryptBuffer)
      ensures total != 0 ==> start < end && total == |data| && chunks == old(chunks) + [data]
      ensures !ok ==> total == 0
      ensures total == 0 ==> var chunk := if |data| < MAX_FRAME_LEN then |data| else MAX_FRAME_LEN;
        ok <==> encryptBuffer.Length < start + chunk + 2 + NOISE_EXTRA_ENCRYPT_SPACE
      ensures if |data| < MAX_FRAME_LEN then ok else total == 0
    {
      ok, total, end := true, 0, start;
      while total < |data|
        invariant Packed(end) && total <= |data|
        invariant total == 0 ==> end == start && unchanged(this) && unchanged(encryptBuffer)
        invariant total != 0 ==> start < end && total == |data| < MAX_FRAME_LEN && chunks == old(chunks) + [data]
      {
        var chunk := if |data| - total < MAX_FRAME_LEN then data[total..] else data[total..total + MAX_FRAME_LEN];
        if end + |chunk| + 2 + NOISE_EXTRA_ENCRYPT_SPACE > encryptBuffer.Length {
          return;
        }
        if WriteMessage(cipher, nonce, chunk).None? {
          ok := false;
          return;
        }
        assert chunk == data;
        end := PackChunk(chunk, end);
        total := total + |chunk|;
      }
    }

    /** `poll_write`. A non-empty buffer is taken whole or not at all; one of
        `MAX_FRAME_LEN` bytes or more is never taken, because its first chunk seals to a
        message one byte above the cipher's limit. */
    method PollWrite(data: bytes) returns (r: Outcome)
      requires Valid()
      modifies this, sink, encryptBuffer
      ensures Valid() && old(sink.sent) <= sink.sent
      ensures r.Ready? ==> r.n == |data| < MAX_FRAME_LEN && Accepted() == old(Accepted()) + data
      ensures !r.Ready? ==> Accepted() == old(Accepted())
      ensures r.Pending? ==> 0 < |data| && !Room(|data|) && sink.pendings == old(sink.pendings) + 1
      ensures r == Failed(InvalidData) ==> MAX_FRAME_LEN <= |data| && Room(|data|)
      ensures r == Failed(InnerError) ==> sink.failed
      ensures r == Failed(WriteZero) ==> sink.stalled
      ensures sink.zeros == old(sink.zeros) + Tick(r == Failed(WriteZero))
      ensures sink.errors == old(sink.errors) + Tick(r == Failed(InnerError))
      ensures sink.flushes == old(sink.flushes) && sink.closes == old(sink.closes)
      ensures r.Ready? || r == Failed(InvalidData) ==> sink.pendings == old(sink.pendings) + 1 || Sent(old(chunks))
    {
      Open();
      // Step 1: drain. A blocked stream is no reason to stop.
      r := Drain();
      if r.Failed? {
        return;
      }
      assert r.Ready? ==> Sent(chunks) by {
        if r.Ready? {
          AllSent();
        }
      }
      // Step 2: encrypt and buffer the new data.
      if data == [] {
        assert old(Accepted()) + data == old(Accepted());
        return Ready(0);
      }
      var end: nat := if state.Idle? then 0 else state.encryptedLen;
      var ok, total, newEnd := PackChunks(data, end);
      if !ok {
        return Failed(InvalidData);
      }
      if total == 0 {
        return Pending;
      }
      // Step 3: the accepted bytes are buffered.
      assert (old(chunks) + [data])[..|old(chunks)|] == old(chunks);
      Commit(newEnd);
      return Ready(total);
    }

    /** What has been packed is to be written. */
    method Commit(end: nat)
      requires Packed(end) && Start() < end
      modifies this`state
      ensures Valid()
    {
      state := Writing(if state.Idle? then 0 else state.offset, end);
    }

    /** `poll_flush`: success means that every accepted byte is on the wire. */
    method PollFlush() returns (r: Outcome)
      requires Valid()
      modifies this`state, sink
      ensures Valid() && old(sink.sent) <= sink.sent
      ensures r.Ready? ==> state.Idle? && Sent(chunks)
      ensures sink.pendings == old(sink.pendings) + Tick(r.Pending?)
      ensures sink.zeros == old(sink.zeros) + Tick(r == Failed(WriteZero))
      ensures sink.errors == old(sink.errors) + Tick(r == Failed(InnerError))
      ensures sink.flushes == old(sink.flushes) + Tick(r.Ready?) && sink.closes == old(sink.closes)
      ensures r.Failed? ==> (r.error == WriteZero && sink.stalled) || (r.error == InnerError && sink.failed)
    {
      Open();
      r := Drain();
      if r.Ready? {
        AllSent();
        var reply := sink.PollFlush();
        match reply
        case WritePending => r := Pending;
        case WriteFailed(writeZero) => r := Failed(if writeZero then WriteZero else InnerError);
        case WriteReady(_) =>
      }
    }

    /** `poll_close`: flush, then close the inner stream. */
    method PollClose() returns (r: Outcome)
      requires Valid()
      modifies this`state, sink
      ensures Valid() && old(sink.sent) <= sink.sent
      ensures r.Ready? ==> Sent(chunks)
      ensures sink.pendings == old(sink.pendings) + Tick(r.Pending?)
      ensures sink.zeros == old(sink.zeros) + Tick(r == Failed(WriteZero))
      ensures sink.errors == old(sink.errors) + Tick(r == Failed(InnerError))
      ensures r.Ready? ==> sink.flushes == old(sink.flushes) + 1
      ensures sink.closes == old(sink.closes) + Tick(r.Ready?)
    {
      Open();
      r := PollFlush();
      if r.Ready? {
        var reply := sink.PollClose();
        match reply
        case WritePending => r := Pending;
        case WriteFailed(writeZero) => r := Failed(if writeZero then WriteZero else InnerError);
        case WriteReady(_) =>
      }
    }
  }

  /** The frame of one more chunk goes behind the others. */
  lemma OneMore(c: Cipher, chunks: seq<bytes>, chunk: bytes, sent: bytes, front: bytes, start: nat)
    requires Sound(c) && 0 < |chunk| < MAX_FRAME_LEN && start <= |front|
    requires Covers(c, chunks, sent + front[start..])
    ensures var message := c.seal(|chunks|, chunk);
            && |message| <= 65535
            && Covers(c, chunks + [chunk], sent + (front + Frame(message))[start..])
  {
    assert Covered(0);
    SealedSnoc(c, chunks, chunk);
    Behind(sent, front, Frame(c.seal(|chunks|, chunk)), start);
  }

  lemma Behind(sent: bytes, front: bytes, frame: bytes, start: nat)
    requires start <= |front|
    ensures sent + (front + frame)[start..] == (sent + front[start..]) + frame
  {
    assert (front + frame)[start..] == front[start..] + frame;
  }

  lemma SplitAt(sent: bytes, data: bytes, n: nat)
    requires n <= |data|
    ensures (sent + data[..n]) + data[n..] == sent + data
  {
  }
}
