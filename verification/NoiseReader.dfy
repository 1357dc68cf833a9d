/** The reading half of `NoiseSocket`: a read-ahead decryptor over one buffer whose tail is
    an auxiliary region for a frame that does not fit the canonical part. */
module NoiseReader {
  import opened Io
  import opened NoiseFraming

  datatype ReadState =
    | ReadData(maxRead: nat)
    | ReadFrameLen
    | ProcessNextFrame(pending: Option<bytes>, at: nat, size: nat, frameSize: nat)

  datatype Failure = UnexpectedEof | InnerError | InvalidData

  datatype Outcome = Pending | Ready(n: nat) | Failed(error: Failure)

  class Reader {
    const cipher: Cipher
    const source: Source
    const readBuffer: array<byte>
    const canonicalMaxRead: nat
    var nonce: nat
    var nread: nat
    var offset: nat
    var currentFrameSize: Option<nat>
    var state: ReadState
    var decryptBuffer: Option<bytes>

    /** The messages fully delivered so far and the plaintext handed to the caller. */
    ghost var frames: seq<bytes>
    ghost var delivered: bytes

    /** Bytes of the frame length already taken out of the buffer. */
    ghost function Header(): bytes
      reads this
    {
      if state.ProcessNextFrame? && state.pending.Some? then
        if state.frameSize <= 65535 then Prefix(state.frameSize) else []
      else if currentFrameSize.Some? && currentFrameSize.value <= 65535 then
        Prefix(currentFrameSize.value)
      else []
    }

    /** Buffer geometry: nothing is ever read or indexed outside the buffer. */
    ghost predicate InBounds()
      reads this
    {
      && MAX_NOISE_MSG_LEN <= canonicalMaxRead
      && readBuffer.Length == canonicalMaxRead + (2 + MAX_NOISE_MSG_LEN)
      && offset <= nread <= readBuffer.Length
      && (currentFrameSize.Some? ==> currentFrameSize.value <= 65535)
      && match state
         case ReadData(maxRead) =>
           && nread < maxRead <= readBuffer.Length
           && FitsAfterRead(maxRead)
           && (nread - offset < 2 || (currentFrameSize.Some? && nread - offset < currentFrameSize.value))
         case ReadFrameLen => FitsAfterRead(nread)
         case ProcessNextFrame(pending, at, size, frameSize) =>
           if pending.None? then
             && currentFrameSize.Some?
             && NOISE_EXTRA_ENCRYPT_SPACE < currentFrameSize.value
             && Holds(currentFrameSize.value)
           else
             && currentFrameSize.None?
             && NOISE_EXTRA_ENCRYPT_SPACE < frameSize <= 65535
             && Holds(frameSize)
    }

    /** A frame of that size lies in the buffer, and past the canonical part it is the last. */
    ghost predicate Holds(size: nat)
      reads this
    {
      && offset + size <= nread
      && (nread <= canonicalMaxRead || nread == offset + size)
    }

    /** The auxiliary region is only entered for the remainder of one known frame. */
    ghost predicate FitsAfterRead(upTo: nat)
      reads this
    {
      || upTo <= canonicalMaxRead
      || (currentFrameSize.Some? && offset <= canonicalMaxRead && upTo <= offset + currentFrameSize.value)
      || (currentFrameSize.None? && offset == upTo)
    }

    /** The bytes received are the delivered frames, then what the buffer still holds. */
    ghost predicate Conserves()
      reads this, source`received, readBuffer
      requires offset <= nread <= readBuffer.Length
    {
      && Good(cipher, frames)
      && source.received == Wire(frames) + (Header() + readBuffer[offset..nread])
    }

    /** The decryption of the frame in progress and how far it has been handed out. */
    ghost predicate Decrypts()
      reads this, readBuffer
      requires InBounds() && Good(cipher, frames)
    {
      if state.ProcessNextFrame? && state.pending.Some? then
        var buffer := state.pending.value;
        && decryptBuffer.None?
        && nonce == |frames| + 1
        && |buffer| == MAX_FRAME_LEN
        && state.at < state.size <= |buffer|
        && cipher.open(|frames|, readBuffer[offset..offset + state.frameSize]) == Some(buffer[..state.size])
        && delivered == Opened(cipher, frames) + buffer[..state.at]
      else
        && decryptBuffer.Some? && |decryptBuffer.value| == MAX_FRAME_LEN
        && nonce == |frames|
        && delivered == Opened(cipher, frames)
    }

    ghost predicate Intact()
      reads this, source`received, readBuffer
    {
      Sound(cipher) && InBounds() && Conserves() && Decrypts()
    }

    ghost predicate Valid()
      reads this, source`received, readBuffer
    {
      forall i {:trigger Looked(i)} :: i == 0 && Looked(i) ==> Intact()
    }

    lemma Open()
      requires Valid()
      ensures Intact()
    {
      assert Looked(0);
    }

    constructor (cipher: Cipher, source: Source, maxReadAheadFactor: nat)
      requires Sound(cipher) && 1 <= maxReadAheadFactor && source.received == []
      ensures Valid() && delivered == [] && fresh(readBuffer)
      ensures this.cipher == cipher && this.source == source
    {
      this.cipher := cipher;
      this.source := source;
      readBuffer := new byte[maxReadAheadFactor * MAX_NOISE_MSG_LEN + (2 + MAX_NOISE_MSG_LEN)];
      canonicalMaxRead := maxReadAheadFactor * MAX_NOISE_MSG_LEN;
      nonce, nread, offset := 0, 0, 0;
      currentFrameSize := None;
      decryptBuffer := Some(seq(MAX_FRAME_LEN, _ => 0));
      state := ReadData(maxReadAheadFactor * MAX_NOISE_MSG_LEN);
      frames, delivered := [], [];
    }

    /** Move an odd byte to the front and start over. */
    method ResetReadState(remaining: nat)
      requires Intact() && state == ReadFrameLen && remaining == nread - offset < 2
      modifies this`nread, this`offset, this`state, readBuffer
      ensures Intact() && state.ReadData?
    {
      ghost var rest := readBuffer[offset..nread];
      if remaining == 0 {
        nread := 0;
      } else {
        readBuffer[0] := readBuffer[nread - 1];
        nread := 1;
      }
      offset := 0;
      state := ReadData(canonicalMaxRead);
      assert readBuffer[offset..nread] == rest;
    }

    method Store(data: bytes)
      requires offset <= nread && nread + |data| <= readBuffer.Length
      modifies readBuffer
      ensures readBuffer[offset..nread + |data|] == old(readBuffer[offset..nread]) + data
    {
      forall i | 0 <= i < |data| {
        readBuffer[nread + i] := data[i];
      }
    }

    /** Put received bytes behind those already buffered. */
    method Append(data: bytes)
      requires 0 < |data| && Sound(cipher) && InBounds() && state.ReadData? && |data| <= state.maxRead - nread
      requires Good(cipher, frames) && Decrypts()
      requires source.received == Wire(frames) + (Header() + readBuffer[offset..nread]) + data
      modifies this`nread, this`state, readBuffer
      ensures Intact() && state == ReadFrameLen
    {
      ghost var before := readBuffer[offset..nread];
      Store(data);
      nread := nread + |data|;
      state := ReadFrameLen;
      Regroup(Wire(frames), Header(), before, data);
    }

    /** State `ReadData`: one inner read into the free part of the buffer. */
    method FillBuffer() returns (r: Option<Outcome>)
      requires Intact() && state.ReadData?
      modifies this`nread, this`state, source, readBuffer
      ensures Intact()
      ensures Leads(old(source.Now()), source.Now())
      ensures source.pendings == old(source.pendings) + (if r == Some(Pending) then 1 else 0)
      ensures source.ends == old(source.ends) + Tick(r == Some(Failed(UnexpectedEof)))
      ensures source.errors == old(source.errors) + Tick(r == Some(Failed(InnerError)))
      ensures r.None? ==> TapeSize(source.tape) < old(TapeSize(source.tape)) && state == ReadFrameLen
      ensures r.Some? ==> (
          || (r.value == Pending && state.ReadData? && delivered == Plaintext(cipher, 0, source.received))
          || (r.value == Failed(UnexpectedEof) && source.eof)
          || (r.value == Failed(InnerError) && source.failed))
    {
      var reply := source.PollRead(state.maxRead - nread);
      match reply
      case ReadPending =>
        WaitingMeansDrained();
        r := Some(Pending);
      case ReadFailed => r := Some(Failed(InnerError));
      case ReadReady(data) =>
        if data == [] {
          r := Some(Failed(UnexpectedEof));
        } else {
          Append(data);
          r := None;
        }
    }

    /** The size of the frame in progress, kept from before or read off the buffer now. */
    method TakeFrameSize() returns (frameSize: nat)
      requires Intact() && state == ReadFrameLen && 2 <= nread - offset
      modifies this`offset, this`currentFrameSize
      ensures Intact() && currentFrameSize == Some(frameSize)
    {
      if currentFrameSize.Some? {
        return currentFrameSize.value;
      }
      ghost var rest := readBuffer[offset..nread];
      SplitHeader(rest);
      frameSize := U16(readBuffer[offset], readBuffer[offset + 1]);
      offset := offset + 2;
      currentFrameSize := Some(frameSize);
      assert rest[2..] == readBuffer[offset..nread];
    }

    /** The bytes from the frame in progress onward form a whole frame of that size. */
    ghost predicate FrameAt(frameSize: nat)
      reads this, readBuffer
      requires offset + frameSize <= nread <= readBuffer.Length && frameSize <= 65535
    {
      Prefix(frameSize) + readBuffer[offset..nread]
      == Frame(readBuffer[offset..offset + frameSize]) + readBuffer[offset + frameSize..nread]
    }

    lemma FrameIsAt(frameSize: nat)
      requires offset + frameSize <= nread <= readBuffer.Length && frameSize <= 65535
      ensures FrameAt(frameSize)
    {
    }

    /** The received stream is malformed, and what it carries before the bad frame is delivered. */
    ghost predicate Rejects()
      reads this`delivered, source`received
    {
      Malformed(cipher, 0, source.received) && delivered == Plaintext(cipher, 0, source.received)
    }

    /** A buffered frame that cannot be opened makes the received stream malformed. */
    lemma BadFrame(frameSize: nat)
      requires offset + frameSize <= nread <= readBuffer.Length && frameSize <= 65535
      requires Conserves() && Header() == Prefix(frameSize)
      requires !Acceptable(cipher, |frames|, readBuffer[offset..offset + frameSize])
      ensures Malformed(cipher, 0, source.received) && Plaintext(cipher, 0, source.received) == Opened(cipher, frames)
    {
      FrameIsAt(frameSize);
      BadFrameIn(cipher, frames, readBuffer[offset..offset + frameSize], readBuffer[offset + frameSize..nread]);
    }

    /** State `ReadFrameLen`. */
    method ParseFrameLen() returns (r: Option<Outcome>)
      requires Intact() && state == ReadFrameLen
      modifies this`nread, this`offset, this`state, this`currentFrameSize, readBuffer
      ensures r.None? ==> Intact() && (state.ReadData? || (state.ProcessNextFrame? && state.pending.None?))
      ensures r.Some? ==> r == Some(Failed(InvalidData)) && Rejects()
    {
      // The checked subtraction cannot fail.
      assert offset <= nread;
      if nread - offset < 2 {
        ResetReadState(nread - offset);
        return None;
      }
      var frameSize := TakeFrameSize();
      var remaining := nread - offset;
      if remaining < frameSize {
        if nread + frameSize < canonicalMaxRead {
          state := ReadData(canonicalMaxRead);
        } else {
          state := ReadData(nread + frameSize - remaining);
        }
        return None;
      }
      if frameSize <= NOISE_EXTRA_ENCRYPT_SPACE {
        BadFrame(frameSize);
        return Some(Failed(InvalidData));
      }
      state := ProcessNextFrame(None, 0, 0, 0);
      return None;
    }

    /** The frame of that size at the front of the buffer, once `told` is delivered. */
    lemma FrameIsDone(frameSize: nat, m: bytes, told: bytes)
      requires Good(cipher, frames) && frameSize <= 65535 && offset + frameSize <= nread <= readBuffer.Length
      requires source.received == Wire(frames) + (Prefix(frameSize) + readBuffer[offset..nread])
      requires m == readBuffer[offset..offset + frameSize] && Acceptable(cipher, |frames|, m)
      requires told == Opened(cipher, frames) + cipher.open(|frames|, m).value
      ensures Settled(cipher, frames + [m], source.received, readBuffer[offset + frameSize..nread], told)
    {
      FrameIsAt(frameSize);
      FrameJoins(cipher, frames, m, readBuffer[offset + frameSize..nread]);
    }

    /** The frame of that size at the front of the buffer is done with. */
    method FinishFrame(frameSize: nat, ghost m: bytes)
      requires Sound(cipher) && currentFrameSize.None? && offset <= nread <= readBuffer.Length && Holds(frameSize)
      requires MAX_NOISE_MSG_LEN <= canonicalMaxRead
      requires readBuffer.Length == canonicalMaxRead + (2 + MAX_NOISE_MSG_LEN)
      requires Settled(cipher, frames + [m], source.received, readBuffer[offset + frameSize..nread], delivered)
      requires nonce == |frames| + 1 && decryptBuffer.Some? && |decryptBuffer.value| == MAX_FRAME_LEN
      modifies this`offset, this`state, this`frames
      ensures Intact() && state == ReadFrameLen
    {
      ghost var rest := readBuffer[offset + frameSize..nread];
      frames := frames + [m];
      offset := offset + frameSize;
      state := ReadFrameLen;
      BetweenFrames(rest);
    }

    /** A reader that has dealt with all frames up to the ones in its buffer. */
    lemma BetweenFrames(rest: bytes)
      requires Sound(cipher) && state == ReadFrameLen && currentFrameSize.None?
      requires MAX_NOISE_MSG_LEN <= canonicalMaxRead
      requires readBuffer.Length == canonicalMaxRead + (2 + MAX_NOISE_MSG_LEN)
      requires offset <= nread <= readBuffer.Length && (nread <= canonicalMaxRead || offset == nread)
      requires rest == readBuffer[offset..nread] && Settled(cipher, frames, source.received, rest, delivered)
      requires nonce == |frames| && decryptBuffer.Some? && |decryptBuffer.value| == MAX_FRAME_LEN
      ensures Intact()
    {
      assert Looked(0);
    }

    lemma RestIsLast() returns (m: bytes)
      requires Valid() && state.ProcessNextFrame? && state.pending.Some?
      ensures Sound(cipher) && currentFrameSize.None? && offset <= nread <= readBuffer.Length && Holds(state.frameSize)
      ensures MAX_NOISE_MSG_LEN <= canonicalMaxRead && readBuffer.Length == canonicalMaxRead + (2 + MAX_NOISE_MSG_LEN)
      ensures state.at <= state.size <= |state.pending.value| == MAX_FRAME_LEN && nonce == |frames| + 1
      ensures Settled(cipher, frames + [m], source.received, readBuffer[offset + state.frameSize..nread],
                      delivered + state.pending.value[state.at..state.size])
    {
      Open();
      var pending, at, size := state.pending.value, state.at, state.size;
      m := readBuffer[offset..offset + state.frameSize];
      Assoc(Opened(cipher, frames), pending[..at], pending[at..size]);
      assert pending[..at] + pending[at..size] == pending[..size];
      FrameIsDone(state.frameSize, m, delivered + pending[at..size]);
    }

    /** Hand out the rest of a decrypted frame. */
    method DeliverRest() returns (data: bytes)
      requires Valid() && state.ProcessNextFrame? && state.pending.Some?
      requires state.at <= state.size <= |state.pending.value|
      modifies this`state, this`decryptBuffer, this`offset, this`frames, this`delivered
      ensures Valid() && data == old(state.pending.value[state.at..state.size]) && delivered == old(delivered) + data
      ensures state == ReadFrameLen
    {
      ghost var m := RestIsLast();
      var pending, frameSize := state.pending.value, state.frameSize;
      data := pending[state.at..state.size];
      delivered := delivered + data;
      decryptBuffer := Some(pending);
      FinishFrame(frameSize, m);
    }

    /** Hand out only `n` more bytes of a decrypted frame. */
    method DeliverPart(n: nat) returns (data: bytes)
      requires Intact() && state.ProcessNextFrame? && state.pending.Some? && state.at + n < state.size
      modifies this`state, this`delivered
      ensures Valid() && |data| == n && delivered == old(delivered) + data
    {
      var pending, at := state.pending.value, state.at;
      data := pending[at..at + n];
      assert pending[..at] + data == pending[..at + n];
      Assoc(Opened(cipher, frames), pending[..at], data);
      delivered := delivered + data;
      state := ProcessNextFrame(Some(pending), at + n, state.size, state.frameSize);
    }

    /** State `ProcessNextFrame` with a decrypted frame that is only partly handed out. */
    method DeliverPending(out: array<byte>) returns (n: nat)
      requires Intact() && state.ProcessNextFrame? && state.pending.Some? && out != readBuffer
      modifies this`state, this`decryptBuffer, this`offset, this`frames, this`delivered, out
      ensures Valid() && n <= out.Length && (0 < out.Length ==> 0 < n)
      ensures delivered == old(delivered) + out[..n] && (n == out.Length || state == ReadFrameLen)
    {
      var data;
      if state.size - state.at <= out.Length {
        data := DeliverRest();
      } else {
        data := DeliverPart(out.Length);
      }
      Fill(out, data);
      n := |data|;
    }

    /** Decrypt the buffered frame; `None` means the cipher refused it. */
    method Decrypt() returns (plain: Option<bytes>)
      requires Intact() && state.ProcessNextFrame? && state.pending.None?
      ensures plain == cipher.open(nonce, readBuffer[offset..offset + currentFrameSize.value])
      ensures plain.None? ==> Rejects()
      ensures plain.Some? ==> 0 < |plain.value| == currentFrameSize.value - NOISE_EXTRA_ENCRYPT_SPACE
    {
      var frameSize := currentFrameSize.value;
      plain := cipher.open(nonce, readBuffer[offset..offset + frameSize]);
      if plain.None? {
        BadFrame(frameSize);
      }
    }

    /** The frame at the front of the buffer opens to `plain`. */
    ghost predicate Decrypted(plain: bytes)
      reads this, readBuffer
    {
      && currentFrameSize.Some? && offset + currentFrameSize.value <= nread <= readBuffer.Length
      && cipher.open(nonce, readBuffer[offset..offset + currentFrameSize.value]) == Some(plain)
    }

    /** The caller's buffer takes the whole plaintext of the frame. */
    method DeliverWhole(plain: bytes)
      requires Valid() && state.ProcessNextFrame? && state.pending.None? && Decrypted(plain)
      modifies this
      ensures Valid() && delivered == old(delivered) + plain && state == ReadFrameLen
    {
      ghost var m := WholeIsLast(plain);
      var frameSize := currentFrameSize.value;
      currentFrameSize := None;
      nonce := nonce + 1;
      delivered := delivered + plain;
      FinishFrame(frameSize, m);
    }

    lemma WholeIsLast(plain: bytes) returns (m: bytes)
      requires Valid() && state.ProcessNextFrame? && state.pending.None? && Decrypted(plain)
      ensures Sound(cipher) && Holds(currentFrameSize.value) && nonce == |frames|
      ensures MAX_NOISE_MSG_LEN <= canonicalMaxRead && readBuffer.Length == canonicalMaxRead + (2 + MAX_NOISE_MSG_LEN)
      ensures decryptBuffer.Some? && |decryptBuffer.value| == MAX_FRAME_LEN
      ensures Settled(cipher, frames + [m], source.received, readBuffer[offset + currentFrameSize.value..nread],
                      delivered + plain)
    {
      Open();
      m := readBuffer[offset..offset + currentFrameSize.value];
      assert Header() == Prefix(currentFrameSize.value);
      FrameIsDone(currentFrameSize.value, m, delivered + plain);
    }

    /** The caller's buffer takes only `n` bytes; the rest stays in the decryption buffer. */
    method KeepPending(plain: bytes, n: nat)
      requires Intact() && state.ProcessNextFrame? && state.pending.None? && n < |plain|
      requires cipher.open(nonce, readBuffer[offset..offset + currentFrameSize.value]) == Some(plain)
      modifies this
      ensures Valid() && delivered == old(delivered) + plain[..n]
    {
      // The decryption buffer is always there to be taken.
      var buffer := plain + decryptBuffer.value[|plain|..];
      assert buffer[..|plain|] == plain && buffer[..n] == plain[..n];
      var frameSize := currentFrameSize.value;
      decryptBuffer := None;
      currentFrameSize := None;
      nonce := nonce + 1;
      delivered := delivered + plain[..n];
      state := ProcessNextFrame(Some(buffer), n, |plain|, frameSize);
    }

    /** State `ProcessNextFrame` with a buffered frame to decrypt. */
    method DeliverFrame(out: array<byte>) returns (r: Outcome)
      requires Intact() && state.ProcessNextFrame? && state.pending.None? && out != readBuffer
      modifies this, out
      ensures r.Ready? ==> Valid() && r.n <= out.Length && (0 < out.Length ==> 0 < r.n)
      ensures r.Ready? ==> delivered == old(delivered) + out[..r.n]
      ensures r.Ready? ==> r.n == out.Length || state == ReadFrameLen
      ensures !r.Ready? ==> r == Failed(InvalidData) && Rejects() && delivered == old(delivered)
    {
      var plain := Decrypt();
      if plain.None? {
        return Failed(InvalidData);
      }
      // The frame size is always there to be taken.
      if currentFrameSize.value - NOISE_EXTRA_ENCRYPT_SPACE <= out.Length {
        DeliverWhole(plain.value);
        Fill(out, plain.value);
        return Ready(|plain.value|);
      }
      var part := plain.value[..out.Length];
      KeepPending(plain.value, out.Length);
      Fill(out, part);
      return Ready(|part|);
    }

    /** State `ProcessNextFrame`. */
    method Deliver(out: array<byte>) returns (r: Outcome)
      requires Intact() && state.ProcessNextFrame? && out != readBuffer
      modifies this, out
      ensures r.Ready? ==> Valid() && r.n <= out.Length && (0 < out.Length ==> 0 < r.n)
      ensures r.Ready? ==> delivered == old(delivered) + out[..r.n]
      ensures r.Ready? ==> r.n == out.Length || state == ReadFrameLen
      ensures !r.Ready? ==> r == Failed(InvalidData) && Rejects() && delivered == old(delivered)
    {
      if state.pending.Some? {
        var n := DeliverPending(out);
        return Ready(n);
      }
      r := DeliverFrame(out);
    }

    /** No whole frame is buffered while the reader waits for data. */
    lemma WaitingMeansDrained()
      requires Intact() && state.ReadData?
      ensures delivered == Plaintext(cipher, 0, source.received)
    {
      var rest := Header() + readBuffer[offset..nread];
      PlaintextOfWire(cipher, frames, rest);
      if Whole(rest) {
        assert currentFrameSize.Some?;
        assert rest[0] == Header()[0] && rest[1] == Header()[1];
        assert U16(rest[0], rest[1]) == currentFrameSize.value;
      }
    }

    /** In every state, what was delivered is a prefix of what the received stream means. */
    lemma DeliversPrefix()
      requires Valid()
      ensures delivered <= Plaintext(cipher, 0, source.received)
    {
      Open();
      PlaintextOfWire(cipher, frames, Header() + readBuffer[offset..nread]);
      if state.ProcessNextFrame? && state.pending.Some? {
        PartlyDelivered();
      }
    }

    lemma PartlyDelivered()
      requires Intact() && state.ProcessNextFrame? && state.pending.Some?
      ensures state.pending.value[..state.at] <= Plaintext(cipher, |frames|, Header() + readBuffer[offset..nread])
    {
      var m := readBuffer[offset..offset + state.frameSize];
      FrameIsAt(state.frameSize);
      PeelFrame(cipher, |frames|, m, readBuffer[offset + state.frameSize..nread]);
      assert state.pending.value[..state.at] <= state.pending.value[..state.size];
    }

    /** States `ReadData` and `ReadFrameLen`: read until a whole frame is buffered. */
    method Seek() returns (r: Option<Outcome>)
      requires Intact()
      modifies this`nread, this`offset, this`state, this`currentFrameSize, source, readBuffer
      ensures Leads(old(source.Now()), source.Now())
      ensures source.pendings == old(source.pendings) + (if r == Some(Pending) then 1 else 0)
      ensures source.ends == old(source.ends) + Tick(r == Some(Failed(UnexpectedEof)))
      ensures source.errors == old(source.errors) + Tick(r == Some(Failed(InnerError)))
      ensures r != Some(Failed(InvalidData)) ==> Intact()
      ensures r.None? ==> state.ProcessNextFrame?
      ensures r.Some? ==> match r.value
        case Pending => state.ReadData? && delivered == Plaintext(cipher, 0, source.received)
        case Ready(_) => false
        case Failed(UnexpectedEof) => source.eof
        case Failed(InnerError) => source.failed
        case Failed(InvalidData) => Rejects()
    {
      LeadsSelf(source.Now());
      while !state.ProcessNextFrame?
        invariant Intact() && source.pendings == old(source.pendings)
        invariant source.ends == old(source.ends) && source.errors == old(source.errors)
        invariant Leads(old(source.Now()), source.Now())
        decreases TapeSize(source.tape), state.ReadFrameLen?, !state.ProcessNextFrame?
      {
        if state.ReadData? {
          ghost var before := source.Now();
          r := FillBuffer();
          LeadsOn(old(source.Now()), before, source.Now());
        } else {
          r := ParseFrameLen();
        }
        if r.Some? {
          return;
        }
      }
      return None;
    }

    /** `poll_read`: hand out the next plaintext bytes of the received stream. */
    method PollRead(out: array<byte>) returns (r: Outcome)
      requires Valid() && out != readBuffer
      modifies this, source, readBuffer, out
      ensures Leads(old(source.Now()), source.Now())
      ensures r != Failed(InvalidData) ==> Valid()
      ensures r.Ready? ==> r.n <= out.Length && (0 < out.Length ==> 0 < r.n)
      ensures r.Ready? ==> delivered == old(delivered) + out[..r.n]
      ensures !r.Ready? ==> delivered == old(delivered)
      ensures source.pendings == old(source.pendings) + (if r.Pending? then 1 else 0)
      ensures source.ends == old(source.ends) + Tick(r == Failed(UnexpectedEof))
      ensures source.errors == old(source.errors) + Tick(r == Failed(InnerError))
      ensures r.Pending? ==> state.ReadData? && delivered == Plaintext(cipher, 0, source.received)
      ensures r == Failed(UnexpectedEof) ==> source.eof
      ensures r == Failed(InnerError) ==> source.failed
      ensures r == Failed(InvalidData) ==> Rejects()
      ensures r.Ready? ==> r.n == out.Length || state == ReadFrameLen
    {
      Open();
      var stopped := Seek();
      if stopped.Some? {
        return stopped.value;
      }
      r := Deliver(out);
    }
  }

  lemma Regroup(a: bytes, b: bytes, c: bytes, d: bytes)
    ensures a + (b + c) + d == a + (b + (c + d))
  {
  }

  lemma SplitHeader(s: bytes)
    requires 2 <= |s|
    ensures U16(s[0], s[1]) <= 65535 && [] + s == Prefix(U16(s[0], s[1])) + s[2..]
  {
    assert Prefix(U16(s[0], s[1])) == [s[0], s[1]];
  }

  lemma BadFrameIn(c: Cipher, frames: seq<bytes>, m: bytes, rest: bytes)
    requires Good(c, frames) && |m| <= 65535 && !Acceptable(c, |frames|, m)
    ensures Malformed(c, 0, Wire(frames) + (Frame(m) + rest))
    ensures Plaintext(c, 0, Wire(frames) + (Frame(m) + rest)) == Opened(c, frames)
  {
    PeelFrame(c, |frames|, m, rest);
    PlaintextOfWire(c, frames, Frame(m) + rest);
  }

  /** The received bytes are these frames, all delivered, and then the rest. */
  ghost predicate Settled(c: Cipher, frames: seq<bytes>, received: bytes, rest: bytes, delivered: bytes) {
    forall i {:trigger Looked(i)} :: i == 0 && Looked(i) ==>
      Good(c, frames) && received == Wire(frames) + ([] + rest) && delivered == Opened(c, frames)
  }

  /** Counting one more frame as delivered does not change the stream. */
  lemma FrameJoins(c: Cipher, frames: seq<bytes>, m: bytes, rest: bytes)
    requires Good(c, frames) && |m| <= 65535 && Acceptable(c, |frames|, m)
    ensures Good(c, frames + [m])
    ensures Opened(c, frames + [m]) == Opened(c, frames) + c.open(|frames|, m).value
    ensures Wire(frames) + (Frame(m) + rest) == Wire(frames + [m]) + ([] + rest)
  {
    OpenedSnoc(c, frames, m);
    WireSnoc(frames, m);
    Assoc(Wire(frames), Frame(m), rest);
    assert [] + rest == rest;
  }

  /** Copy `data` to the front of the caller's buffer. */
  method Fill(out: array<byte>, data: bytes)
    requires |data| <= out.Length
    modifies out
    ensures out[..|data|] == data
    ensures forall i :: |data| <= i < out.Length ==> out[i] == old(out[i])
  {
    forall i | 0 <= i < |data| {
      out[i] := data[i];
    }
  }
}
