/** The Noise transport stream as a mathematical object: what a byte stream of
    length-prefixed ciphertexts means, independently of how it is chunked. */
module NoiseFraming {
  import opened Io

  const MAX_NOISE_MSG_LEN: nat := 65536
  const NOISE_EXTRA_ENCRYPT_SPACE: nat := 16
  const MAX_FRAME_LEN: nat := MAX_NOISE_MSG_LEN - NOISE_EXTRA_ENCRYPT_SPACE
  /** The longest message a Noise cipher handles (section 3 of the Noise Protocol Framework). */
  const CIPHER_LIMIT: nat := 65535

  /** One direction of a transport cipher: `seal(n, p)` and `open(n, m)` under nonce `n`. */
  datatype Cipher = Cipher(seal: (nat, bytes) -> bytes, open: (nat, bytes) -> Option<bytes>)

  /** What the socket relies on: opening undoes sealing, and the tag is 16 bytes. */
  ghost predicate Sound(c: Cipher) {
    && (forall n: nat, p: bytes :: |c.seal(n, p)| == |p| + NOISE_EXTRA_ENCRYPT_SPACE)
    && (forall n: nat, p: bytes :: c.open(n, c.seal(n, p)) == Some(p))
    && (forall n: nat, m: bytes :: c.open(n, m).Some? ==>
          |c.open(n, m).value| + NOISE_EXTRA_ENCRYPT_SPACE == |m|)
  }

  /** `write_message` of the cipher: it refuses a message longer than its limit. */
  function WriteMessage(c: Cipher, n: nat, p: bytes): Option<bytes> {
    if |p| + NOISE_EXTRA_ENCRYPT_SPACE > CIPHER_LIMIT then None else Some(c.seal(n, p))
  }

  function U16(hi: byte, lo: byte): nat {
    (hi as int) * 256 + lo as int
  }

  function Prefix(n: nat): bytes
    requires n <= 65535
  {
    [n / 256, n % 256]
  }

  /** A message as it travels: its big-endian u16 length, then itself. */
  function Frame(m: bytes): bytes
    requires |m| <= 65535
  {
    Prefix(|m|) + m
  }

  predicate Framable(ms: seq<bytes>) {
    forall i :: 0 <= i < |ms| ==> |ms[i]| <= 65535
  }

  function Wire(ms: seq<bytes>): bytes
    requires Framable(ms)
  {
    if ms == [] then [] else Wire(ms[..|ms| - 1]) + Frame(ms[|ms| - 1])
  }

  /** Every message is long enough for the reader and opens under its own index. */
  ghost predicate Good(c: Cipher, ms: seq<bytes>) {
    && Framable(ms)
    && forall i :: 0 <= i < |ms| ==> |ms[i]| > NOISE_EXTRA_ENCRYPT_SPACE && c.open(i, ms[i]).Some?
  }

  /** The in-order decryptions, each message opened exactly once under the next nonce. */
  ghost function Opened(c: Cipher, ms: seq<bytes>): bytes
    requires Good(c, ms)
  {
    if ms == [] then []
    else Opened(c, ms[..|ms| - 1]) + c.open(|ms| - 1, ms[|ms| - 1]).value
  }

  predicate Whole(s: bytes) {
    |s| >= 2 && |s| >= 2 + U16(s[0], s[1])
  }

  /** The first message of a stream that holds a whole one. */
  function First(s: bytes): bytes
    requires Whole(s)
  {
    s[2..2 + U16(s[0], s[1])]
  }

  ghost predicate Acceptable(c: Cipher, n: nat, m: bytes) {
    |m| > NOISE_EXTRA_ENCRYPT_SPACE && c.open(n, m).Some?
  }

  /** The reference reader: all plaintext that a stream starting at nonce `n` carries. */
  ghost function Plaintext(c: Cipher, n: nat, s: bytes): bytes
    decreases |s|
  {
    if !Whole(s) || !Acceptable(c, n, First(s)) then []
    else c.open(n, First(s)).value + Plaintext(c, n + 1, s[2 + |First(s)|..])
  }

  /** The stream reaches a whole frame that no reader may accept. */
  ghost predicate Malformed(c: Cipher, n: nat, s: bytes)
    decreases |s|
  {
    Whole(s) && (!Acceptable(c, n, First(s)) || Malformed(c, n + 1, s[2 + |First(s)|..]))
  }

  lemma WireSnoc(ms: seq<bytes>, m: bytes)
    requires Framable(ms) && |m| <= 65535
    ensures Framable(ms + [m]) && Wire(ms + [m]) == Wire(ms) + Frame(m)
  {
    assert (ms + [m])[..|ms|] == ms;
  }

  lemma OpenedSnoc(c: Cipher, ms: seq<bytes>, m: bytes)
    requires Good(c, ms) && |m| <= 65535 && Acceptable(c, |ms|, m)
    ensures Good(c, ms + [m])
    ensures Opened(c, ms + [m]) == Opened(c, ms) + c.open(|ms|, m).value
  {
    assert (ms + [m])[..|ms|] == ms;
  }

  /** Peeling the front frame of a stream. */
  lemma PeelFrame(c: Cipher, n: nat, m: bytes, rest: bytes)
    requires |m| <= 65535
    ensures Whole(Frame(m) + rest) && First(Frame(m) + rest) == m
    ensures (Frame(m) + rest)[2 + |m|..] == rest
    ensures Acceptable(c, n, m) ==>
              && Plaintext(c, n, Frame(m) + rest) == c.open(n, m).value + Plaintext(c, n + 1, rest)
              && (Malformed(c, n, Frame(m) + rest) <==> Malformed(c, n + 1, rest))
  {
    var s := Frame(m) + rest;
    assert U16(s[0], s[1]) == |m|;
    assert s[2..2 + |m|] == m;
    assert s[2 + |m|..] == rest;
  }

  lemma OpenedThen(c: Cipher, ms: seq<bytes>, more: bytes)
    requires Good(c, ms) && ms != []
    ensures var k := |ms| - 1;
            Opened(c, ms) + more == Opened(c, ms[..k]) + (c.open(k, ms[k]).value + more)
  {
  }

  /** The reference reader on a run of good frames followed by anything. */
  lemma {:induction false} PlaintextOfWire(c: Cipher, ms: seq<bytes>, rest: bytes)
    requires Good(c, ms)
    ensures Plaintext(c, 0, Wire(ms) + rest) == Opened(c, ms) + Plaintext(c, |ms|, rest)
    ensures Malformed(c, 0, Wire(ms) + rest) <==> Malformed(c, |ms|, rest)
  {
    if ms == [] {
      assert Wire(ms) + rest == rest;
    } else {
      var k := |ms| - 1;
      var tail := Frame(ms[k]) + rest;
      assert Wire(ms) + rest == Wire(ms[..k]) + tail;
      PlaintextOfWire(c, ms[..k], tail);
      PeelFrame(c, k, ms[k], rest);
      OpenedThen(c, ms, Plaintext(c, |ms|, rest));
    }
  }

  /** A malformed stream is good frames, then a frame that is too short or does not open. */
  lemma {:induction false} BadFrameWithin(c: Cipher, ms: seq<bytes>, s: bytes)
    returns (good: seq<bytes>, bad: bytes, rest: bytes)
    requires Good(c, ms) && Malformed(c, |ms|, s)
    ensures Good(c, good) && ms <= good && |bad| <= 65535 && Wire(ms) + s == Wire(good) + Frame(bad) + rest
    ensures |bad| <= NOISE_EXTRA_ENCRYPT_SPACE || c.open(|good|, bad).None?
    decreases |s|
  {
    var m := First(s);
    var more := s[2 + |m|..];
    assert s == Frame(m) + more;
    Assoc(Wire(ms), Frame(m), more);
    if Acceptable(c, |ms|, m) {
      WireSnoc(ms, m);
      OpenedSnoc(c, ms, m);
      good, bad, rest := BadFrameWithin(c, ms + [m], more);
    } else {
      good, bad, rest := ms, m, more;
    }
  }

  /** And such a stream is malformed, whatever follows. */
  lemma BadFrameSpoils(c: Cipher, good: seq<bytes>, bad: bytes, rest: bytes)
    requires Good(c, good) && |bad| <= 65535
    requires |bad| <= NOISE_EXTRA_ENCRYPT_SPACE || c.open(|good|, bad).None?
    ensures Malformed(c, 0, Wire(good) + Frame(bad) + rest)
    ensures Plaintext(c, 0, Wire(good) + Frame(bad) + rest) == Opened(c, good)
  {
    Assoc(Wire(good), Frame(bad), rest);
    PlaintextOfWire(c, good, Frame(bad) + rest);
    PeelFrame(c, |good|, bad, rest);
  }

  // ----- What a writer puts on the wire ------------------------------------------------

  predicate Chunks(ps: seq<bytes>) {
    forall i :: 0 <= i < |ps| ==> 0 < |ps[i]| <= CIPHER_LIMIT - NOISE_EXTRA_ENCRYPT_SPACE
  }

  function Concat(ps: seq<bytes>): bytes {
    if ps == [] then [] else Concat(ps[..|ps| - 1]) + ps[|ps| - 1]
  }

  ghost function Sealed(c: Cipher, ps: seq<bytes>): (ms: seq<bytes>)
    ensures |ms| == |ps|
    ensures forall i :: 0 <= i < |ps| ==> ms[i] == c.seal(i, ps[i])
  {
    seq(|ps|, i requires 0 <= i < |ps| => c.seal(i, ps[i]))
  }

  /** Sealing chunks under consecutive nonces yields good frames that open to the chunks. */
  lemma {:induction false} SealedOpens(c: Cipher, ps: seq<bytes>)
    requires Sound(c) && Chunks(ps)
    ensures Good(c, Sealed(c, ps)) && Opened(c, Sealed(c, ps)) == Concat(ps)
  {
    if ps != [] {
      var k := |ps| - 1;
      SealedOpens(c, ps[..k]);
      assert Sealed(c, ps)[..k] == Sealed(c, ps[..k]);
    }
  }

  lemma {:induction false} SealedSnoc(c: Cipher, ps: seq<bytes>, p: bytes)
    requires Sound(c) && Chunks(ps + [p])
    ensures Chunks(ps) && Framable(Sealed(c, ps)) && Framable(Sealed(c, ps + [p]))
    ensures |c.seal(|ps|, p)| <= 65535
    ensures Wire(Sealed(c, ps + [p])) == Wire(Sealed(c, ps)) + Frame(c.seal(|ps|, p))
    ensures Concat(ps + [p]) == Concat(ps) + p
  {
    ChunksSnoc(c, ps, p);
    assert (ps + [p])[..|ps|] == ps;
    WireSnoc(Sealed(c, ps), c.seal(|ps|, p));
  }

  lemma {:induction false} ChunksSnoc(c: Cipher, ps: seq<bytes>, p: bytes)
    requires Sound(c) && Chunks(ps + [p])
    ensures Chunks(ps) && Framable(Sealed(c, ps)) && |c.seal(|ps|, p)| <= 65535
    ensures Sealed(c, ps + [p]) == Sealed(c, ps) + [c.seal(|ps|, p)]
  {
    var all := ps + [p];
    assert all[|ps|] == p;
    assert forall i :: 0 <= i < |ps| ==> all[i] == ps[i];
  }

  /** Whatever part of the wire has arrived, the reference reader sees a prefix of the
      plaintext that was written, and all of it once the whole wire has arrived. */
  lemma {:induction false} PrefixOfWire(c: Cipher, ps: seq<bytes>, s: bytes)
    requires Sound(c) && Chunks(ps)
    requires Framable(Sealed(c, ps)) && s <= Wire(Sealed(c, ps))
    ensures Plaintext(c, 0, s) <= Concat(ps)
    ensures s == Wire(Sealed(c, ps)) ==> Plaintext(c, 0, s) == Concat(ps)
    ensures !Malformed(c, 0, s)
  {
    if ps != [] {
      var k := |ps| - 1;
      var front, p := ps[..k], ps[k];
      assert front + [p] == ps;
      SealedSnoc(c, front, p);
      var w, f := Wire(Sealed(c, front)), Frame(c.seal(k, p));
      CutAt(s, w, f);
      if |s| <= |w| {
        PrefixOfWire(c, front, s);
      } else {
        UpToLast(c, front, p, s[|w|..]);
      }
    }
  }

  /** The wire up to a part of the last frame. */
  lemma {:induction false} UpToLast(c: Cipher, front: seq<bytes>, p: bytes, t: bytes)
    requires Sound(c) && Chunks(front + [p]) && Chunks(front) && Framable(Sealed(c, front))
    requires |c.seal(|front|, p)| <= 65535 && t <= Frame(c.seal(|front|, p))
    ensures Plaintext(c, 0, Wire(Sealed(c, front)) + t) ==
            Concat(front) + if |t| == |Frame(c.seal(|front|, p))| then p else []
    ensures !Malformed(c, 0, Wire(Sealed(c, front)) + t)
  {
    assert (front + [p])[|front|] == p;
    SealedOpens(c, front);
    PlaintextOfWire(c, Sealed(c, front), t);
    PartOfFrame(c, |front|, c.seal(|front|, p), t);
  }

  /** A proper part of a frame carries nothing yet; the whole frame carries its message. */
  lemma PartOfFrame(c: Cipher, n: nat, m: bytes, t: bytes)
    requires |m| <= 65535 && Acceptable(c, n, m) && t <= Frame(m)
    ensures Plaintext(c, n, t) == if t == Frame(m) then c.open(n, m).value else []
    ensures !Malformed(c, n, t)
  {
    if t == Frame(m) {
      PeelFrame(c, n, m, []);
      assert Frame(m) + [] == t;
    } else if |t| >= 2 {
      assert t[0] == Frame(m)[0] && t[1] == Frame(m)[1];
      assert !Whole(t);
    }
  }
}
