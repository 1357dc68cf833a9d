/** Unsigned varints as the multiformats unsigned-varint specification defines them: seven
    bits a byte, least significant group first, minimal encodings only. */
module Varint {
  import opened Io

  /** One more than the largest `usize`. */
  const USIZE_BOUND: nat := 0x1_0000_0000_0000_0000
  /** The longest encoding of a `usize`. */
  const USIZE_BYTES: nat := 10

  function Encode(n: nat): (s: bytes)
    ensures 0 < |s|
  {
    if n < 128 then [n] else [128 + n % 128] + Encode(n / 128)
  }

  datatype Decoded = Decoded(value: nat, used: nat) | Insufficient | Overflow | NotMinimal

  /** Decode a varint of at most `limit` bytes; `first` says no byte of it has been read. */
  function DecodeFrom(s: bytes, limit: nat, first: bool): (d: Decoded)
    requires 0 < limit
    ensures d.Decoded? ==> 0 < d.used <= |s| && d.used <= limit
  {
    if s == [] then Insufficient
    else if s[0] < 128 then
      if s[0] == 0 && !first then NotMinimal else Decoded(s[0], 1)
    else if limit == 1 then Overflow
    else
      match DecodeFrom(s[1..], limit - 1, false)
      case Decoded(v, used) => Decoded(s[0] as int - 128 + 128 * v, used + 1)
      case error => error
  }

  function Decode(s: bytes, limit: nat): (d: Decoded)
    requires 0 < limit
    ensures d.Decoded? ==> 0 < d.used <= |s| && d.used <= limit
  {
    DecodeFrom(s, limit, true)
  }

  function DecodeUsize(s: bytes): (d: Decoded)
    ensures d.Decoded? ==> 0 < d.used <= |s| && d.used <= USIZE_BYTES && d.value < USIZE_BOUND
  {
    var d := Decode(s, USIZE_BYTES);
    if d.Decoded? && USIZE_BOUND <= d.value then Overflow else d
  }

  lemma {:induction false} DecodeEncodeFrom(n: nat, rest: bytes, limit: nat, first: bool)
    requires |Encode(n)| <= limit && (n == 0 ==> first)
    ensures DecodeFrom(Encode(n) + rest, limit, first) == Decoded(n, |Encode(n)|)
    decreases n
  {
    if n >= 128 {
      DecodeEncodeFrom(n / 128, rest, limit - 1, false);
      assert (Encode(n) + rest)[1..] == Encode(n / 128) + rest;
    }
  }

  /** Decoding undoes encoding, whatever follows. */
  lemma DecodeEncode(n: nat, rest: bytes, limit: nat)
    requires |Encode(n)| <= limit
    ensures Decode(Encode(n) + rest, limit) == Decoded(n, |Encode(n)|)
  {
    DecodeEncodeFrom(n, rest, limit, true);
  }

  /** The seven bits of a byte with more to come, and the number behind it. */
  lemma LowAndHigh(b: byte, v: nat)
    requires 128 <= b && 0 < v
    ensures var n := b - 128 + 128 * v; n % 128 == b - 128 && n / 128 == v && 128 <= n
  {
  }

  lemma {:induction false} EncodeDecodeFrom(s: bytes, limit: nat, first: bool)
    requires 0 < limit && DecodeFrom(s, limit, first).Decoded?
    ensures var d := DecodeFrom(s, limit, first); Encode(d.value) == s[..d.used] && (d.value == 0 ==> first)
    decreases limit
  {
    if s[0] >= 128 {
      EncodeDecodeFrom(s[1..], limit - 1, false);
      var d := DecodeFrom(s[1..], limit - 1, false);
      LowAndHigh(s[0], d.value);
      assert s[..d.used + 1] == [s[0]] + s[1..][..d.used];
    }
  }

  /** Encoding undoes decoding: only minimal encodings are accepted. */
  lemma EncodeDecode(s: bytes, limit: nat)
    requires 0 < limit && Decode(s, limit).Decoded?
    ensures var d := Decode(s, limit); Encode(d.value) == s[..d.used]
  {
    EncodeDecodeFrom(s, limit, true);
  }

  function Power128(k: nat): nat {
    if k == 0 then 1 else 128 * Power128(k - 1)
  }

  lemma {:induction false} EncodeLength(n: nat, k: nat)
    requires 0 < k && n < Power128(k)
    ensures |Encode(n)| <= k
  {
    assert Power128(1) == 128;
    if n >= 128 {
      EncodeLength(n / 128, k - 1);
    }
  }

  /** A `usize` always fits ten bytes. */
  lemma UsizeLength(n: nat)
    requires n < USIZE_BOUND
    ensures |Encode(n)| <= USIZE_BYTES
  {
    assert Power128(2) == 128 * Power128(1) == 16384;
    assert Power128(4) == 128 * (128 * Power128(2)) == 268435456;
    assert Power128(6) == 128 * (128 * Power128(4)) == 4398046511104;
    assert Power128(8) == 128 * (128 * Power128(6)) == 72057594037927936;
    assert Power128(10) == 128 * (128 * Power128(8));
    EncodeLength(n, 10);
  }

  lemma DecodeEncodeUsize(n: nat, rest: bytes)
    requires n < USIZE_BOUND
    ensures DecodeUsize(Encode(n) + rest) == Decoded(n, |Encode(n)|)
  {
    UsizeLength(n);
    DecodeEncode(n, rest, USIZE_BYTES);
  }

  /** A varint takes two bytes exactly up to 16383. */
  lemma TwoBytes(n: nat)
    ensures |Encode(n)| <= 2 <==> n < 16384
  {
    if n >= 16384 {
      assert Encode(n)[1..] == Encode(n / 128);
      assert Encode(n / 128)[1..] == Encode(n / 128 / 128);
    }
  }

  /** Once a length is complete, or cannot become one, what follows does not matter. */
  lemma {:induction false} DecodeStable(s: bytes, more: bytes, limit: nat, first: bool)
    requires 0 < limit && !DecodeFrom(s, limit, first).Insufficient?
    ensures DecodeFrom(s + more, limit, first) == DecodeFrom(s, limit, first)
    decreases |s|
  {
    if s[0] >= 128 && limit > 1 {
      DecodeStable(s[1..], more, limit - 1, false);
      assert (s + more)[1..] == s[1..] + more;
    }
  }
}
