/** Streams of frames delimited by an unsigned-varint length: what such a stream means,
    independently of how it is chunked. */
module Delimited {
  import opened Io
  import opened Varint

  /** How many bytes a length may take, and how long a payload may be. */
  datatype Rule = Rule(limit: nat, max: nat)

  function Frame(m: bytes): bytes {
    Encode(|m|) + m
  }

  predicate Legal(rule: Rule, m: bytes) {
    |Encode(|m|)| <= rule.limit && |m| <= rule.max
  }

  /** Mentioned where a message must be looked at to judge it. */
  predicate Weighed(i: int) {
    true
  }

  ghost predicate AllLegal(rule: Rule, ms: seq<bytes>) {
    forall i {:trigger Weighed(i)} :: 0 <= i < |ms| && Weighed(i) ==> Legal(rule, ms[i])
  }

  function Wire(ms: seq<bytes>): bytes {
    if ms == [] then [] else Wire(ms[..|ms| - 1]) + Frame(ms[|ms| - 1])
  }

  /** The front of a stream: not yet a frame, never a frame, or a frame and its extent. */
  datatype Peeled = Short | Bad | One(frame: bytes, used: nat)

  function Peel(rule: Rule, s: bytes): (p: Peeled)
    requires 0 < rule.limit
    ensures p.One? ==> 0 < p.used <= |s|
  {
    match Decode(s, rule.limit)
    case Insufficient => Short
    case Decoded(size, used) =>
      if size > rule.max then Bad
      else if used + size > |s| then Short
      else One(s[used..used + size], used + size)
    case _ => Bad
  }

  /** The reference reader: all frames a stream carries. */
  function Items(rule: Rule, s: bytes): seq<bytes>
    requires 0 < rule.limit
    decreases |s|
  {
    var p := Peel(rule, s);
    if p.One? then [p.frame] + Items(rule, s[p.used..]) else []
  }

  /** The stream reaches something that no continuation turns into a frame. */
  predicate Malformed(rule: Rule, s: bytes)
    requires 0 < rule.limit
    decreases |s|
  {
    match Peel(rule, s)
    case Short => false
    case Bad => true
    case One(_, used) => Malformed(rule, s[used..])
  }

  /** Mentioned where it matters why a stream is rejected. */
  predicate Judged(i: int) {
    true
  }

  /** What follows these frames is a bad length, so the stream is malformed. */
  ghost predicate Stuck(rule: Rule, frames: seq<bytes>, received: bytes)
    requires 0 < rule.limit
  {
    forall i {:trigger Judged(i)} :: i == 0 && Judged(i) ==>
      && AllLegal(rule, frames) && Wire(frames) <= received && Malformed(rule, received)
      && Peel(rule, received[|Wire(frames)|..]) == Bad
  }

  lemma WireSnoc(ms: seq<bytes>, m: bytes)
    ensures Wire(ms + [m]) == Wire(ms) + Frame(m)
  {
    assert (ms + [m])[..|ms|] == ms;
  }

  lemma {:induction false} WireConcat(xs: seq<bytes>, ys: seq<bytes>)
    ensures Wire(xs + ys) == Wire(xs) + Wire(ys)
    decreases |ys|
  {
    if ys == [] {
      assert xs + ys == xs;
    } else {
      var k := |ys| - 1;
      WireConcat(xs, ys[..k]);
      WireSnoc(xs + ys[..k], ys[k]);
      assert xs + ys[..k] + [ys[k]] == xs + ys;
      Assoc(Wire(xs), Wire(ys[..k]), Frame(ys[k]));
    }
  }

  lemma PeelFrame(rule: Rule, m: bytes, rest: bytes)
    requires Legal(rule, m)
    ensures Peel(rule, Frame(m) + rest) == One(m, |Frame(m)|)
    ensures (Frame(m) + rest)[|Frame(m)|..] == rest
  {
    var prefix := Encode(|m|);
    Assoc(prefix, m, rest);
    DecodeEncode(|m|, m + rest, rule.limit);
    assert (prefix + (m + rest))[|prefix|..|prefix| + |m|] == m;
  }

  /** The reference reader on a run of frames followed by anything. */
  lemma {:induction false} ItemsOfWire(rule: Rule, ms: seq<bytes>, rest: bytes)
    requires 0 < rule.limit && AllLegal(rule, ms)
    ensures Items(rule, Wire(ms) + rest) == ms + Items(rule, rest)
    ensures Malformed(rule, Wire(ms) + rest) <==> Malformed(rule, rest)
  {
    if ms == [] {
      assert Wire(ms) + rest == rest;
    } else {
      var k := |ms| - 1;
      Assoc(Wire(ms[..k]), Frame(ms[k]), rest);
      ItemsOfWire(rule, ms[..k], Frame(ms[k]) + rest);
      assert Weighed(k);
      PeelFrame(rule, ms[k], rest);
      assert ms[..k] + [ms[k]] == ms;
      Assoc(ms[..k], [ms[k]], Items(rule, rest));
    }
  }

  /** A bad length after some frames. */
  lemma GetsStuck(rule: Rule, frames: seq<bytes>, s: bytes)
    requires 0 < rule.limit && AllLegal(rule, frames) && Peel(rule, s) == Bad
    ensures Stuck(rule, frames, Wire(frames) + s)
  {
    ItemsOfWire(rule, frames, s);
    assert (Wire(frames) + s)[|Wire(frames)|..] == s;
  }

  lemma {:induction false} PartOfEncoding(n: nat, t: bytes, limit: nat, first: bool)
    requires t < Encode(n) && |Encode(n)| <= limit
    ensures DecodeFrom(t, limit, first) == Insufficient
    decreases |t|
  {
    if t != [] {
      assert t[0] == Encode(n)[0] && n >= 128;
      assert t[1..] < Encode(n)[1..] == Encode(n / 128);
      PartOfEncoding(n / 128, t[1..], limit - 1, false);
    }
  }

  /** A proper part of a frame is not yet a frame. */
  lemma PartOfFrame(rule: Rule, m: bytes, t: bytes)
    requires Legal(rule, m) && t < Frame(m)
    ensures Peel(rule, t) == Short
  {
    var prefix := Encode(|m|);
    if |t| < |prefix| {
      assert t < prefix;
      PartOfEncoding(|m|, t, rule.limit, true);
    } else {
      var rest := t[|prefix|..];
      assert t == prefix + rest;
      DecodeEncode(|m|, rest, rule.limit);
    }
  }

  /** Of a legal frame and whatever follows, no part starts with a bad length. */
  lemma PartIsReadable(rule: Rule, m: bytes, rest: bytes, t: bytes)
    requires Legal(rule, m) && t <= Frame(m) + rest
    ensures Peel(rule, t) != Bad
  {
    if |t| < |Frame(m)| {
      assert t < Frame(m);
      PartOfFrame(rule, m, t);
    } else {
      var more := t[|Frame(m)|..];
      assert t == Frame(m) + more;
      PeelFrame(rule, m, more);
    }
  }

  /** No continuation makes a bad length a frame. */
  lemma BadForever(rule: Rule, s: bytes, more: bytes)
    requires 0 < rule.limit && Peel(rule, s) == Bad
    ensures Peel(rule, s + more) == Bad
  {
    DecodeStable(s, more, rule.limit, true);
  }

  lemma ItemsOfPart(rule: Rule, m: bytes, t: bytes)
    requires 0 < rule.limit && Legal(rule, m) && t <= Frame(m)
    ensures Items(rule, t) == if t == Frame(m) then [m] else []
    ensures !Malformed(rule, t)
  {
    if t == Frame(m) {
      PeelFrame(rule, m, []);
      assert t + [] == t;
    } else {
      PartOfFrame(rule, m, t);
    }
  }

  lemma UpToLast(rule: Rule, front: seq<bytes>, last: bytes, t: bytes)
    requires 0 < rule.limit && AllLegal(rule, front) && Legal(rule, last) && t <= Frame(last)
    ensures Items(rule, Wire(front) + t) == front + if |t| == |Frame(last)| then [last] else []
    ensures !Malformed(rule, Wire(front) + t)
  {
    ItemsOfWire(rule, front, t);
    ItemsOfPart(rule, last, t);
  }

  /** Whatever part of the wire has arrived, the reference reader sees a prefix of the
      frames that were written, and all of them once the whole wire has arrived. */
  lemma {:induction false} PrefixOfWire(rule: Rule, ms: seq<bytes>, s: bytes)
    requires 0 < rule.limit && AllLegal(rule, ms) && s <= Wire(ms)
    ensures Items(rule, s) <= ms && !Malformed(rule, s)
    ensures s == Wire(ms) ==> Items(rule, s) == ms
  {
    if ms != [] {
      var k := |ms| - 1;
      var front, last := ms[..k], ms[k];
      var w := Wire(front);
      assert front + [last] == ms && Wire(ms) == w + Frame(last);
      CutAt(s, w, Frame(last));
      if |s| <= |w| {
        PrefixOfWire(rule, front, s);
      } else {
        assert Weighed(k);
        UpToLast(rule, front, last, s[|w|..]);
      }
    }
  }

  lemma WirePrefix(ms: seq<bytes>, ns: seq<bytes>)
    requires ms <= ns
    ensures Wire(ms) <= Wire(ns)
  {
    assert ns == ms + ns[|ms|..];
    WireConcat(ms, ns[|ms|..]);
  }

  /** Of two runs of frames at the front of one stream, one begins the other. */
  lemma WireComparable(rule: Rule, ms: seq<bytes>, ns: seq<bytes>, more: bytes)
    requires 0 < rule.limit && AllLegal(rule, ms) && AllLegal(rule, ns) && Wire(ms) <= Wire(ns) + more
    ensures ms <= ns || ns <= ms
    ensures more == [] ==> ms <= ns
  {
    if |Wire(ms)| <= |Wire(ns)| {
      WireInjective(rule, ms, ns);
    } else {
      assert Wire(ns) <= Wire(ms);
      WireInjective(rule, ns, ms);
    }
  }

  /** Which frames were written can be read off the wire. */
  lemma WireInjective(rule: Rule, ms: seq<bytes>, ns: seq<bytes>)
    requires 0 < rule.limit && AllLegal(rule, ms) && AllLegal(rule, ns) && Wire(ms) <= Wire(ns)
    ensures ms <= ns && (Wire(ms) == Wire(ns) ==> ms == ns)
  {
    PrefixOfWire(rule, ms, Wire(ms));
    PrefixOfWire(rule, ns, Wire(ms));
  }
}
