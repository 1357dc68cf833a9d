/** The environment of the pollable machines: an inner byte stream whose every answer is
    taken from an arbitrary tape, so that a statement about all tapes is a statement about
    every schedule of `Pending`, every short read or write and every I/O error. */
module Io {
  type byte = b: int | 0 <= b < 256
  type bytes = seq<byte>

  datatype Option<+T> = None | Some(value: T)

  /** One answer of an inner `poll_read`; no data means end of file. */
  datatype ReadReply = ReadPending | ReadFailed | ReadReady(data: bytes)

  /** One answer of an inner `poll_write`, `poll_flush` or `poll_close`. Of an error only matters
      whether its kind is `WriteZero`. */
  datatype WriteReply = WritePending | WriteFailed(writeZero: bool) | WriteReady(n: nat)

  /** The bytes still to come out of a tape. */
  function TapeBytes(tape: seq<ReadReply>): bytes {
    if tape == [] then []
    else (if tape[0].ReadReady? then tape[0].data else []) + TapeBytes(tape[1..])
  }

  /** How many more answers a tape can give. */
  function TapeSize(tape: seq<ReadReply>): nat {
    if tape == [] then 0
    else 1 + (if tape[0].ReadReady? then |tape[0].data| else 0) + TapeSize(tape[1..])
  }

  /** How often a tape will answer with the end, or with an error. */
  function EndsIn(tape: seq<ReadReply>): nat {
    if tape == [] then 0 else Tick(tape[0] == ReadReady([])) + EndsIn(tape[1..])
  }

  function ErrorsIn(tape: seq<ReadReply>): nat {
    if tape == [] then 0 else Tick(tape[0].ReadFailed?) + ErrorsIn(tape[1..])
  }

  function Tick(b: bool): nat {
    if b then 1 else 0
  }

  /** Cutting the first answer in two keeps what is still to come. */
  lemma TapeCut(tape: seq<ReadReply>, n: nat)
    requires tape != [] && tape[0].ReadReady? && n <= |tape[0].data|
    ensures var cut := [ReadReady(tape[0].data[n..])] + tape[1..];
            && tape[0].data[..n] + TapeBytes(cut) == TapeBytes(tape)
            && TapeSize(cut) == TapeSize(tape) - n
  {
    var data, rest := tape[0].data, tape[1..];
    assert ([ReadReady(data[n..])] + rest)[1..] == rest;
    assert data == data[..n] + data[n..];
    Assoc(data[..n], data[n..], TapeBytes(rest));
  }

  lemma TapeSnoc(tape: seq<ReadReply>, reply: ReadReply)
    ensures TapeBytes(tape + [reply]) == TapeBytes(tape) + (if reply.ReadReady? then reply.data else [])
    ensures EndsIn(tape + [reply]) == EndsIn(tape) + Tick(reply == ReadReady([]))
    ensures ErrorsIn(tape + [reply]) == ErrorsIn(tape) + Tick(reply.ReadFailed?)
  {
    if tape != [] {
      TapeSnoc(tape[1..], reply);
      assert (tape + [reply])[1..] == tape[1..] + [reply];
    } else {
      assert (tape + [reply])[1..] == [];
    }
  }

  /** The next bytes of what was sent are put behind a tape that holds those before them. */
  lemma {:induction false} TapeGoesOn(received: bytes, tape: seq<ReadReply>, reply: ReadReply, sent: bytes,
      carried: nat, n: nat)
    requires carried + n <= |sent| && received + TapeBytes(tape) == sent[..carried]
    requires if reply.ReadReady? then reply.data == sent[carried..carried + n] else n == 0
    ensures received + TapeBytes(tape + [reply]) == sent[..carried + n]
  {
    var more := if reply.ReadReady? then reply.data else [];
    TapeSnoc(tape, reply);
    Assoc(received, TapeBytes(tape), more);
    assert sent[..carried] + more == sent[..carried + n];
  }

  /** A part of two byte strings is a part of the first, or the first and a part of the second. */
  lemma CutAt(s: bytes, w: bytes, f: bytes)
    requires s <= w + f
    ensures if |s| <= |w| then s <= w else s == w + s[|w|..] && s[|w|..] <= f
    ensures s == w + f <==> |s| == |w| + |f|
  {
  }

  lemma Assoc<T>(a: seq<T>, b: seq<T>, c: seq<T>)
    ensures a + (b + c) == a + b + c
  {
  }

  // ----- What a read does to a stream --------------------------------------------------

  /** A stream in the middle of being read: what was handed out, what is to come, whether its end,
      or an error, has been reported, how often it was not ready, and how often it has reported its
      end, or an error. */
  datatype Flow = Flow(received: bytes, tape: seq<ReadReply>, eof: bool, failed: bool, pendings: nat,
                       ends: nat, errors: nat)

  /** Nothing but the end follows the end. */
  ghost predicate EndsOnce(tape: seq<ReadReply>) {
    tape == [] || (EndsOnce(tape[1..]) && (tape[0] == ReadReady([]) ==> TapeBytes(tape[1..]) == []))
  }

  ghost predicate Orderly(f: Flow) {
    EndsOnce(f.tape) && (f.eof ==> TapeBytes(f.tape) == [])
  }

  /** The end has been reported or is about to be. */
  predicate Ending(f: Flow) {
    f.eof || ReadReady([]) in f.tape
  }

  // Some predicates of this project are guarded: they are quantified over an index that a constant
  // predicate such as `Flowing` below takes, with that predicate as the trigger. The verifier then
  // unfolds them only where `Flowing(0)` is asserted, and elsewhere passes them on as a whole. This
  // keeps large invariants out of proofs that do not look inside them.

  /** Mentioned where the invariant of a machine is to be unfolded. */
  predicate Looked(i: int) {
    true
  }

  /** Mentioned where it matters what reading keeps. */
  predicate Flowing(i: int) {
    true
  }

  /** Reading leads from `a` to `b`: no byte is lost, repeated or reordered, and no end, error or
      wait is lost or made up. */
  ghost predicate Leads(a: Flow, b: Flow) {
    forall i {:trigger Flowing(i)} :: i == 0 && Flowing(i) ==>
      && a.received + TapeBytes(a.tape) == b.received + TapeBytes(b.tape)
      && (Orderly(a) ==> Orderly(b))
      && (Ending(b) ==> Ending(a))
      && Caused(a, b)
  }

  /** Errors and waits come from the tape, or from its having run out. */
  ghost predicate Caused(a: Flow, b: Flow) {
    && (b.failed ==> a.failed || ReadFailed in a.tape)
    && (b.pendings > a.pendings ==> ReadPending in a.tape || b.tape == [])
    && (a.tape == [] ==> b.tape == [])
    && (ReadFailed in b.tape ==> ReadFailed in a.tape) && (ReadPending in b.tape ==> ReadPending in a.tape)
    && a.pendings <= b.pendings && (a.failed ==> b.failed) && (a.eof ==> b.eof) && TapeSize(b.tape) <= TapeSize(a.tape)
    && a.ends + EndsIn(a.tape) == b.ends + EndsIn(b.tape) && a.errors + ErrorsIn(a.tape) == b.errors + ErrorsIn(b.tape)
  }

  lemma LeadsSelf(f: Flow)
    ensures Leads(f, f)
  {
  }

  lemma LeadsOn(a: Flow, b: Flow, c: Flow)
    requires Leads(a, b) && Leads(b, c)
    ensures Leads(a, c)
  {
    assert Flowing(0);
  }

  lemma LeadsKeeps(a: Flow, b: Flow)
    requires Leads(a, b)
    ensures (a.failed ==> b.failed) && (a.eof ==> b.eof) && TapeSize(b.tape) <= TapeSize(a.tape)
    ensures a.ends + EndsIn(a.tape) == b.ends + EndsIn(b.tape)
    ensures a.errors + ErrorsIn(a.tape) == b.errors + ErrorsIn(b.tape)
  {
    assert Flowing(0);
  }

  /** A stream that was read to the end of its tape. */
  lemma AllRead(a: Flow, b: Flow, out: bytes)
    requires Leads(a, b) && b.tape == [] && b.received == a.received + out
    ensures out == TapeBytes(a.tape)
  {
    assert Flowing(0);
    assert a.received + TapeBytes(a.tape) == a.received + out;
    assert out == (a.received + out)[|a.received|..];
    assert TapeBytes(a.tape) == (a.received + TapeBytes(a.tape))[|a.received|..];
  }

  /** Nothing is there to be given. */
  lemma LeadsWait(f: Flow)
    requires f.tape == []
    ensures Leads(f, f.(pendings := f.pendings + 1))
  {
  }

  /** The first answer is given. */
  lemma LeadsNext(f: Flow)
    requires f.tape != []
    ensures var r := f.tape[0];
            Leads(f, Flow(f.received + (if r.ReadReady? then r.data else []), f.tape[1..], f.eof || r == ReadReady([]),
                          f.failed || r.ReadFailed?, f.pendings + Tick(r.ReadPending?),
                          f.ends + Tick(r == ReadReady([])), f.errors + Tick(r.ReadFailed?)))
  {
    var r := f.tape[0];
    assert f.tape == [r] + f.tape[1..];
    Assoc(f.received, if r.ReadReady? then r.data else [], TapeBytes(f.tape[1..]));
  }

  /** A part of the first answer is given. */
  lemma LeadsPart(f: Flow, n: nat)
    requires f.tape != [] && f.tape[0].ReadReady? && 0 < n < |f.tape[0].data|
    ensures var data := f.tape[0].data;
            Leads(f, f.(received := f.received + data[..n], tape := [ReadReady(data[n..])] + f.tape[1..]))
  {
    var data, rest := f.tape[0].data, f.tape[1..];
    var cut := [ReadReady(data[n..])] + rest;
    assert cut[1..] == rest && f.tape == [f.tape[0]] + rest;
    TapeCut(f.tape, n);
    Assoc(f.received, data[..n], TapeBytes(cut));
  }

  // ----- A network between a sink and a source -----------------------------------------

  /** Mentioned where it matters what the network has brought. */
  predicate Brought(i: int) {
    true
  }

  /** The stream carries the first `carried` bytes of what was sent. */
  ghost predicate Brings(f: Flow, sent: bytes, carried: nat) {
    forall i {:trigger Brought(i)} :: i == 0 && Brought(i) ==>
      carried <= |sent| && f.received + TapeBytes(f.tape) == sent[..carried]
  }

  lemma BringsRead(a: Flow, b: Flow, sent: bytes, carried: nat)
    requires Brings(a, sent, carried) && Leads(a, b)
    ensures Brings(b, sent, carried) && b.received <= sent && (a.failed ==> b.failed)
  {
    assert Flowing(0) && Brought(0);
    assert b.received <= b.received + TapeBytes(b.tape);
  }

  lemma BringsArrived(f: Flow, sent: bytes, carried: nat)
    requires Brings(f, sent, carried)
    ensures f.received <= sent
  {
    LeadsSelf(f);
    BringsRead(f, f, sent, carried);
  }

  lemma BringsWrite(f: Flow, sent: bytes, more: bytes, carried: nat)
    requires Brings(f, sent, carried) && sent <= more
    ensures Brings(f, more, carried)
  {
    assert Brought(0);
    assert more[..carried] == sent[..carried];
  }

  lemma BringsOn(f: Flow, reply: ReadReply, sent: bytes, carried: nat, n: nat)
    requires Brings(f, sent, carried) && carried + n <= |sent|
    requires if reply.ReadReady? then reply.data == sent[carried..carried + n] else n == 0
    ensures Brings(f.(tape := f.tape + [reply]), sent, carried + n)
  {
    assert Brought(0);
    TapeGoesOn(f.received, f.tape, reply, sent, carried, n);
  }

  /** The network has hung up, and broken, so often; the stream has said so or will say so. */
  ghost predicate Counted(f: Flow, hangUps: nat, breaks: nat) {
    forall i {:trigger Brought(i)} :: i == 0 && Brought(i) ==>
      hangUps == f.ends + EndsIn(f.tape) && breaks == f.errors + ErrorsIn(f.tape)
  }

  lemma CountedRead(a: Flow, b: Flow, hangUps: nat, breaks: nat)
    requires Counted(a, hangUps, breaks) && Leads(a, b)
    ensures Counted(b, hangUps, breaks)
  {
    assert Brought(0);
    LeadsKeeps(a, b);
  }

  lemma CountedOn(f: Flow, reply: ReadReply, hangUps: nat, breaks: nat)
    requires Counted(f, hangUps, breaks)
    ensures Counted(f.(tape := f.tape + [reply]), hangUps + Tick(reply == ReadReady([])),
                    breaks + Tick(reply.ReadFailed?))
  {
    assert Brought(0);
    TapeSnoc(f.tape, reply);
  }

  lemma CountedStops(f: Flow, hangUps: nat, breaks: nat)
    requires Counted(f, hangUps, breaks)
    ensures hangUps == f.ends + EndsIn(f.tape) && breaks == f.errors + ErrorsIn(f.tape)
  {
    assert Brought(0);
  }

  /** The answer is the first of the tape, or a part of it. */
  predicate TapeAnswers(tape: seq<ReadReply>, r: ReadReply) {
    if tape == [] then r.ReadPending?
    else if tape[0].ReadReady? then r.ReadReady? && r.data <= tape[0].data && (r.data == [] <==> tape[0].data == [])
    else r == tape[0]
  }

  /** The readable half of an inner stream. */
  class Source {
    var tape: seq<ReadReply>
    /** All bytes handed out so far. */
    ghost var received: bytes
    /** Whether an end of file, or an error, has been reported, how often the stream was not ready,
        and how often it has reported its end, or an error. */
    ghost var eof: bool
    ghost var failed: bool
    ghost var pendings: nat
    ghost var ends: nat
    ghost var errors: nat

    ghost function Now(): Flow
      reads this`received, this`tape, this`eof, this`failed, this`pendings, this`ends, this`errors
    {
      Flow(received, tape, eof, failed, pendings, ends, errors)
    }

    constructor (tape: seq<ReadReply>)
      ensures this.tape == tape && received == [] && !eof && !failed && pendings == ends == errors == 0
    {
      this.tape := tape;
      received := [];
      eof, failed, pendings, ends, errors := false, false, 0, 0, 0;
    }

    /** Give the first answer of the tape. */
    method GiveNext() returns (r: ReadReply)
      requires tape != []
      modifies this
      ensures r == old(tape)[0] && tape == old(tape)[1..] && Leads(old(Now()), Now())
      ensures received == old(received) + if r.ReadReady? then r.data else []
      ensures eof == (old(eof) || r == ReadReady([])) && failed == (old(failed) || r.ReadFailed?)
      ensures pendings == old(pendings) + Tick(r.ReadPending?)
      ensures ends == old(ends) + Tick(r == ReadReady([])) && errors == old(errors) + Tick(r.ReadFailed?)
    {
      LeadsNext(Now());
      r := tape[0];
      tape := tape[1..];
      failed, eof := failed || r.ReadFailed?, eof || r == ReadReady([]);
      pendings := pendings + Tick(r.ReadPending?);
      ends, errors := ends + Tick(r == ReadReady([])), errors + Tick(r.ReadFailed?);
      received := received + if r.ReadReady? then r.data else [];
    }

    /** Give only the first `n` bytes of it. */
    method GivePart(n: nat) returns (data: bytes)
      requires tape != [] && tape[0].ReadReady? && 0 < n < |tape[0].data|
      modifies this`tape, this`received
      ensures data == old(tape)[0].data[..n] && received == old(received) + data && Leads(old(Now()), Now())
      ensures TapeSize(tape) < old(TapeSize(tape))
    {
      LeadsPart(Now(), n);
      TapeCut(tape, n);
      data := tape[0].data[..n];
      tape := [ReadReady(tape[0].data[n..])] + tape[1..];
      received := received + data;
    }

    /** Read into a slice of `cap` bytes. An empty slice is always answered `Ok(0)`. */
    method PollRead(cap: nat) returns (r: ReadReply)
      modifies this
      ensures r.ReadReady? ==> |r.data| <= cap && received == old(received) + r.data
      ensures cap == 0 ==> r == ReadReady([])
      ensures !r.ReadReady? ==> received == old(received)
      ensures Leads(old(Now()), Now())
      ensures TapeSize(tape) <= old(TapeSize(tape))
      ensures 0 < cap && old(tape) != [] ==> TapeSize(tape) < old(TapeSize(tape))
      ensures eof == (old(eof) || (0 < cap && r == ReadReady([])))
      ensures failed == (old(failed) || r.ReadFailed?)
      ensures pendings == old(pendings) + (if r.ReadPending? then 1 else 0)
      ensures ends == old(ends) + Tick(0 < cap && r == ReadReady([])) && errors == old(errors) + Tick(r.ReadFailed?)
      ensures 0 < cap ==> TapeAnswers(old(tape), r)
    {
      if cap == 0 {
        LeadsSelf(Now());
        return ReadReady([]);
      }
      if tape == [] {
        LeadsWait(Now());
        pendings := pendings + 1;
        return ReadPending;
      }
      if tape[0].ReadReady? && cap < |tape[0].data| {
        var data := GivePart(cap);
        return ReadReady(data);
      }
      r := GiveNext();
      assert received + [] == received;
    }
  }

  /** The writable half of an inner stream. */
  class Sink {
    var tape: seq<WriteReply>
    /** All bytes taken so far. */
    var sent: bytes
    /** Whether an error has been reported, whether the stream has taken nothing of some data or
        said so in an error of kind `WriteZero`, and how often it was not ready. */
    ghost var failed: bool
    ghost var stalled: bool
    ghost var pendings: nat
    /** How often it has taken nothing or said so, reported another error, and was flushed, or
        closed, with success. */
    ghost var zeros: nat
    ghost var errors: nat
    /** How often it has answered with an error of any kind. */
    ghost var faults: nat
    ghost var flushes: nat
    ghost var closes: nat

    constructor (tape: seq<WriteReply>)
      ensures this.tape == tape && sent == [] && !failed && !stalled
      ensures pendings == zeros == errors == faults == flushes == closes == 0
    {
      this.tape := tape;
      sent := [];
      failed, stalled, pendings := false, false, 0;
      zeros, errors, faults, flushes, closes := 0, 0, 0, 0, 0;
    }

    /** The next answer is that nothing is taken. */
    ghost predicate TakesNothing()
      reads this`tape
    {
      tape != [] && (tape[0] == WriteReady(0) || tape[0] == WriteFailed(true))
    }

    /** The next answer is an error. */
    ghost predicate Fails()
      reads this`tape
    {
      tape != [] && tape[0].WriteFailed?
    }

    /** Offer `data`; the stream takes any prefix of it, possibly none. */
    method PollWrite(data: bytes) returns (r: WriteReply)
      modifies this`tape, this`sent, this`failed, this`stalled, this`pendings, this`zeros, this`errors, this`faults
      ensures r.WriteReady? ==> r.n <= |data| && sent == old(sent) + data[..r.n]
      ensures !r.WriteReady? ==> sent == old(sent)
      ensures |tape| <= old(|tape|)
      ensures !r.WritePending? || old(tape) != [] ==> |tape| < old(|tape|)
      ensures failed == (old(failed) || r == WriteFailed(false))
      ensures stalled == (old(stalled) || r == WriteFailed(true) || (data != [] && r == WriteReady(0)))
      ensures old(TakesNothing()) ==> r == WriteReady(0) || r == WriteFailed(true)
      ensures old(Fails()) ==> r.WriteFailed?
      ensures pendings == old(pendings) + (if r.WritePending? then 1 else 0)
      ensures zeros == old(zeros) + Tick(r == WriteFailed(true) || (data != [] && r == WriteReady(0)))
      ensures errors == old(errors) + Tick(r == WriteFailed(false)) && faults == old(faults) + Tick(r.WriteFailed?)
    {
      if tape == [] {
        pendings := pendings + 1;
        return WritePending;
      }
      r := tape[0];
      tape := tape[1..];
      if r.WritePending? {
        pendings := pendings + 1;
      }
      if r.WriteFailed? {
        failed, stalled := failed || !r.writeZero, stalled || r.writeZero;
        errors, zeros, faults := errors + Tick(!r.writeZero), zeros + Tick(r.writeZero), faults + 1;
      }
      if r.WriteReady? {
        r := WriteReady(if r.n <= |data| then r.n else |data|);
        sent := sent + data[..r.n];
        stalled := stalled || (data != [] && r.n == 0);
        zeros := zeros + Tick(data != [] && r.n == 0);
      }
    }

    /** Close the inner stream. */
    method PollClose() returns (r: WriteReply)
      modifies this
      ensures sent == old(sent) && flushes == old(flushes) && closes == old(closes) + Tick(r.WriteReady?)
      ensures failed == (old(failed) || r == WriteFailed(false)) && stalled == (old(stalled) || r == WriteFailed(true))
      ensures pendings == old(pendings) + Tick(r.WritePending?)
      ensures zeros == old(zeros) + Tick(r == WriteFailed(true))
      ensures errors == old(errors) + Tick(r == WriteFailed(false)) && faults == old(faults) + Tick(r.WriteFailed?)
    {
      r := PollWrite([]);
      closes := closes + Tick(r.WriteReady?);
    }

    /** Flush the inner stream. */
    method PollFlush() returns (r: WriteReply)
      modifies this
      ensures sent == old(sent) && |tape| <= old(|tape|) && (old(tape) != [] ==> |tape| < old(|tape|))
      ensures failed == (old(failed) || r == WriteFailed(false)) && stalled == (old(stalled) || r == WriteFailed(true))
      ensures pendings == old(pendings) + (if r.WritePending? then 1 else 0)
      ensures zeros == old(zeros) + Tick(r == WriteFailed(true))
      ensures errors == old(errors) + Tick(r == WriteFailed(false)) && faults == old(faults) + Tick(r.WriteFailed?)
      ensures flushes == old(flushes) + Tick(r.WriteReady?) && closes == old(closes)
    {
      r := PollWrite([]);
      flushes := flushes + Tick(r.WriteReady?);
    }
  }
}
