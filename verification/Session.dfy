/** A dialer and a listener with the network between them, over every run. */
module Session {
  import opened Io
  import opened Negotiation
  import opened Select
  import opened Agreement

  // ----- One direction of the network --------------------------------------------------

  /** `carried` of the bytes `sent` have been handed over in order, and the end of the stream only
      behind all of them and once the sender was `done`. */
  ghost predicate Carries(f: Flow, sent: bytes, carried: nat, done: bool) {
    && carried <= |sent| && f.received + TapeBytes(f.tape) == sent[..carried]
    && Orderly(f) && (Ending(f) ==> done && carried == |sent|)
  }

  /** Mentioned where it matters what a direction of the network carries. */
  predicate Going(i: int) {
    true
  }

  ghost predicate Way(f: Flow, sent: bytes, carried: nat, done: bool) {
    forall i {:trigger Going(i)} :: i == 0 && Going(i) ==> Carries(f, sent, carried, done)
  }

  /** What the receiver has is a part of what was sent, and all of it at the end. */
  lemma WayGives(f: Flow, sent: bytes, carried: nat, done: bool)
    requires Way(f, sent, carried, done)
    ensures f.received <= sent && (f.eof ==> done && f.received == sent)
  {
    assert Going(0);
    assert f.received <= f.received + TapeBytes(f.tape);
    if f.eof {
      assert f.received + [] == f.received && sent[..carried] == sent;
    }
  }

  lemma WayDrained(f: Flow, sent: bytes, carried: nat, done: bool)
    requires Way(f, sent, carried, done) && f.tape == [] && carried == |sent|
    ensures f.received == sent
  {
    assert Going(0);
    assert f.received + [] == f.received && sent[..carried] == sent;
  }

  lemma WayEnds(f: Flow, sent: bytes, carried: nat, done: bool, gone: bool)
    requires Way(f, sent, carried, done) && (Ending(f) ==> gone)
    ensures Way(f, sent, carried, gone)
  {
    assert Going(0);
  }

  lemma WayReads(a: Flow, b: Flow, sent: bytes, carried: nat, done: bool)
    requires Way(a, sent, carried, done) && Leads(a, b)
    ensures Way(b, sent, carried, done)
  {
    assert Going(0) && Flowing(0);
  }

  lemma WayWrites(f: Flow, sent: bytes, more: bytes, carried: nat, done: bool)
    requires Way(f, sent, carried, false) && sent <= more
    ensures Way(f, more, carried, done)
  {
    assert Going(0);
    assert more[..carried] == sent[..carried];
  }

  lemma {:induction false} EndsSnoc(tape: seq<ReadReply>, reply: ReadReply)
    requires EndsOnce(tape) && (ReadReady([]) in tape ==> !reply.ReadReady? || reply.data == [])
    ensures EndsOnce(tape + [reply])
  {
    if tape == [] {
      assert (tape + [reply])[1..] == [];
    } else {
      EndsSnoc(tape[1..], reply);
      TapeSnoc(tape[1..], reply);
      assert (tape + [reply])[1..] == tape[1..] + [reply];
    }
  }

  /** The network hands over `n` more bytes, or stalls, or breaks, or ends. */
  predicate MayGive(reply: ReadReply, sent: bytes, carried: nat, done: bool) {
    match reply
    case ReadReady(data) =>
      && carried + |data| <= |sent| && data == sent[carried..carried + |data|]
      && (data == [] ==> done && carried == |sent|)
    case _ => true
  }

  lemma {:induction false} WayGoesOn(f: Flow, reply: ReadReply, sent: bytes, carried: nat, done: bool)
    requires Way(f, sent, carried, done) && MayGive(reply, sent, carried, done)
    ensures Way(f.(tape := f.tape + [reply]), sent, carried + (if reply.ReadReady? then |reply.data| else 0), done)
  {
    assert Going(0);
    TapeGoesOn(f.received, f.tape, reply, sent, carried, if reply.ReadReady? then |reply.data| else 0);
    OrderlyGoesOn(f, reply);
  }

  lemma {:induction false} OrderlyGoesOn(f: Flow, reply: ReadReply)
    requires Orderly(f) && (Ending(f) ==> !reply.ReadReady? || reply.data == [])
    ensures Orderly(f.(tape := f.tape + [reply]))
  {
    EndsSnoc(f.tape, reply);
    TapeSnoc(f.tape, reply);
  }

  // ----- Runs --------------------------------------------------------------------------

  datatype Move =
    | PollDialer
    | PollListener
    /** The network takes what a side writes as it pleases. */
    | TakeFromDialer(taken: WriteReply)
    | TakeFromListener(taken: WriteReply)
    /** The network hands something over. */
    | GiveToDialer(given: ReadReply)
    | GiveToListener(given: ReadReply)

  /** What both sides should return. */
  function Agreed(names: seq<bytes>, supported: seq<bytes>): Verdict {
    var f := FirstCommon(names, supported);
    if f < |names| then Selected(names[f]) else Failed
  }

  class Session {
    const d: Dialer
    const l: Listener
    /** How many bytes have been handed over in each direction. */
    var toListener: nat
    var toDialer: nat

    ghost predicate Apart() {
      d.io != l.io && d.io.io != l.io.io && d.io.io.source != l.io.io.source && d.io.io.sink != l.io.io.sink
    }

    ghost predicate Ways()
      reads this, d, l`state, d.io.io.source, d.io.io.sink, l.io.io.source, l.io.io.sink
    {
      && Way(l.io.io.source.Now(), d.io.io.sink.sent, toListener, d.Over())
      && Way(d.io.io.source.Now(), l.io.io.sink.sent, toDialer, l.state.Finished?)
      && !(d.io.io.source.eof && l.io.io.source.eof)
    }

    ghost predicate Valid()
      reads this, d, d.io, d.io.io, d.io.io.source, d.io.io.sink, l, l.io, l.io.io, l.io.io.source, l.io.io.sink
    {
      && d.Valid() && l.Valid() && (forall i :: 0 <= i < |d.names| ==> Negotiable(d.names[i]))
      && Apart() && Ways()
    }

    /** Two machines that have just been created on two fresh streams. */
    constructor (d: Dialer, l: Listener)
      requires d.Valid() && l.Valid() && forall i :: 0 <= i < |d.names| ==> Negotiable(d.names[i])
      requires d.io != l.io && d.io.io != l.io.io && d.io.io.source != l.io.io.source && d.io.io.sink != l.io.io.sink
      requires var f := d.io.io.source.Now(); f.received == [] && f.tape == [] && !f.eof
      requires var f := l.io.io.source.Now(); f.received == [] && f.tape == [] && !f.eof
      requires d.io.io.sink.sent == l.io.io.sink.sent == []
      ensures Valid() && this.d == d && this.l == l
    {
      this.d, this.l := d, l;
      toListener, toDialer := 0, 0;
    }

    lemma AreJoined()
      requires Valid()
      ensures Joined(d, l)
    {
      WayGives(l.io.io.source.Now(), d.io.io.sink.sent, toListener, d.Over());
      WayGives(d.io.io.source.Now(), l.io.io.sink.sent, toDialer, l.state.Finished?);
    }

    method DoPollDialer()
      requires Valid() && !d.state.Done?
      modifies d, d.io, d.io.io, d.io.io.source, d.io.io.sink
      ensures Valid()
    {
      ghost var before, sent := d.io.io.source.Now(), d.io.io.sink.sent;
      WayGives(l.io.io.source.Now(), sent, toListener, d.Over());
      var r := d.Poll();
      WayReads(before, d.io.io.source.Now(), l.io.io.sink.sent, toDialer, l.state.Finished?);
      WayWrites(l.io.io.source.Now(), sent, d.io.io.sink.sent, toListener, d.Over());
    }

    method DoPollListener()
      requires Valid() && !l.state.Finished?
      modifies l, l.io, l.io.io, l.io.io.source, l.io.io.sink
      ensures Valid()
    {
      ghost var before, sent := l.io.io.source.Now(), l.io.io.sink.sent;
      WayGives(d.io.io.source.Now(), sent, toDialer, l.state.Finished?);
      var r := l.Poll();
      WayReads(before, l.io.io.source.Now(), d.io.io.sink.sent, toListener, d.Over());
      WayWrites(d.io.io.source.Now(), sent, l.io.io.sink.sent, toDialer, l.state.Finished?);
    }

    method DoGiveToDialer(given: ReadReply)
      requires Valid() && MayGive(given, l.io.io.sink.sent, toDialer, l.state.Finished?)
      modifies this`toDialer, d.io.io.source`tape
      ensures Valid()
    {
      WayGoesOn(d.io.io.source.Now(), given, l.io.io.sink.sent, toDialer, l.state.Finished?);
      d.io.io.source.tape := d.io.io.source.tape + [given];
      toDialer := toDialer + if given.ReadReady? then |given.data| else 0;
    }

    method DoGiveToListener(given: ReadReply)
      requires Valid() && MayGive(given, d.io.io.sink.sent, toListener, d.Over())
      modifies this`toListener, l.io.io.source`tape
      ensures Valid()
    {
      WayGoesOn(l.io.io.source.Now(), given, d.io.io.sink.sent, toListener, d.Over());
      l.io.io.source.tape := l.io.io.source.tape + [given];
      toListener := toListener + if given.ReadReady? then |given.data| else 0;
    }

    /** One move; a move that the network or a finished machine cannot make does nothing. */
    method Step(move: Move)
      requires Valid()
      modifies this, d, d.io, d.io.io, d.io.io.source, d.io.io.sink, l, l.io, l.io.io, l.io.io.source, l.io.io.sink
      ensures Valid()
    {
      match move
      case PollDialer =>
        if !d.state.Done? {
          DoPollDialer();
        }
      case PollListener =>
        if !l.state.Finished? {
          DoPollListener();
        }
      case TakeFromDialer(taken) => d.io.io.sink.tape := d.io.io.sink.tape + [taken];
      case TakeFromListener(taken) => l.io.io.sink.tape := l.io.io.sink.tape + [taken];
      case GiveToDialer(given) =>
        if MayGive(given, l.io.io.sink.sent, toDialer, l.state.Finished?) {
          DoGiveToDialer(given);
        }
      case GiveToListener(given) =>
        if MayGive(given, d.io.io.sink.sent, toListener, d.Over()) {
          DoGiveToListener(given);
        }
    }

    /** Every run, over every schedule, chunking and failure of the network: the two sides agree on
        the dialer's first name that the listener supports; they fail only if there is none or the
        other side lost its stream, and lose it only if an inner stream failed. So without such a
        failure each verdict is exactly that of the specification. A lazy dialer may settle on its
        last name before that is confirmed. */
    method Run(moves: seq<Move>)
      requires Valid()
      modifies this, d, d.io, d.io.io, d.io.io.source, d.io.io.sink, l, l.io, l.io.io, l.io.io.source, l.io.io.sink
      ensures Valid()
      ensures d.state.Done? ==> match d.state.verdict
        case Selected(name) => FirstCommon(d.names, l.protocols) < |d.names|
          && name == d.names[FirstCommon(d.names, l.protocols)]
        case Failed => FirstCommon(d.names, l.protocols) == |d.names| || l.state == Finished(IoError)
        case Optimistic(name) => d.version == V1Lazy && d.names != [] && name == d.names[|d.names| - 1]
        case verdict => verdict == IoError && (Failing(d.io.io) || Failing(l.io.io))
      ensures l.state.Finished? ==> match l.state.verdict
        case Selected(name) => FirstCommon(d.names, l.protocols) < |d.names|
          && name == d.names[FirstCommon(d.names, l.protocols)]
        case Failed => FirstCommon(d.names, l.protocols) == |d.names| || d.state == Done(IoError)
        case verdict => verdict == IoError && (Failing(d.io.io) || Failing(l.io.io))
      ensures !Failing(d.io.io) && !Failing(l.io.io) ==>
        && (d.Over() ==> d.state.verdict == Agreed(d.names, l.protocols))
        && (l.state.Finished? ==> l.state.verdict == Agreed(d.names, l.protocols))
      ensures d.state.AwaitProtocol? && (l.state.RecvHeader? || l.state.RecvMessage?) ==>
        l.io.io.source.received < d.io.io.sink.sent || d.io.io.source.received < l.io.io.sink.sent
    {
      for i := 0 to |moves|
        invariant Valid()
      {
        Step(moves[i]);
      }
      AreJoined();
      Agree(d, l);
      if d.state.AwaitProtocol? && (l.state.RecvHeader? || l.state.RecvMessage?) {
        NoDeadlock(d, l);
      }
    }
  }

  /** A new negotiation over two fresh streams. */
  method Start(names: seq<bytes>, offered: seq<bytes>, version: Version) returns (s: Session)
    requires forall i :: 0 <= i < |names| ==> Negotiable(names[i])
    ensures s.Valid() && s.d.names == names && s.d.version == version && s.l.protocols == Supported(offered)
    ensures fresh(s) && fresh(s.d) && fresh(s.d.io) && fresh(s.d.io.io) && fresh(s.d.io.io.source)
      && fresh(s.d.io.io.sink)
    ensures fresh(s.l) && fresh(s.l.io) && fresh(s.l.io.io) && fresh(s.l.io.io.source) && fresh(s.l.io.io.sink)
  {
    var dialerIn := new Source([]);
    var dialerOut := new Sink([]);
    var listenerIn := new Source([]);
    var listenerOut := new Sink([]);
    var d := new Dialer(dialerIn, dialerOut, names, version);
    var l := new Listener(listenerIn, listenerOut, offered);
    s := new Session(d, l);
  }
}
