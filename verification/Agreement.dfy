/** A dialer and a listener joined by two reliable byte streams agree, over every schedule
    and every chunking of the bytes between them. */
module Agreement {
  import opened Io
  import opened Multistream
  import opened Delimited
  import opened LengthDelimited
  import opened MessageIo
  import opened Negotiation
  import opened Select

  /** A message that arrives as it was sent. */
  predicate Carries(m: Message) {
    Canonical(m) && |Encoding(m)| <= MAX_FRAME_SIZE
  }

  predicate AllCarry(ms: seq<Message>) {
    forall i :: 0 <= i < |ms| ==> Carries(ms[i])
  }

  /** A name that can be negotiated. */
  predicate Negotiable(name: bytes) {
    Canonical(Protocol(name)) && |name| + 1 <= MAX_FRAME_SIZE
  }

  lemma {:induction false} EncodingAt(ms: seq<Message>, i: nat)
    requires i < |ms|
    ensures Encodings(ms)[i] == Encoding(ms[i])
  {
    if i < |ms| - 1 {
      EncodingAt(ms[..|ms| - 1], i);
    }
  }

  lemma EncodingsLegal(ms: seq<Message>)
    requires AllCarry(ms)
    ensures AllLegal(RULE, Encodings(ms))
  {
    forall i | 0 <= i < |ms|
      ensures Legal(RULE, Encodings(ms)[i])
    {
      EncodingAt(ms, i);
      Varint.TwoBytes(|Encoding(ms[i])|);
    }
  }

  /** What arrives of a run of messages is heard message by message. */
  lemma HearsMessages(said: seq<Message>, hearer: MessageIo)
    requires hearer.Valid() && AllCarry(said) && hearer.io.source.received <= Wire(Encodings(said))
    ensures hearer.health.Clean? && hearer.inbox <= said && hearer.io.frames <= Encodings(said)
    ensures hearer.io.source.received == Wire(Encodings(said)) ==> hearer.inbox == said && hearer.AtBoundary()
  {
    hearer.Open();
    EncodingsLegal(said);
    PrefixOfWire(RULE, Encodings(said), hearer.io.source.received);
    assert Judged(0) && !hearer.health.BadLength?;
    hearer.io.ReturnsItems();
    forall i | 0 <= i < |hearer.io.frames|
      ensures Decoding(hearer.io.frames[i]) == Ok(said[i])
    {
      EncodingAt(said, i);
      DecodeUndoesEncode(said[i]);
    }
    FramesAreMessages(hearer, said);
    if hearer.io.source.received == Wire(Encodings(said)) {
      assert hearer.io.frames == Encodings(said);
      NothingPartial(hearer.io);
    }
  }

  lemma NothingPartial(io: Framed)
    requires io.Reading() && io.source.received == Wire(io.frames)
    ensures io.readBuffer == []
  {
    assert |io.Partial()| == 0;
  }

  /** What is heard on one side of a stream was said on the other. */
  lemma HearsWhatIsSaid(speaker: MessageIo, hearer: MessageIo)
    requires speaker.Valid() && hearer.Valid() && AllCarry(speaker.outbox) && speaker.data == []
    requires hearer.io.source.received <= speaker.io.sink.sent
    ensures hearer.health.Clean? && hearer.inbox <= speaker.outbox
    ensures hearer.io.source.received == speaker.io.submitted ==> hearer.inbox == speaker.outbox && hearer.AtBoundary()
  {
    speaker.Submits();
    assert Wire(Encodings(speaker.outbox)) + [] == Wire(Encodings(speaker.outbox));
    HearsMessages(speaker.outbox, hearer);
  }

  lemma FramesAreMessages(hearer: MessageIo, said: seq<Message>)
    requires hearer.Valid() && !hearer.health.BadLength? && |hearer.io.frames| <= |said|
    requires forall i :: 0 <= i < |hearer.io.frames| ==> Decoding(hearer.io.frames[i]) == Ok(said[i])
    ensures hearer.health.Clean? && hearer.inbox <= said && |hearer.inbox| == |hearer.io.frames|
  {
    hearer.Open();
    var frames := hearer.io.frames;
    if hearer.health.BadFrame? {
      assert At(|frames| - 1);
      assert false;
    }
    forall i | 0 <= i < |hearer.inbox|
      ensures hearer.inbox[i] == said[i]
    {
      assert At(i);
    }
  }

  lemma {:induction false} ProposalsCarry(names: seq<bytes>, n: nat)
    requires n <= |names| && forall i :: 0 <= i < n ==> Negotiable(names[i])
    ensures AllCarry(Proposals(names, n))
  {
    FixedCarry();
    if 0 < n {
      ProposalsCarry(names, n - 1);
      NameCarries(names[n - 1]);
    }
  }

  lemma FixedCarry()
    ensures Carries(Header) && Carries(NotAvailable)
  {
    assert |Encoding(Header)| == 19 && |Encoding(NotAvailable)| == 3;
  }

  lemma NameCarries(name: bytes)
    requires Negotiable(name)
    ensures Carries(Protocol(name))
  {
    assert |Encoding(Protocol(name))| == |name| + 1;
  }

  lemma {:induction false} RepliesCarry(names: seq<bytes>, supported: seq<bytes>, n: nat)
    requires n <= |names| && forall i :: 0 <= i < n ==> Negotiable(names[i])
    ensures AllCarry(Replies(names, supported, n))
  {
    FixedCarry();
    if 0 < n {
      RepliesCarry(names, supported, n - 1);
      NameCarries(names[n - 1]);
    }
  }

  lemma OutboxFollows(l: Listener)
    requires l.Valid()
    ensures l.io.outbox <= ListenerOut(l.protocols, l.io.inbox)
  {
    assert Traced(0);
  }

  lemma OutCarries(names: seq<bytes>, protocols: seq<bytes>, inbox: seq<Message>)
    requires inbox <= Proposals(names, |names|) && forall i :: 0 <= i < |names| ==> Negotiable(names[i])
    ensures AllCarry(ListenerOut(protocols, inbox))
  {
    ListenerOnProposals(names, protocols, inbox);
    if inbox != [] {
      RepliesCarry(names, protocols, Answered(names, protocols, |inbox| - 1));
    }
  }

  lemma CarryPrefix(some: seq<Message>, all: seq<Message>)
    requires some <= all && AllCarry(all)
    ensures AllCarry(some)
  {
    forall i | 0 <= i < |some|
      ensures Carries(some[i])
    {
      assert some[i] == all[i];
    }
  }

  /** The two machines and the wires between them. The network is reliable: it delivers a
      prefix of what was sent, and end of file only when the other side is gone and all its
      bytes have been delivered. The side that stopped first saw no end of file. */
  ghost predicate Joined(d: Dialer, l: Listener)
    reads d, d.io, d.io.io, d.io.io.source, d.io.io.sink, l, l.io, l.io.io, l.io.io.source, l.io.io.sink
  {
    && d.Valid() && l.Valid()
    && (forall i :: 0 <= i < |d.names| ==> Negotiable(d.names[i]))
    && l.io.io.source.received <= d.io.io.sink.sent
    && d.io.io.source.received <= l.io.io.sink.sent
    && (l.io.io.source.eof ==> d.Over() && l.io.io.source.received == d.io.io.sink.sent)
    && (d.io.io.source.eof ==> l.state.Finished? && d.io.io.source.received == l.io.io.sink.sent)
    && !(d.io.io.source.eof && l.io.io.source.eof)
  }

  lemma ListenerHearsProposals(d: Dialer, l: Listener)
    requires Joined(d, l)
    ensures l.io.health.Clean? && l.io.inbox <= d.io.outbox <= Proposals(d.names, |d.names|)
    ensures l.io.io.source.received == d.io.io.submitted ==> l.io.inbox == d.io.outbox && l.io.AtBoundary()
  {
    assert Traced(0);
    ProposalsCarry(d.names, d.proposed);
    ProposalsPrefix(d.names, d.proposed, |d.names|);
    ProposalAt(d.names, |d.names|, 0);
    HearsWhatIsSaid(d.io, l.io);
  }

  lemma DialerHearsReplies(d: Dialer, l: Listener)
    requires Joined(d, l)
    ensures d.io.health.Clean? && d.io.inbox <= l.io.outbox <= ListenerOut(l.protocols, l.io.inbox)
    ensures d.io.io.source.received == l.io.io.submitted ==> d.io.inbox == l.io.outbox && d.io.AtBoundary()
  {
    ListenerHearsProposals(d, l);
    OutboxFollows(l);
    OutCarries(d.names, l.protocols, l.io.inbox);
    CarryPrefix(l.io.outbox, ListenerOut(l.protocols, l.io.inbox));
    HearsWhatIsSaid(l.io, d.io);
  }

  /** Where the two stand, in terms of how much each has consumed. */
  lemma Standing(d: Dialer, l: Listener)
    requires Joined(d, l) && d.names != []
    ensures var f := FirstCommon(d.names, l.protocols);
      && d.io.health.Clean? && l.io.health.Clean?
      && |d.io.inbox| <= |l.io.outbox| && |l.io.inbox| <= |d.io.outbox|
      && |l.io.outbox| + |l.owed| == |l.io.inbox| <= f + 2
      && l.view == (if l.io.inbox == [] then Fresh else if |l.io.inbox| <= f + 1 then Open
        else if f < |d.names| then Chosen(d.names[f]) else ListenerBroken)
      && (|l.io.inbox| == f + 2 ==> f < |d.names|)
      && d.view == (
           if d.io.inbox == [] then Waiting(0, false)
           else if |d.io.inbox| <= f + 1 && |d.io.inbox| <= |d.names| then Waiting(|d.io.inbox| - 1, true)
           else if |d.io.inbox| == f + 2 then Confirmed(f)
           else Exhausted)
      && (d.view.Exhausted? ==> f == |d.names|)
      && |d.io.outbox| == (if d.greeted then d.proposed + 1 else 0)
      && (l.io.io.source.received == d.io.io.submitted ==> |l.io.inbox| == |d.io.outbox|)
      && (d.io.io.source.received == l.io.io.submitted ==> |d.io.inbox| == |l.io.outbox|)
  {
    ListenerHearsProposals(d, l);
    DialerHearsReplies(d, l);
    assert Traced(0);
    AgreementOnCuts(d.names, l.protocols, d.io.inbox, l.io.inbox);
  }

  /** A dialer that is still waiting at the end of the stream faces a listener that lost it. */
  lemma DialerAtEof(d: Dialer, l: Listener)
    requires Joined(d, l) && d.names != [] && d.state == Done(Failed) && !d.view.Exhausted?
    ensures l.state == Finished(IoError)
  {
    assert !l.state.verdict.Selected? by {
      if l.state.verdict.Selected? {
        l.io.Flushed();
        Standing(d, l);
      }
    }
    assert !l.state.verdict.Violation? && !l.state.verdict.Garbled? by {
      ListenerIsServed(d, l);
    }
    assert !l.state.verdict.Failed? by {
      ListenerHearsProposals(d, l);
    }
  }

  /** An honest dialer gives the listener no cause for complaint. */
  lemma ListenerIsServed(d: Dialer, l: Listener)
    requires Joined(d, l) && d.names != [] && l.state.Finished?
    ensures !l.state.verdict.Violation? && !l.state.verdict.Garbled?
  {
    assert l.io.health.Clean? && !l.view.ListenerBroken? by {
      Standing(d, l);
    }
    OwedCarries(d, l);
  }

  /** The inner stream of one side has failed or has taken nothing. */
  ghost predicate Failing(io: Framed)
    reads io.source`failed, io.sink`failed, io.sink`stalled
  {
    io.source.failed || io.sink.failed || io.sink.stalled
  }

  /** An end inside a message means that the other side lost its stream. */
  lemma DialerLost(d: Dialer, l: Listener)
    requires Joined(d, l) && d.state == Done(IoError) && !Failing(d.io.io)
    ensures l.state == Finished(IoError) && Failing(l.io.io)
  {
    DialerHearsReplies(d, l);
    if l.state != Finished(IoError) {
      ListenerSettled(d, l);
    }
  }

  lemma ListenerSettled(d: Dialer, l: Listener)
    requires Joined(d, l) && l.state.Finished? && l.state.verdict != IoError
    ensures l.io.io.sink.sent == l.io.io.submitted
  {
    if d.names != [] {
      ListenerIsServed(d, l);
    } else {
      NothingToOffer(d, l);
    }
    l.io.Flushed();
  }

  lemma ListenerLost(d: Dialer, l: Listener)
    requires Joined(d, l) && l.state == Finished(IoError) && !Failing(l.io.io)
    ensures d.state == Done(IoError) && Failing(d.io.io)
  {
    ListenerHearsProposals(d, l);
    if d.names == [] {
      NothingToOffer(d, l);
      if d.state != Done(IoError) {
        ListenerHearsNothing(d, l);
      }
    } else if d.state != Done(IoError) {
      DialerIsServed(d, l);
      d.io.Flushed();
    }
  }

  lemma DialerIsServed(d: Dialer, l: Listener)
    requires Joined(d, l) && d.names != [] && d.state.Done?
    ensures !d.state.verdict.Violation? && !d.state.verdict.Garbled?
  {
    Standing(d, l);
  }

  /** From a dialer without names nothing arrives. */
  lemma ListenerHearsNothing(d: Dialer, l: Listener)
    requires Joined(d, l) && d.io.io.sink.sent == []
    ensures l.io.AtBoundary()
  {
    assert Encodings([]) == [] && Wire([]) == [];
    HearsMessages([], l.io);
  }

  lemma DialerVerdict(d: Dialer, l: Listener)
    requires Joined(d, l) && d.names != [] && d.state.Done?
    ensures var f := FirstCommon(d.names, l.protocols);
      match d.state.verdict
      case Selected(name) => f < |d.names| && name == d.names[f]
      case Failed => f == |d.names| || l.state == Finished(IoError)
      case IoError => true
      case Optimistic(name) => d.version == V1Lazy && name == d.names[|d.names| - 1]
      case _ => false
  {
    Standing(d, l);
    if d.state.verdict.Failed? && !d.view.Exhausted? {
      DialerAtEof(d, l);
    }
  }

  lemma ListenerVerdict(d: Dialer, l: Listener)
    requires Joined(d, l) && d.names != [] && l.state.Finished?
    ensures var f := FirstCommon(d.names, l.protocols);
      match l.state.verdict
      case Selected(name) => f < |d.names| && name == d.names[f]
      case Failed => f == |d.names| || d.state == Done(IoError)
      case IoError => true
      case _ => false
  {
    Standing(d, l);
    if l.state.verdict.Failed? {
      assert d.Over() && l.io.io.source.received == d.io.io.sink.sent;
      assert !d.io.io.source.eof;
      DialerVerdict(d, l);
    }
    if l.state.verdict.Violation? {
      assert Traced(0);
      OwedCarries(d, l);
    }
  }

  lemma OwedCarries(d: Dialer, l: Listener)
    requires Joined(d, l)
    ensures forall i :: 0 <= i < |l.owed| ==> !TooLong(l.owed[i])
  {
    ListenerHearsProposals(d, l);
    OutCarries(d.names, l.protocols, l.io.inbox);
    OwedFollows(l);
    CarryRest(l.io.outbox, l.owed);
  }

  lemma OwedFollows(l: Listener)
    requires l.Valid()
    ensures l.owed != [] ==> ListenerOut(l.protocols, l.io.inbox) == l.io.outbox + l.owed
  {
    assert Traced(0);
  }

  lemma CarryRest(some: seq<Message>, rest: seq<Message>)
    requires rest != [] ==> AllCarry(some + rest)
    ensures forall i :: 0 <= i < |rest| ==> !TooLong(rest[i])
  {
    forall i | 0 <= i < |rest|
      ensures !TooLong(rest[i])
    {
      assert (some + rest)[|some| + i] == rest[i];
    }
  }

  lemma NothingToOffer(d: Dialer, l: Listener)
    requires Joined(d, l) && d.names == []
    ensures d.state.Done? ==> d.state.verdict.Failed? || d.state.verdict.IoError?
    ensures l.state.Finished? ==> l.state.verdict.Failed? || l.state.verdict.IoError?
  {
    ListenerHearsProposals(d, l);
    DialerHearsReplies(d, l);
    OwedCarries(d, l);
    ListenerOnProposals(d.names, l.protocols, l.io.inbox);
    assert Traced(0);
  }

  /** Agreement. A name selected on either side is the dialer's first name that the listener
      supports. Neither side ever sees a protocol violation. A side that fails does so
      because there is no such name, or because the other side lost its stream, and a stream is
      lost only because one of the two inner streams failed. */
  lemma Agree(d: Dialer, l: Listener)
    requires Joined(d, l)
    ensures var f := FirstCommon(d.names, l.protocols);
      && (d.state.Done? ==> match d.state.verdict
            case Selected(name) => f < |d.names| && name == d.names[f]
            case Failed => f == |d.names| || l.state == Finished(IoError)
            case IoError => Failing(d.io.io) || Failing(l.io.io)
            case Optimistic(name) => d.version == V1Lazy && d.names != [] && name == d.names[|d.names| - 1]
            case _ => false)
      && (l.state.Finished? ==> match l.state.verdict
            case Selected(name) => f < |d.names| && name == d.names[f]
            case Failed => f == |d.names| || d.state == Done(IoError)
            case IoError => Failing(d.io.io) || Failing(l.io.io)
            case _ => false)
  {
    if d.names == [] {
      NothingToOffer(d, l);
    } else {
      if d.state.Done? {
        DialerVerdict(d, l);
      }
      if l.state.Finished? {
        ListenerVerdict(d, l);
      }
    }
    if d.state == Done(IoError) && !Failing(d.io.io) {
      DialerLost(d, l);
    }
    if l.state == Finished(IoError) && !Failing(l.io.io) {
      ListenerLost(d, l);
    }
  }

  /** No deadlock: while both sides wait to read, some byte is still on its way. */
  lemma NoDeadlock(d: Dialer, l: Listener)
    requires Joined(d, l) && d.state.AwaitProtocol? && (l.state.RecvHeader? || l.state.RecvMessage?)
    ensures l.io.io.source.received < d.io.io.sink.sent || d.io.io.source.received < l.io.io.sink.sent
  {
    d.io.Flushed();
    l.io.Flushed();
    Standing(d, l);
  }

  /** Leaving invalid names out does not change what a dialer of valid names can agree on. */
  lemma {:induction false} SupportedIsEnough(names: seq<bytes>, offered: seq<bytes>)
    requires forall i :: 0 <= i < |names| ==> IsName(names[i])
    ensures FirstCommon(names, Supported(offered)) == FirstCommon(names, offered)
  {
    if names != [] && names[0] !in offered {
      SupportedIsEnough(names[1..], offered);
    }
  }
}
