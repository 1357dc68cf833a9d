/** A lazy dialer that has settled on its last name, the listener at the other end, and the streams
    their applications get, over every run. */
module LazySession {
  import opened Io
  import opened Multistream
  import opened Delimited
  import opened MessageIo
  import opened Negotiation
  import opened Select
  import opened Agreement
  import opened Negotiated
  import opened Upgrade
  import opened Session

  datatype LazyMove =
    /** The dialer's application. */
    | PollDialerStream
    | WriteDialer(data: bytes)
    | ReadDialer(cap: nat)
    | DropDialer
    /** The listener, and its application once a name is selected. */
    | PollTheListener
    | TakeStream
    | PollListenerStream
    | WriteListener(data: bytes)
    | ReadListener(cap: nat)
    | DropListener
    /** The network takes what a side writes as it pleases, and hands something over. */
    | TakeFromTheDialer(taken: WriteReply)
    | TakeFromTheListener(taken: WriteReply)
    | GiveToTheDialer(given: ReadReply)
    | GiveToTheListener(given: ReadReply)

  /** A lazy dialer that has settled on its last name has proposed all of them, and has heard all
      others rejected. */
  lemma SettledOnLast(d: Dialer)
    requires d.Valid() && d.state.Done? && d.state.verdict.Optimistic?
    ensures d.names != [] && d.state.verdict.name == d.names[|d.names| - 1]
    ensures d.io.Valid() && d.io.health.Clean? && d.io.data == [] && d.io.outbox == Proposals(d.names, |d.names|)
    ensures DialerAfter(d.names, d.io.inbox).Waiting? && DialerAfter(d.names, d.io.inbox).i == |d.names| - 1
  {
    assert Traced(0);
  }

  class LazySession {
    const names: seq<bytes>
    const n: Negotiated
    const l: Listener
    /** The stream that the listener's application has taken. */
    var stream: Negotiated?
    var toListener: nat
    var toDialer: nat
    /** Whether a side has dropped its stream. */
    var dialerGone: bool
    var listenerGone: bool
    /** Whether taking the stream back has failed, and why a poll of the dialer's stream did. */
    var panicked: bool
    var failure: Option<Error>

    ghost function Proposed(): seq<Message> {
      Proposals(names, |names|)
    }

    /** The stream, if it has been taken. */
    ghost function Taken(): set<object>
      reads this
    {
      if stream == null then {} else {stream}
    }

    ghost predicate Apart() {
      n.io != l.io && n.io.io != l.io.io && n.io.io.source != l.io.io.source && n.io.io.sink != l.io.io.sink
    }

    /** The lazy dialer has proposed all its names and waits for the answer to the last. */
    ghost predicate Dialing()
      reads this, n, n.io, n.io.io, n.io.io.source`received, n.io.io.source`eof, n.io.io.source`failed
      reads n.io.io.sink`sent, n.io.io.sink`failed
    {
      && names != [] && (forall i :: 0 <= i < |names| ==> Negotiable(names[i]))
      && n.Valid() && n.expected && n.io.outbox == Proposed() && n.protocol == names[|names| - 1]
      && DialerAfter(names, n.before).Waiting? && DialerAfter(names, n.before).i == |names| - 1
      && (failure.Some? ==> n.Justified(failure.value))
      && !panicked
    }

    /** The listener negotiates, or its application has the stream. */
    ghost predicate Listening()
      reads this, l, l.io, l.io.io, l.io.io.source`received, l.io.io.source`eof, l.io.io.source`failed
      reads l.io.io.sink`sent, l.io.io.sink`failed, l.io.io.sink`stalled, Taken()
    {
      if stream == null then l.Valid()
      else
        && stream.io == l.io && stream != n && stream.Valid() && stream.state.Completed? && !stream.expected
        && l.Tracks() && l.owed == [] && l.view == Chosen(stream.protocol)
    }

    ghost predicate Ways()
      reads this, n.io.io.source, n.io.io.sink, l.io.io.source, l.io.io.sink
    {
      && Way(l.io.io.source.Now(), n.io.io.sink.sent, toListener, dialerGone)
      && Way(n.io.io.source.Now(), l.io.io.sink.sent, toDialer, listenerGone)
    }

    ghost predicate Valid()
      reads this, n, n.io, n.io.io, n.io.io.source, n.io.io.sink, l, l.io, l.io.io, l.io.io.source, l.io.io.sink
      reads Taken()
    {
      Apart() && Dialing() && Listening() && Ways()
    }

    /** A session whose lazy dialer has settled on its last name. `listenerGone` may be set, and has
        to be if the end of the listener's stream is under way. */
    constructor (s: Session, n: Negotiated, listenerGone: bool)
      requires s.Valid() && s.d.state.Done? && s.d.state.verdict.Optimistic?
      requires n.Valid() && n.expected && n.io == s.d.io && n.before == s.d.io.inbox
      requires n.protocol == s.d.names[|s.d.names| - 1]
      requires Ending(s.d.io.io.source.Now()) ==> listenerGone
      ensures Valid() && names == s.d.names && l == s.l && this.n == n && stream == null && failure == None
    {
      SettledOnLast(s.d);
      WayEnds(s.d.io.io.source.Now(), s.l.io.io.sink.sent, s.toDialer, s.l.state.Finished?, listenerGone);
      this.names, this.n, this.l := s.d.names, n, s.l;
      stream := null;
      toListener, toDialer := s.toListener, s.toDialer;
      dialerGone, this.listenerGone := false, listenerGone;
      panicked, failure := false, None;
    }

    // ----- What holds in every state of a run -----------------------------------------

    /** What the listener has heard and said. */
    lemma ListenerKnows()
      requires Listening()
      ensures Listens(l.io.io.frames, l.io.inbox, l.io.io.source.received)
      ensures l.io.outbox <= ListenerOut(l.protocols, l.io.inbox)
      ensures l.io.io.sink.sent <= Wire(Encodings(l.io.outbox)) + l.io.data
      ensures l.io.data != [] || stream != null ==> l.view == ListenerAfter(l.protocols, l.io.inbox) && l.view.Chosen?
      ensures l.io.data != [] || stream != null ==> l.io.outbox == ListenerOut(l.protocols, l.io.inbox)
      ensures l.io.inbox != [] ==> ListenerAfter(l.protocols, l.io.inbox[..|l.io.inbox| - 1]).Listens()
    {
      assert Traced(0);
      if stream == null {
        l.io.Listening();
        l.io.Submits();
      } else {
        stream.Open();
        assert Spoken(|l.io.outbox|);
      }
    }

    lemma DialerKnows()
      requires Dialing()
      ensures n.Base() && n.io.io.sink.sent + n.io.io.writeBuffer == Wire(Encodings(Proposed())) + n.io.data
    {
      n.Holds();
      assert Spoken(|n.io.outbox|);
    }

    /** The listener has heard a part of the proposals, or first of all the proposals. */
    lemma ListenerHears()
      requires Valid()
      ensures Comparable(l.io.inbox, Proposed())
      ensures Proposed() <= l.io.inbox ==> Wire(Encodings(Proposed())) <= l.io.io.source.received
      ensures l.io.inbox == Proposed() && |l.io.io.frames| == |l.io.inbox| ==> l.io.io.frames == Encodings(Proposed())
      ensures AllCarry(Proposed()) && Follow(l.io.io.frames, Proposed())
      ensures |l.io.io.frames| < |Proposed()| ==> Readable(l.io.io.frames, l.io.io.source.received)
    {
      ListenerKnows();
      DialerKnows();
      WayGives(l.io.io.source.Now(), n.io.io.sink.sent, toListener, dialerGone);
      ProposalsCarry(names, |names|);
      HeardComparable(Proposed(), n.io.data, l.io.io.frames, l.io.inbox, l.io.io.source.received);
    }

    ghost function Expected(): seq<Message> {
      Answers(names, l.protocols)
    }

    /** The dialer has heard a part of the answers to its proposals. */
    lemma DialerHears()
      requires Valid()
      ensures n.io.inbox == n.before + n.heard && n.io.inbox <= Expected()
      ensures |names| - 1 <= FirstCommon(names, l.protocols) && |Expected()| == |names| + 1
      ensures if n.before == [] then |names| == 1 else |n.before| == |names|
      ensures n.io.inbox == Expected() ==>
        Wire(Encodings(Expected())) <= n.io.io.source.received && Expected() <= l.io.outbox
      ensures n.io.inbox == Expected() && |n.io.io.frames| == |n.io.inbox| ==> n.io.io.frames == Encodings(Expected())
      ensures AllCarry(Expected()) && Follow(n.io.io.frames, Expected())
      ensures |n.io.io.frames| < |Expected()| ==> Readable(n.io.io.frames, n.io.io.source.received)
    {
      DialerKnows();
      Compared();
      Within(names, l.protocols, n.before, n.heard);
    }

    lemma Compared()
      requires Valid() && n.Base()
      ensures Comparable(n.io.inbox, Expected())
      ensures Expected() <= n.io.inbox ==>
        Wire(Encodings(Expected())) <= n.io.io.source.received && Expected() <= l.io.outbox
      ensures n.io.inbox == Expected() && |n.io.io.frames| == |n.io.inbox| ==> n.io.io.frames == Encodings(Expected())
      ensures AllCarry(Expected()) && Follow(n.io.io.frames, Expected())
      ensures |n.io.io.frames| < |Expected()| ==> Readable(n.io.io.frames, n.io.io.source.received)
    {
      ListenerKnows();
      ListenerHears();
      OutComparable(names, l.protocols, l.io.inbox, l.io.outbox);
      WayGives(n.io.io.source.Now(), l.io.io.sink.sent, toDialer, listenerGone);
      RepliesCarry(names, l.protocols, Answered(names, l.protocols, |names|));
      if l.io.data != [] {
        ChosenAnswersAll(names, l.protocols, l.io.inbox);
      }
      HeardOfOne(Expected(), l.io.outbox, l.io.data, n.io.io.frames, n.io.inbox, n.io.io.source.received);
    }

    /** When the confirmation is heard, the last name is the first supported one, and all the
        proposals have reached the listener. */
    lemma ConfirmationComesLast()
      requires Valid() && n.Confirming()
      ensures FirstCommon(names, l.protocols) == |names| - 1 && n.protocol in l.protocols
      ensures n.io.inbox == Expected() && Proposed() <= l.io.inbox && l.io.outbox == Expected()
      ensures Wire(Encodings(Proposed())) <= l.io.io.source.received
    {
      DialerHears();
      ConfirmedIsAll(names, l.protocols, n.before, n.heard);
      ListenerKnows();
      ListenerHears();
      AnswersNeedProposals(names, l.protocols, l.io.inbox);
      ChosenAtLast(names, l.protocols, l.io.inbox);
    }

    /** When the confirmation is heard, every negotiation byte has been sent: taking the stream
        back does not fail. */
    lemma ConfirmedMeansSent()
      requires Valid() && n.Confirming()
      ensures n.io.io.writeBuffer == []
    {
      ConfirmationComesLast();
      DialerKnows();
      WayGives(l.io.io.source.Now(), n.io.io.sink.sent, toListener, dialerGone);
      assert |n.io.io.sink.sent| + |n.io.io.writeBuffer| == |Wire(Encodings(Proposed()))| + |n.io.data|;
    }

    /** When the last name is supported, it is the first supported one. */
    lemma SupportedIsFirst()
      requires Valid() && n.protocol in l.protocols
      ensures FirstCommon(names, l.protocols) == |names| - 1
    {
      DialerHears();
    }

    /** The upgrade boundary. If the listener supports the name, its application's stream is for that
        name, and yields the data of the dialer's application from the first byte on: a part of it,
        and all of it once all that was sent has arrived. */
    lemma UpgradeBoundary()
      requires Valid() && stream != null && n.protocol in l.protocols
      ensures stream.protocol == n.protocol && stream.input <= n.io.data
      ensures l.io.io.source.received == n.io.io.sink.sent ==> stream.input == n.io.data
    {
      SupportedIsFirst();
      stream.Open();
      ListenerKnows();
      ListenerHears();
      ChosenExactly(names, l.protocols, l.io.inbox);
      DialerKnows();
      WayGives(l.io.io.source.Now(), n.io.io.sink.sent, toListener, dialerGone);
      Behind(Wire(Encodings(Proposed())), stream.input, n.io.io.sink.sent, n.io.io.writeBuffer, n.io.data);
    }

    /** A stream of messages and data that is read past the messages. */
    lemma Behind(messages: bytes, input: bytes, sent: bytes, buffered: bytes, data: bytes)
      requires messages + input <= sent && sent + buffered == messages + data && (data != [] ==> buffered == [])
      ensures input <= data && (messages + input == sent ==> input == data)
    {
      assert |sent| + |buffered| == |messages| + |data|;
      assert input == (messages + input)[|messages|..];
      assert data == (messages + data)[|messages|..];
    }

    /** The same in the other direction, once the dialer's stream is complete. */
    lemma AnswersComeFirst()
      requires Valid() && n.state.Completed?
      ensures n.protocol in l.protocols && l.io.outbox == Expected() && n.input <= l.io.data
      ensures n.io.io.source.received == l.io.io.sink.sent ==> n.input == l.io.data
    {
      n.Open();
      ConfirmationComesLast();
      DialerHears();
      SaidByListener();
      WayGives(n.io.io.source.Now(), l.io.io.sink.sent, toDialer, listenerGone);
      Behind(Wire(Encodings(Expected())), n.input, l.io.io.sink.sent, l.io.io.writeBuffer, l.io.data);
    }

    lemma SaidByListener()
      requires Listening()
      ensures l.io.io.sink.sent + l.io.io.writeBuffer == Wire(Encodings(l.io.outbox)) + l.io.data
      ensures l.io.data != [] ==> l.io.io.writeBuffer == []
    {
      assert Spoken(|l.io.outbox|);
      if stream == null {
        l.io.Open();
      } else {
        stream.Open();
      }
    }

    /** A refusal means that the listener does not support the name. */
    lemma RefusalIsRight()
      requires Valid() && failure == Some(Refused)
      ensures n.protocol !in l.protocols
    {
      DialerHears();
      RefusedIsUnsupported(names, l.protocols, n.before, n.heard);
    }

    /** Until it completes, the dialer's stream has met nothing but messages. */
    lemma Understood()
      requires Valid() && !n.state.Completed?
      ensures n.io.health.Clean?
    {
      Unfinished();
      if !n.io.health.Clean? {
        DialerHears();
        StillAnswers(names, l.protocols, n.before, n.heard);
        NothingOdd(n.io, Expected());
      }
    }

    lemma Unfinished()
      requires n.Valid() && !n.state.Completed?
      ensures n.io.Valid() && (n.io.health.Clean? || n.heard == [] || n.heard == [Header])
    {
      n.Open();
    }

    /** The next frame of a run of messages is one. */
    lemma NothingOdd(io: MessageIo, said: seq<Message>)
      requires io.Valid() && |io.inbox| < |said| && AllCarry(said) && Follow(io.io.frames, said)
      requires |io.io.frames| < |said| ==> Readable(io.io.frames, io.io.source.received)
      ensures io.health.Clean?
    {
      io.OpenReads();
      assert Judged(0);
      if io.health.BadFrame? {
        FollowDecodes(io.io.frames, said, |io.inbox|);
        assert At(|io.inbox|);
      }
    }

    /** The dialer sees no protocol violation. */
    lemma NoViolation()
      requires Valid()
      ensures failure != Some(BadMessage) && failure != Some(BadFrameLength)
    {
      if failure == Some(BadMessage) || failure == Some(BadFrameLength) {
        Understood();
        NoSecondHeader();
      }
    }

    lemma NoSecondHeader()
      requires Valid()
      ensures 1 < |n.heard| ==> n.heard[|n.heard| - 1] != Header
    {
      DialerHears();
      if 1 < |n.heard| {
        RepliesAt(names, l.protocols, |names|, |n.io.inbox| - 1);
      }
    }

    /** The stream ends before the confirmation only if the listener has dropped it. */
    lemma EndIsRight()
      requires Valid() && failure == Some(UnexpectedEnd)
      ensures listenerGone && n.io.io.source.received == l.io.io.sink.sent
    {
      WayGives(n.io.io.source.Now(), l.io.io.sink.sent, toDialer, listenerGone);
    }

    /** The stream fails only if an inner stream did, or if the listener dropped it inside a message. */
    lemma LossIsRight()
      requires Valid() && failure == Some(StreamError) && !n.io.io.sink.failed && !n.io.io.source.failed
      ensures listenerGone && n.io.io.source.received == l.io.io.sink.sent && !n.io.AtBoundary()
    {
      WayGives(n.io.io.source.Now(), l.io.io.sink.sent, toDialer, listenerGone);
    }

    /** If the listener supports the name, its negotiation ends with that name, unless an inner stream
        failed or the dialer dropped its stream. */
    lemma ListenerVerdict()
      requires Valid() && stream == null && l.state.Finished? && n.protocol in l.protocols
      ensures match l.state.verdict
        case Selected(name) => name == n.protocol
        case Failed => dialerGone
        case IoError => Failing(l.io.io) || (dialerGone && !l.io.AtBoundary())
        case _ => false
    {
      WayGives(l.io.io.source.Now(), n.io.io.sink.sent, toListener, dialerGone);
      ListenerStands();
    }

    /** If the listener supports the name, it stands to it and has met nothing but messages. */
    lemma ListenerStands()
      requires Valid() && stream == null && n.protocol in l.protocols
      ensures l.view.Listens() || l.view == Chosen(n.protocol)
      ensures (l.view.Listens() ==> l.io.health.Clean?) && (|l.owed| == 1 ==> !TooLong(l.owed[0]))
    {
      SupportedIsFirst();
      ListenerKnows();
      ListenerHears();
      StillProposals(names, l.protocols, l.io.inbox);
      OwesNothingLong();
      if l.view.Listens() {
        NothingOdd(l.io, Proposed());
      } else {
        ChosenExactly(names, l.protocols, l.io.inbox);
      }
    }

    lemma OwesNothingLong()
      requires l.Tracks() && l.io.inbox <= Proposed() && forall i :: 0 <= i < |names| ==> Negotiable(names[i])
      ensures l.view == ListenerAfter(l.protocols, l.io.inbox) && (|l.owed| == 1 ==> !TooLong(l.owed[0]))
    {
      assert Traced(0);
      OutCarries(names, l.protocols, l.io.inbox);
      assert |l.owed| == 1 ==> (l.io.outbox + l.owed)[|l.io.outbox|] == l.owed[0];
    }

    // ----- Moves ----------------------------------------------------------------------

    /** A poll of the dialer's stream has been made. It does not panic. */
    method AfterPoll(r: Outcome)
      requires Valid() && (r.Panics? <==> n.Confirming() && n.io.io.writeBuffer != [])
      requires r.Fails? ==> n.Justified(r.error)
      modifies this`panicked, this`failure
      ensures Valid() && !r.Panics?
    {
      if n.Confirming() {
        ConfirmedMeansSent();
      }
      panicked := r.Panics?;
      failure := if r.Fails? then Some(r.error) else failure;
    }

    method DoPollDialer()
      requires Valid() && !dialerGone && !n.state.Invalid?
      modifies this`panicked, this`failure, n, n.io, n.io.io, n.io.io.source, n.io.io.sink
      ensures Valid()
    {
      ghost var before, sent := n.io.io.source.Now(), n.io.io.sink.sent;
      var r := n.Poll();
      LeadsKeeps(before, n.io.io.source.Now());
      WayReads(before, n.io.io.source.Now(), l.io.io.sink.sent, toDialer, listenerGone);
      WayWrites(l.io.io.source.Now(), sent, n.io.io.sink.sent, toListener, dialerGone);
      AfterPoll(r);
    }

    method DoReadDialer(cap: nat) returns (r: Outcome, data: bytes)
      requires Valid() && !dialerGone && !n.state.Invalid?
      modifies this`panicked, this`failure, n, n.io, n.io.io, n.io.io.source, n.io.io.sink
      ensures Valid() && Leads(old(n.io.io.source.Now()), n.io.io.source.Now())
      ensures n.input == old(n.input) + data && l.io.data == old(l.io.data)
      ensures old(n.state).Completed? ==>
        && n.state.Completed? && Passes(cap, old(n.io.io.source.tape), r, data)
        && n.io.io.source.received == old(n.io.io.source.received) + data
        && (0 < cap && old(n.io.io.source.tape) != [] ==>
              TapeSize(n.io.io.source.tape) < old(TapeSize(n.io.io.source.tape)))
    {
      ghost var before, sent := n.io.io.source.Now(), n.io.io.sink.sent;
      r, data := n.PollRead(cap);
      LeadsKeeps(before, n.io.io.source.Now());
      WayReads(before, n.io.io.source.Now(), l.io.io.sink.sent, toDialer, listenerGone);
      WayWrites(l.io.io.source.Now(), sent, n.io.io.sink.sent, toListener, dialerGone);
      AfterPoll(r);
    }

    method DoWriteDialer(data: bytes)
      requires Valid() && !dialerGone && !n.state.Invalid?
      modifies n.io`data, n.io.io`writeBuffer, n.io.io`submitted, n.io.io.sink
      ensures Valid()
    {
      ghost var sent := n.io.io.sink.sent;
      var r := n.PollWrite(data);
      WayWrites(l.io.io.source.Now(), sent, n.io.io.sink.sent, toListener, dialerGone);
    }

    method DoPollListener()
      requires Valid() && !listenerGone && stream == null && !l.state.Finished?
      modifies l, l.io, l.io.io, l.io.io.source, l.io.io.sink
      ensures Valid()
    {
      ghost var before, sent := l.io.io.source.Now(), l.io.io.sink.sent;
      var r := l.Poll();
      WayReads(before, l.io.io.source.Now(), n.io.io.sink.sent, toListener, dialerGone);
      WayWrites(n.io.io.source.Now(), sent, l.io.io.sink.sent, toDialer, listenerGone);
    }

    /** The listener's application takes the stream: both buffers are empty. */
    method DoTakeStream()
      requires Valid() && stream == null && l.state.Finished? && l.state.verdict.Selected?
      modifies this`stream
      ensures Valid() && stream != null && fresh(stream)
    {
      stream := new Negotiated.Complete(l.io, l.state.verdict.name);
    }

    method DoPollStream()
      requires Valid() && !listenerGone && stream != null
      modifies stream, l.io, l.io.io, l.io.io.source, l.io.io.sink
      ensures Valid()
    {
      ghost var before, sent := l.io.io.source.Now(), l.io.io.sink.sent;
      var r := stream.Poll();
      WayReads(before, l.io.io.source.Now(), n.io.io.sink.sent, toListener, dialerGone);
      WayWrites(n.io.io.source.Now(), sent, l.io.io.sink.sent, toDialer, listenerGone);
    }

    method DoReadListener(cap: nat) returns (r: Outcome, data: bytes)
      requires Valid() && !listenerGone && stream != null
      modifies stream, l.io, l.io.io, l.io.io.source, l.io.io.sink
      ensures Valid() && Passes(cap, old(l.io.io.source.tape), r, data)
      ensures Leads(old(l.io.io.source.Now()), l.io.io.source.Now())
      ensures stream.input == old(stream.input) + data && l.io.io.source.received == old(l.io.io.source.received) + data
      ensures 0 < cap && old(l.io.io.source.tape) != [] ==>
        TapeSize(l.io.io.source.tape) < old(TapeSize(l.io.io.source.tape))
    {
      ghost var before, sent := l.io.io.source.Now(), l.io.io.sink.sent;
      r, data := stream.PollRead(cap);
      WayReads(before, l.io.io.source.Now(), n.io.io.sink.sent, toListener, dialerGone);
      WayWrites(n.io.io.source.Now(), sent, l.io.io.sink.sent, toDialer, listenerGone);
    }

    method DoWriteListener(data: bytes)
      requires Valid() && !listenerGone && stream != null
      modifies l.io`data, l.io.io`writeBuffer, l.io.io`submitted, l.io.io.sink
      ensures Valid()
    {
      ghost var sent := l.io.io.sink.sent;
      var r := stream.PollWrite(data);
      WayWrites(n.io.io.source.Now(), sent, l.io.io.sink.sent, toDialer, listenerGone);
    }

    method DoGiveDialer(given: ReadReply)
      requires Valid() && MayGive(given, l.io.io.sink.sent, toDialer, listenerGone)
      modifies this`toDialer, n.io.io.source`tape
      ensures Valid()
    {
      WayGoesOn(n.io.io.source.Now(), given, l.io.io.sink.sent, toDialer, listenerGone);
      n.io.io.source.tape := n.io.io.source.tape + [given];
      toDialer := toDialer + if given.ReadReady? then |given.data| else 0;
    }

    method DoGiveListener(given: ReadReply)
      requires Valid() && MayGive(given, n.io.io.sink.sent, toListener, dialerGone)
      modifies this`toListener, l.io.io.source`tape
      ensures Valid()
    {
      WayGoesOn(l.io.io.source.Now(), given, n.io.io.sink.sent, toListener, dialerGone);
      l.io.io.source.tape := l.io.io.source.tape + [given];
      toListener := toListener + if given.ReadReady? then |given.data| else 0;
    }

    method DialerMove(move: LazyMove)
      requires Valid()
      modifies this`panicked, this`failure, this`dialerGone, n, n.io, n.io.io, n.io.io.source, n.io.io.sink
      ensures Valid()
    {
      if !dialerGone && !n.state.Invalid? {
        match move
        case PollDialerStream => DoPollDialer();
        case WriteDialer(data) => DoWriteDialer(data);
        case ReadDialer(cap) =>
          var r, data := DoReadDialer(cap);
        case _ =>
      }
      if move.DropDialer? {
        dialerGone := true;
      }
    }

    method ListenerMove(move: LazyMove)
      requires Valid()
      modifies this`stream, this`listenerGone, l, l.io, l.io.io, l.io.io.source, l.io.io.sink, Taken()
      ensures Valid() && (stream == old(stream) || fresh(stream))
    {
      if !listenerGone {
        if stream == null {
          if move.PollTheListener? && !l.state.Finished? {
            DoPollListener();
          } else if move.TakeStream? && l.state.Finished? && l.state.verdict.Selected? {
            DoTakeStream();
          }
        } else {
          match move
          case PollListenerStream => DoPollStream();
          case WriteListener(data) => DoWriteListener(data);
          case ReadListener(cap) =>
            var r, data := DoReadListener(cap);
          case _ =>
        }
      }
      if move.DropListener? {
        listenerGone := true;
      }
    }

    method NetworkMove(move: LazyMove)
      requires Valid()
      modifies this`toListener, this`toDialer, n.io.io.source, n.io.io.sink, l.io.io.source, l.io.io.sink
      ensures Valid()
    {
      match move
      case TakeFromTheDialer(taken) => n.io.io.sink.tape := n.io.io.sink.tape + [taken];
      case TakeFromTheListener(taken) => l.io.io.sink.tape := l.io.io.sink.tape + [taken];
      case GiveToTheDialer(given) =>
        if MayGive(given, l.io.io.sink.sent, toDialer, listenerGone) {
          DoGiveDialer(given);
        }
      case GiveToTheListener(given) =>
        if MayGive(given, n.io.io.sink.sent, toListener, dialerGone) {
          DoGiveListener(given);
        }
      case _ =>
    }

    /** Every run, over every schedule, chunking and failure, with data written at any time and
        streams dropped at any time. Taking the dialer's stream back never fails. If the listener
        supports the name, its stream is for that name and yields the dialer's data, a part of it,
        and all of it when all has arrived. The dialer's stream completes only if the listener
        supports the name, and then yields the listener's data likewise. It is refused only if the
        listener does not, it ends early only if the listener dropped it, it fails only if an inner
        stream failed or the listener dropped it inside a message, and it sees no protocol violation.
        If the listener supports the name, its verdict is that name, a failure only if the dialer
        dropped its stream, or an I/O error with its cause. */
    method Run(moves: seq<LazyMove>)
      requires Valid()
      modifies this, n, n.io, n.io.io, n.io.io.source, n.io.io.sink
      modifies l, l.io, l.io.io, l.io.io.source, l.io.io.sink, Taken()
      ensures Valid() && !panicked
      ensures stream != null && n.protocol in l.protocols ==>
        && stream.protocol == n.protocol && stream.input <= n.io.data
        && (l.io.io.source.received == n.io.io.sink.sent ==> stream.input == n.io.data)
      ensures n.state.Completed? ==>
        && n.protocol in l.protocols && n.input <= l.io.data
        && (n.io.io.source.received == l.io.io.sink.sent ==> n.input == l.io.data)
      ensures failure == Some(Refused) ==> n.protocol !in l.protocols
      ensures failure == Some(UnexpectedEnd) ==> listenerGone
      ensures failure == Some(StreamError) ==>
        n.io.io.sink.failed || n.io.io.source.failed || (listenerGone && !n.io.AtBoundary())
      ensures failure != Some(BadMessage) && failure != Some(BadFrameLength)
      ensures !n.state.Completed? ==> n.io.health.Clean?
      ensures stream == null && l.state.Finished? && n.protocol in l.protocols ==> match l.state.verdict
        case Selected(name) => name == n.protocol
        case Failed => dialerGone
        case IoError => Failing(l.io.io) || (dialerGone && !l.io.AtBoundary())
        case _ => false
    {
      for k := 0 to |moves|
        invariant Valid() && (stream == old(stream) || fresh(stream))
      {
        DialerMove(moves[k]);
        ListenerMove(moves[k]);
        NetworkMove(moves[k]);
      }
      Outcomes();
    }

    /** Reading on hands out every byte that is under way, whatever waits and errors come between; so
        if the listener supports the name and all of the dialer's bytes are under way, all its data. */
    method ReadUpListener(cap: nat) returns (out: bytes)
      requires Valid() && stream != null && !listenerGone && 0 < cap
      modifies stream, l.io, l.io.io, l.io.io.source, l.io.io.sink
      ensures Valid() && l.io.io.source.tape == []
      ensures out == old(TapeBytes(l.io.io.source.tape)) && stream.input == old(stream.input) + out
      ensures n.protocol in l.protocols && toListener == |n.io.io.sink.sent| ==> stream.input == n.io.data
    {
      out := [];
      ghost var start := l.io.io.source.Now();
      LeadsSelf(start);
      while l.io.io.source.tape != []
        invariant Valid() && Leads(start, l.io.io.source.Now())
        invariant stream.input == old(stream.input) + out && l.io.io.source.received == start.received + out
        decreases TapeSize(l.io.io.source.tape)
      {
        ghost var before := l.io.io.source.Now();
        var r, data := DoReadListener(cap);
        LeadsOn(start, before, l.io.io.source.Now());
        Assoc(old(stream.input), out, data);
        Assoc(start.received, out, data);
        out := out + data;
      }
      AllRead(start, l.io.io.source.Now(), out);
      if n.protocol in l.protocols && toListener == |n.io.io.sink.sent| {
        WayDrained(l.io.io.source.Now(), n.io.io.sink.sent, toListener, dialerGone);
        UpgradeBoundary();
      }
    }

    /** The same for the dialer's stream once it is complete. */
    method ReadUpDialer(cap: nat) returns (out: bytes)
      requires Valid() && n.state.Completed? && !dialerGone && 0 < cap
      modifies this`panicked, this`failure, n, n.io, n.io.io, n.io.io.source, n.io.io.sink
      ensures Valid() && n.state.Completed? && n.io.io.source.tape == []
      ensures out == old(TapeBytes(n.io.io.source.tape)) && n.input == old(n.input) + out
      ensures toDialer == |l.io.io.sink.sent| ==> n.input == l.io.data
    {
      out := [];
      ghost var start := n.io.io.source.Now();
      LeadsSelf(start);
      while n.io.io.source.tape != []
        invariant Valid() && n.state.Completed? && Leads(start, n.io.io.source.Now())
        invariant n.input == old(n.input) + out && n.io.io.source.received == start.received + out
        decreases TapeSize(n.io.io.source.tape)
      {
        ghost var before := n.io.io.source.Now();
        var r, data := DoReadDialer(cap);
        LeadsOn(start, before, n.io.io.source.Now());
        Assoc(old(n.input), out, data);
        Assoc(start.received, out, data);
        out := out + data;
      }
      AllRead(start, n.io.io.source.Now(), out);
      if toDialer == |l.io.io.sink.sent| {
        WayDrained(n.io.io.source.Now(), l.io.io.sink.sent, toDialer, listenerGone);
        AnswersComeFirst();
      }
    }

    lemma Outcomes()
      requires Valid()
      ensures stream != null && n.protocol in l.protocols ==>
        && stream.protocol == n.protocol && stream.input <= n.io.data
        && (l.io.io.source.received == n.io.io.sink.sent ==> stream.input == n.io.data)
      ensures n.state.Completed? ==>
        && n.protocol in l.protocols && n.input <= l.io.data
        && (n.io.io.source.received == l.io.io.sink.sent ==> n.input == l.io.data)
      ensures failure == Some(Refused) ==> n.protocol !in l.protocols
      ensures failure == Some(UnexpectedEnd) ==> listenerGone
      ensures failure == Some(StreamError) ==>
        n.io.io.sink.failed || n.io.io.source.failed || (listenerGone && !n.io.AtBoundary())
      ensures failure != Some(BadMessage) && failure != Some(BadFrameLength)
      ensures !n.state.Completed? ==> n.io.health.Clean?
      ensures stream == null && l.state.Finished? && n.protocol in l.protocols ==> match l.state.verdict
        case Selected(name) => name == n.protocol
        case Failed => dialerGone
        case IoError => Failing(l.io.io) || (dialerGone && !l.io.AtBoundary())
        case _ => false
    {
      NoViolation();
      if !n.state.Completed? {
        Understood();
      }
      if failure == Some(UnexpectedEnd) {
        EndIsRight();
      }
      if failure == Some(StreamError) && !n.io.io.sink.failed && !n.io.io.source.failed {
        LossIsRight();
      }
      if stream == null && l.state.Finished? && n.protocol in l.protocols {
        ListenerVerdict();
      }
      if stream != null && n.protocol in l.protocols {
        UpgradeBoundary();
      }
      if n.state.Completed? {
        AnswersComeFirst();
      }
      if failure == Some(Refused) {
        RefusalIsRight();
      }
    }
  }

  /** The lazy dialer of a session returns its stream. */
  method Settle(s: Session, listenerGone: bool) returns (z: LazySession)
    requires s.Valid() && s.d.state.Done? && s.d.state.verdict.Optimistic?
    requires Ending(s.d.io.io.source.Now()) ==> listenerGone
    ensures z.Valid() && fresh(z) && fresh(z.n) && z.names == s.d.names && z.l == s.l && z.n.io == s.d.io
    ensures z.n.state.Expecting? && z.n.io.data == [] && z.stream == null
  {
    SettledOnLast(s.d);
    var n := new Negotiated(s.d.io, s.d.state.verdict.name);
    z := new LazySession(s, n, listenerGone);
  }
}
