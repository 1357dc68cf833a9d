/** The two-party protocol of multistream-select, on messages: what a dialer and a listener
    do is a function of the messages each has consumed. */
module Negotiation {
  import opened Io
  import opened Multistream

  // ----- The dialer --------------------------------------------------------------------

  /** Where a dialer stands after the messages it has consumed: proposal `i` is open, was
      confirmed, all were rejected, or the peer broke the protocol. */
  datatype DialerView = Waiting(i: nat, headerReceived: bool) | Confirmed(i: nat) | Exhausted | DialerBroken

  function DialerStep(names: seq<bytes>, view: DialerView, m: Message): (v: DialerView)
    ensures v.Waiting? ==> v.i < |names| || view.Waiting?
  {
    if !view.Waiting? || view.i >= |names| then DialerBroken
    else if m == Header && !view.headerReceived then Waiting(view.i, true)
    else if m == Protocol(names[view.i]) then Confirmed(view.i)
    else if m == NotAvailable then
      if view.i + 1 < |names| then Waiting(view.i + 1, view.headerReceived) else Exhausted
    else DialerBroken
  }

  function DialerAfter(names: seq<bytes>, inbox: seq<Message>): (v: DialerView)
    ensures v.Waiting? ==> v.i < |names|
    ensures v.Confirmed? ==> v.i < |names|
  {
    if inbox == [] then
      if names == [] then Exhausted else Waiting(0, false)
    else DialerStep(names, DialerAfter(names, inbox[..|inbox| - 1]), inbox[|inbox| - 1])
  }

  lemma DialerSnoc(names: seq<bytes>, inbox: seq<Message>, m: Message)
    ensures DialerAfter(names, inbox + [m]) == DialerStep(names, DialerAfter(names, inbox), m)
  {
    assert (inbox + [m])[..|inbox|] == inbox;
  }

  /** How many headers, and how many rejections, were heard. */
  function Headers(inbox: seq<Message>): nat {
    if inbox == [] then 0 else Headers(inbox[..|inbox| - 1]) + Tick(inbox[|inbox| - 1].Header?)
  }

  function Rejections(inbox: seq<Message>): nat {
    if inbox == [] then 0 else Rejections(inbox[..|inbox| - 1]) + Tick(inbox[|inbox| - 1].NotAvailable?)
  }

  /** One header at most, at any time, and otherwise rejections only. */
  ghost predicate Rejected(inbox: seq<Message>, i: nat) {
    Headers(inbox) <= 1 && Rejections(inbox) == i && |inbox| == i + Headers(inbox)
  }

  /** Where a dialer stands, whatever it was sent: it waits for the answer to the name behind those
      rejected, has that name confirmed, or has none left; anything else breaks the protocol. */
  lemma {:induction false} DialerMeans(names: seq<bytes>, inbox: seq<Message>)
    ensures var v := DialerAfter(names, inbox); var k := |inbox| - 1;
      && (v.Waiting? <==> Rejections(inbox) < |names| && Rejected(inbox, Rejections(inbox)))
      && (v.Waiting? ==> v.i == Rejections(inbox) && v.headerReceived == (Headers(inbox) == 1))
      && (v.Confirmed? <==>
            && inbox != [] && Rejections(inbox) < |names| && Rejected(inbox[..k], Rejections(inbox))
            && inbox[k] == Protocol(names[Rejections(inbox)]))
      && (v.Confirmed? ==> v.i == Rejections(inbox))
      && (v.Exhausted? <==>
            Rejected(inbox, |names|) && (inbox == [] || inbox[k] == NotAvailable))
      && Headers(inbox) + Rejections(inbox) <= |inbox|
  {
    if inbox != [] {
      var k := |inbox| - 1;
      DialerMeans(names, inbox[..k]);
    }
  }

  /** The header and the first `n` proposals. */
  function Proposals(names: seq<bytes>, n: nat): (ms: seq<Message>)
    requires n <= |names|
    ensures |ms| == n + 1
  {
    if n == 0 then [Header] else Proposals(names, n - 1) + [Protocol(names[n - 1])]
  }

  lemma {:induction false} ProposalsPrefix(names: seq<bytes>, n: nat, m: nat)
    requires n <= m <= |names|
    ensures Proposals(names, n) <= Proposals(names, m)
  {
    if n < m {
      ProposalsPrefix(names, n, m - 1);
    }
  }

  lemma ProposalAt(names: seq<bytes>, n: nat, i: nat)
    requires i <= n <= |names|
    ensures Proposals(names, n)[i] == if i == 0 then Header else Protocol(names[i - 1])
  {
    ProposalsPrefix(names, i, n);
  }

  // ----- The listener ------------------------------------------------------------------

  datatype ListenerView = Fresh | Open | Chosen(name: bytes) | ListenerBroken {
    /** Further messages are listened to. */
    predicate Listens() {
      Fresh? || Open?
    }
  }

  /** One message consumed by a listener: its new standing and its answer, if any. */
  function ListenerStep(supported: seq<bytes>, view: ListenerView, m: Message): (ListenerView, seq<Message>) {
    if view.Fresh? && m.Header? then (Open, [Header])
    else if view.Open? && m.ListProtocols? then (Open, [Protocols(supported)])
    else if view.Open? && m.Protocol? then
      if m.name in supported then (Chosen(m.name), [m]) else (Open, [NotAvailable])
    else (ListenerBroken, [])
  }

  function ListenerAfter(supported: seq<bytes>, inbox: seq<Message>): ListenerView {
    if inbox == [] then Fresh
    else ListenerStep(supported, ListenerAfter(supported, inbox[..|inbox| - 1]), inbox[|inbox| - 1]).0
  }

  function ListenerOut(supported: seq<bytes>, inbox: seq<Message>): seq<Message> {
    if inbox == [] then []
    else
      var before := inbox[..|inbox| - 1];
      ListenerOut(supported, before) + ListenerStep(supported, ListenerAfter(supported, before), inbox[|inbox| - 1]).1
  }

  lemma ListenerSnoc(supported: seq<bytes>, inbox: seq<Message>, m: Message)
    ensures var step := ListenerStep(supported, ListenerAfter(supported, inbox), m);
            && ListenerAfter(supported, inbox + [m]) == step.0
            && ListenerOut(supported, inbox + [m]) == ListenerOut(supported, inbox) + step.1
  {
    assert (inbox + [m])[..|inbox|] == inbox;
  }

  /** The answer to a message, wherever it stands. */
  function Answer(supported: seq<bytes>, m: Message): Message {
    match m
    case ListProtocols => Protocols(supported)
    case Protocol(name) => if name in supported then m else NotAvailable
    case _ => Header
  }

  /** A header, then requests for the list and proposals that are not supported. */
  ghost predicate Browses(supported: seq<bytes>, inbox: seq<Message>) {
    && inbox != [] && inbox[0] == Header
    && forall i :: 1 <= i < |inbox| ==>
         inbox[i].ListProtocols? || (inbox[i].Protocol? && inbox[i].name !in supported)
  }

  lemma BrowsesOn(supported: seq<bytes>, inbox: seq<Message>)
    requires inbox != []
    ensures var k := |inbox| - 1; var m := inbox[k];
      Browses(supported, inbox) <==>
        if k == 0 then m == Header
        else Browses(supported, inbox[..k]) && (m.ListProtocols? || (m.Protocol? && m.name !in supported))
  {
    var k := |inbox| - 1;
    assert forall i :: 0 <= i < k ==> inbox[..k][i] == inbox[i];
  }

  /** Where a listener stands, whatever it was sent: it listens on after a header, requests for the
      list and unsupported proposals, and has chosen the first supported name behind these; anything
      else breaks the protocol. */
  lemma {:induction false} ListenerMeans(supported: seq<bytes>, inbox: seq<Message>)
    ensures var v := ListenerAfter(supported, inbox); var k := |inbox| - 1;
      && (v.Fresh? <==> inbox == [])
      && (v.Open? <==> Browses(supported, inbox))
      && (v.Chosen? <==>
            inbox != [] && Browses(supported, inbox[..k]) && inbox[k].Protocol? && inbox[k].name in supported)
      && (v.Chosen? ==> inbox[k] == Protocol(v.name))
  {
    if inbox != [] {
      var k := |inbox| - 1;
      ListenerMeans(supported, inbox[..k]);
      BrowsesOn(supported, inbox);
    }
  }

  /** Unless the protocol was broken, each message has been answered, in order. */
  lemma {:induction false} AnswersInTurn(supported: seq<bytes>, inbox: seq<Message>)
    requires !ListenerAfter(supported, inbox).ListenerBroken?
    ensures var out := ListenerOut(supported, inbox);
      |out| == |inbox| && forall i :: 0 <= i < |inbox| ==> out[i] == Answer(supported, inbox[i])
  {
    if inbox != [] {
      var k := |inbox| - 1;
      AnswersInTurn(supported, inbox[..k]);
      assert forall i :: 0 <= i < k ==> inbox[..k][i] == inbox[i];
    }
  }

  /** Listeners of the same standing give the same answer. */
  lemma SameStep(supported: seq<bytes>, a: seq<Message>, b: seq<Message>, m: Message) returns (step: seq<Message>)
    requires ListenerAfter(supported, a) == ListenerAfter(supported, b)
    ensures ListenerAfter(supported, a + [m]) == ListenerAfter(supported, b + [m])
    ensures ListenerOut(supported, a + [m]) == ListenerOut(supported, a) + step
    ensures ListenerOut(supported, b + [m]) == ListenerOut(supported, b) + step
  {
    ListenerSnoc(supported, a, m);
    ListenerSnoc(supported, b, m);
    step := ListenerStep(supported, ListenerAfter(supported, a), m).1;
  }

  /** Asking for the list of names is answered with exactly the supported ones and disturbs nothing: a
      listener that listens for proposals goes on as if it had not been asked. */
  lemma {:induction false} ListingDisturbsNothing(supported: seq<bytes>, before: seq<Message>, after: seq<Message>)
    returns (more: seq<Message>)
    requires ListenerAfter(supported, before) == Open
    ensures ListenerAfter(supported, before + [ListProtocols] + after) == ListenerAfter(supported, before + after)
    ensures ListenerOut(supported, before + after) == ListenerOut(supported, before) + more
    ensures ListenerOut(supported, before + [ListProtocols] + after) ==
            ListenerOut(supported, before) + [Protocols(supported)] + more
    decreases |after|
  {
    if after == [] {
      assert before + [ListProtocols] + after == before + [ListProtocols] && before + after == before;
      ListenerSnoc(supported, before, ListProtocols);
      more := [];
    } else {
      var k := |after| - 1;
      var front, m := after[..k], after[k];
      var rest := ListingDisturbsNothing(supported, before, front);
      assert before + after == (before + front) + [m];
      assert before + [ListProtocols] + after == (before + [ListProtocols] + front) + [m];
      var step := SameStep(supported, before + front, before + [ListProtocols] + front, m);
      Assoc(ListenerOut(supported, before), rest, step);
      Assoc(ListenerOut(supported, before) + [Protocols(supported)], rest, step);
      more := rest + step;
    }
  }

  /** The answers to the header and the first `n` proposals. */
  function Replies(names: seq<bytes>, supported: seq<bytes>, n: nat): (ms: seq<Message>)
    requires n <= |names|
    ensures |ms| == n + 1
  {
    if n == 0 then [Header]
    else Replies(names, supported, n - 1) + [if names[n - 1] in supported then Protocol(names[n - 1]) else NotAvailable]
  }

  lemma {:induction false} RepliesPrefix(names: seq<bytes>, supported: seq<bytes>, n: nat, m: nat)
    requires n <= m <= |names|
    ensures Replies(names, supported, n) <= Replies(names, supported, m)
  {
    if n < m {
      RepliesPrefix(names, supported, n, m - 1);
    }
  }

  // ----- What the two agree on ---------------------------------------------------------

  /** The position of the first name in `names` that is supported; its length if none is. */
  function FirstCommon(names: seq<bytes>, supported: seq<bytes>): (k: nat)
    ensures k <= |names|
    ensures k < |names| ==> names[k] in supported
    ensures forall i :: 0 <= i < k ==> names[i] !in supported
  {
    if names == [] || names[0] in supported then 0 else 1 + FirstCommon(names[1..], supported)
  }

  /** How many answers the first `k` proposals get: none follows a confirmation. */
  function Answered(names: seq<bytes>, supported: seq<bytes>, k: nat): (n: nat)
    requires k <= |names|
    ensures n <= k && n <= FirstCommon(names, supported) + 1
  {
    if k <= FirstCommon(names, supported) then k else FirstCommon(names, supported) + 1
  }

  /** Where a listener stands that has heard the header and `k` proposals, or nothing. */
  function StandsAt(names: seq<bytes>, supported: seq<bytes>, k: int): ListenerView {
    var f := FirstCommon(names, supported);
    if k < 0 then Fresh else if k <= f then Open
    else if k == f + 1 && f < |names| then Chosen(names[f]) else ListenerBroken
  }

  /** What it has answered. */
  function RepliesTo(names: seq<bytes>, supported: seq<bytes>, k: int): seq<Message>
    requires k <= |names|
  {
    if k < 0 then [] else Replies(names, supported, Answered(names, supported, k))
  }

  /** A listener fed by an honest dialer. */
  lemma {:induction false} ListenerOnProposals(names: seq<bytes>, supported: seq<bytes>, inbox: seq<Message>)
    requires inbox <= Proposals(names, |names|)
    ensures ListenerAfter(supported, inbox) == StandsAt(names, supported, |inbox| - 1)
    ensures ListenerOut(supported, inbox) == RepliesTo(names, supported, |inbox| - 1)
  {
    if inbox != [] {
      var k := |inbox| - 1;
      ListenerOnProposals(names, supported, inbox[..k]);
      ProposalAt(names, |names|, k);
      OneProposal(names, supported, k, inbox[k]);
    }
  }

  /** What the next message of an honest dialer does to a listener. */
  lemma OneProposal(names: seq<bytes>, supported: seq<bytes>, k: nat, m: Message)
    requires k <= |names| && m == if k == 0 then Header else Protocol(names[k - 1])
    ensures ListenerStep(supported, StandsAt(names, supported, k - 1), m).0 == StandsAt(names, supported, k)
    ensures RepliesTo(names, supported, k - 1) + ListenerStep(supported, StandsAt(names, supported, k - 1), m).1 ==
            RepliesTo(names, supported, k)
  {
  }

  /** A dialer fed by an honest listener. */
  lemma {:induction false} DialerOnReplies(names: seq<bytes>, supported: seq<bytes>, n: nat, inbox: seq<Message>)
    requires names != []
    requires n <= |names| && n <= FirstCommon(names, supported) + 1 && inbox <= Replies(names, supported, n)
    ensures var m, f := |inbox| - 1, FirstCommon(names, supported);
            DialerAfter(names, inbox) ==
              if m < 0 then Waiting(0, false)
              else if m <= f && m < |names| then Waiting(m, true)
              else if m == f + 1 then Confirmed(f)
              else Exhausted
  {
    if inbox != [] {
      var m := |inbox| - 1;
      DialerOnReplies(names, supported, n, inbox[..m]);
      RepliesPrefix(names, supported, m, n);
      assert inbox[m] == Replies(names, supported, m)[m];
    }
  }

  /** The number of messages a dialer may have submitted: the header and its proposals up to
      the one that is open or was confirmed. */
  function MaySend(view: DialerView, names: seq<bytes>): nat {
    if view.Waiting? || view.Confirmed? then view.i + 2 else |names| + 1
  }

  /** Agreement on every consistent cut of a run: each side has consumed a prefix of what
      the other has submitted. Then neither sees a protocol violation, a confirmed proposal
      is the first common name and so is the listener's choice, and a dialer runs out of
      names only if there is no common one. */
  lemma AgreementOnCuts(names: seq<bytes>, supported: seq<bytes>, dialerIn: seq<Message>, listenerIn: seq<Message>)
    requires names != []
    requires listenerIn <= Proposals(names, |names|)
    requires |listenerIn| <= MaySend(DialerAfter(names, dialerIn), names)
    requires dialerIn <= ListenerOut(supported, listenerIn)
    ensures var f := FirstCommon(names, supported);
      && |dialerIn| <= |listenerIn| <= f + 2
      && ListenerAfter(supported, listenerIn) == (
           if listenerIn == [] then Fresh
           else if |listenerIn| <= f + 1 then Open
           else Chosen(names[f]))
      && (listenerIn != [] ==> ListenerOut(supported, listenerIn) == Replies(names, supported, |listenerIn| - 1))
      && DialerAfter(names, dialerIn) == (
           if dialerIn == [] then Waiting(0, false)
           else if |dialerIn| <= f + 1 && |dialerIn| <= |names| then Waiting(|dialerIn| - 1, true)
           else if |dialerIn| == f + 2 then Confirmed(f)
           else Exhausted)
      && (DialerAfter(names, dialerIn).Exhausted? ==> f == |names|)
  {
    if listenerIn != [] {
      ListenerOnProposals(names, supported, listenerIn);
      DialerOnReplies(names, supported, Answered(names, supported, |listenerIn| - 1), dialerIn);
    }
  }
}
