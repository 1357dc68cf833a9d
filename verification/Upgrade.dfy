/** What a lazy dialer and a listener can have heard of each other, whatever data follows the
    negotiation on the wire. */
module Upgrade {
  import opened Io
  import opened Multistream
  import opened Delimited
  import opened LengthDelimited
  import opened MessageIo
  import opened Negotiation
  import opened Agreement

  ghost predicate Comparable(a: seq<Message>, b: seq<Message>) {
    a <= b || b <= a
  }

  // ----- Messages at the front of a stream ---------------------------------------------

  lemma {:induction false} EncodingsPrefix(ms: seq<Message>, ns: seq<Message>)
    requires ms <= ns
    ensures Encodings(ms) <= Encodings(ns)
    decreases |ns|
  {
    if |ms| < |ns| {
      EncodingsPrefix(ms, ns[..|ns| - 1]);
    } else {
      assert ms == ns;
    }
  }

  lemma {:induction false} SaidPrefix(ms: seq<Message>, ns: seq<Message>)
    requires ms <= ns
    ensures Wire(Encodings(ms)) <= Wire(Encodings(ns))
  {
    EncodingsPrefix(ms, ns);
    WirePrefix(Encodings(ms), Encodings(ns));
  }

  /** These frames begin the messages or begin with them. */
  ghost predicate Follow(frames: seq<bytes>, said: seq<Message>) {
    frames <= Encodings(said) || Encodings(said) <= frames
  }

  /** What follows these frames is not a bad length. */
  ghost predicate Readable(frames: seq<bytes>, received: bytes) {
    Wire(frames) <= received && Peel(RULE, received[|Wire(frames)|..]) != Bad
  }

  lemma {:induction false} NextIsReadable(frames: seq<bytes>, all: seq<bytes>, more: bytes, received: bytes)
    requires AllLegal(RULE, all) && frames <= all && Wire(frames) <= received <= Wire(all) + more
    requires |frames| < |all| || more == []
    ensures Readable(frames, received)
  {
    var rest := received[|Wire(frames)|..];
    if |frames| < |all| {
      var k := |frames|;
      assert all == frames + [all[k]] + all[k + 1..];
      WireConcat(frames + [all[k]], all[k + 1..]);
      WireSnoc(frames, all[k]);
      var next := Wire(all[k + 1..]) + more;
      Rejoin(Wire(frames), Frame(all[k]), Wire(all[k + 1..]), more);
      assert rest <= Frame(all[k]) + next;
      assert Weighed(k);
      PartIsReadable(RULE, all[k], next, rest);
    } else {
      assert frames == all && rest == [];
    }
  }

  lemma Rejoin(a: bytes, b: bytes, c: bytes, d: bytes)
    ensures a + b + c + d == a + (b + (c + d))
  {
  }

  /** What is heard of a stream that begins with these messages begins them or begins with them. */
  lemma {:induction false} HeardComparable(said: seq<Message>, more: bytes, frames: seq<bytes>, inbox: seq<Message>,
      received: bytes)
    requires Listens(frames, inbox, received) && AllCarry(said) && received <= Wire(Encodings(said)) + more
    ensures Comparable(inbox, said) && Follow(frames, said)
    ensures more == [] ==> inbox <= said && frames <= Encodings(said)
    ensures |frames| < |said| || more == [] ==> Readable(frames, received)
    ensures said <= inbox ==> Wire(Encodings(said)) <= received
    ensures inbox == said && |frames| == |inbox| ==> frames == Encodings(said)
  {
    var all := Encodings(said);
    EncodingsLegal(said);
    assert Wire(frames) <= Wire(all) + more;
    WireComparable(RULE, frames, all, more);
    forall i | 0 <= i < |inbox| && i < |said|
      ensures inbox[i] == said[i]
    {
      HeardAt(said, frames, inbox, i);
    }
    if said <= inbox {
      assert all <= frames;
      WirePrefix(all, frames);
    }
    if |frames| < |said| || more == [] {
      NextIsReadable(frames, all, more, received);
    }
  }

  lemma {:induction false} HeardAt(said: seq<Message>, frames: seq<bytes>, inbox: seq<Message>, i: nat)
    requires i < |inbox| <= |frames| && i < |said| && AllCarry(said) && Decodes(frames[..|inbox|], inbox)
    requires frames[i] == Encodings(said)[i]
    ensures inbox[i] == said[i]
  {
    EncodingAt(said, i);
    DecodeUndoesEncode(said[i]);
    assert At(i);
    assert frames[..|inbox|][i] == frames[i];
  }

  /** The bytes of some messages, and then the rest. */
  lemma {:induction false} Rest(some: seq<Message>, all: seq<Message>, data: bytes) returns (more: bytes)
    requires some <= all
    ensures Wire(Encodings(all)) + data == Wire(Encodings(some)) + more
  {
    SaidPrefix(some, all);
    var w, w' := Wire(Encodings(some)), Wire(Encodings(all));
    Split(w, w', data);
    more := w'[|w|..] + data;
  }

  lemma Split(w: bytes, w': bytes, data: bytes)
    requires w <= w'
    ensures w' + data == w + (w'[|w|..] + data)
  {
  }

  /** The same for a stream of which it is only known that its messages begin these or begin with
      them, and that data follows only in the second case. */
  lemma {:induction false} HeardOfOne(expected: seq<Message>, outbox: seq<Message>, data: bytes, frames: seq<bytes>,
      inbox: seq<Message>, received: bytes)
    requires Listens(frames, inbox, received) && AllCarry(expected) && received <= Wire(Encodings(outbox)) + data
    requires Comparable(outbox, expected) && (data != [] ==> expected <= outbox)
    ensures Comparable(inbox, expected) && Follow(frames, expected)
    ensures expected <= inbox ==> Wire(Encodings(expected)) <= received && expected <= outbox
    ensures inbox == expected && |frames| == |inbox| ==> frames == Encodings(expected)
    ensures |frames| < |expected| ==> Readable(frames, received)
  {
    if expected <= outbox {
      var more := Rest(expected, outbox, data);
      HeardComparable(expected, more, frames, inbox, received);
    } else {
      CarryPrefix(outbox, expected);
      EncodingsPrefix(outbox, expected);
      HeardComparable(outbox, [], frames, inbox, received);
    }
  }

  /** No frame among the messages is undecodable. */
  lemma {:induction false} FollowDecodes(frames: seq<bytes>, said: seq<Message>, i: nat)
    requires Follow(frames, said) && AllCarry(said) && i < |frames| && i < |said|
    ensures Decoding(frames[i]) == Ok(said[i])
  {
    EncodingAt(said, i);
    DecodeUndoesEncode(said[i]);
  }

  // ----- What the listener answers -----------------------------------------------------

  lemma {:induction false} OutMonotone(protocols: seq<bytes>, some: seq<Message>, all: seq<Message>)
    requires some <= all
    ensures ListenerOut(protocols, some) <= ListenerOut(protocols, all)
    decreases |all|
  {
    if |some| < |all| {
      OutMonotone(protocols, some, all[..|all| - 1]);
    } else {
      assert some == all;
    }
  }

  /** The answers to a dialer that proposes all its names. */
  function Answers(names: seq<bytes>, protocols: seq<bytes>): seq<Message> {
    Replies(names, protocols, Answered(names, protocols, |names|))
  }

  lemma {:induction false} AnswersToAll(names: seq<bytes>, protocols: seq<bytes>)
    ensures ListenerOut(protocols, Proposals(names, |names|)) == Answers(names, protocols)
  {
    ListenerOnProposals(names, protocols, Proposals(names, |names|));
  }

  /** Whatever follows the proposals, what the listener has submitted begins those answers or
      begins with them. */
  lemma {:induction false} OutComparable(names: seq<bytes>, protocols: seq<bytes>, inbox: seq<Message>,
      outbox: seq<Message>)
    requires Comparable(inbox, Proposals(names, |names|)) && outbox <= ListenerOut(protocols, inbox)
    ensures Comparable(outbox, Answers(names, protocols))
  {
    var all := Proposals(names, |names|);
    AnswersToAll(names, protocols);
    if inbox <= all {
      OutMonotone(protocols, inbox, all);
    } else {
      OutMonotone(protocols, all, inbox);
    }
  }

  /** A listener that has chosen a name has given them all. */
  lemma {:induction false} ChosenAnswersAll(names: seq<bytes>, protocols: seq<bytes>, inbox: seq<Message>)
    requires Comparable(inbox, Proposals(names, |names|)) && ListenerAfter(protocols, inbox).Chosen?
    ensures Answers(names, protocols) <= ListenerOut(protocols, inbox)
  {
    var all := Proposals(names, |names|);
    if inbox <= all {
      ListenerOnProposals(names, protocols, inbox);
    } else {
      AnswersToAll(names, protocols);
      OutMonotone(protocols, all, inbox);
    }
  }

  /** All answers are given only when all proposals have been heard. */
  lemma {:induction false} AnswersNeedProposals(names: seq<bytes>, protocols: seq<bytes>, inbox: seq<Message>)
    requires Comparable(inbox, Proposals(names, |names|)) && |names| + 1 <= |ListenerOut(protocols, inbox)|
    ensures Proposals(names, |names|) <= inbox
  {
    if inbox <= Proposals(names, |names|) {
      OutIsShort(names, protocols, inbox);
      assert inbox == Proposals(names, |names|);
    }
  }

  lemma {:induction false} OutIsShort(names: seq<bytes>, protocols: seq<bytes>, inbox: seq<Message>)
    requires inbox <= Proposals(names, |names|)
    ensures |ListenerOut(protocols, inbox)| <= |inbox|
  {
    ListenerOnProposals(names, protocols, inbox);
  }

  lemma {:induction false} ListenerStops(protocols: seq<bytes>, inbox: seq<Message>, k: nat)
    requires k < |inbox| && ListenerAfter(protocols, inbox[..k]).Chosen?
    ensures ListenerAfter(protocols, inbox) == ListenerBroken
    ensures ListenerOut(protocols, inbox) == ListenerOut(protocols, inbox[..k])
    decreases |inbox|
  {
    var n := |inbox| - 1;
    if k < n {
      assert inbox[..n][..k] == inbox[..k];
      ListenerStops(protocols, inbox[..n], k);
    }
  }

  /** When the last name is the first supported one, a listener that has heard all proposals has
      chosen it, answers nothing more, and is broken by any further message. */
  lemma {:induction false} ChosenAtLast(names: seq<bytes>, protocols: seq<bytes>, inbox: seq<Message>)
    requires names != [] && FirstCommon(names, protocols) == |names| - 1 && Proposals(names, |names|) <= inbox
    ensures ListenerOut(protocols, inbox) == Answers(names, protocols)
    ensures inbox == Proposals(names, |names|) ==> ListenerAfter(protocols, inbox) == Chosen(names[|names| - 1])
    ensures inbox != Proposals(names, |names|) ==> ListenerAfter(protocols, inbox) == ListenerBroken
  {
    var all := Proposals(names, |names|);
    AnswersToAll(names, protocols);
    ChosenAtAll(names, protocols);
    if |all| < |inbox| {
      assert inbox[..|all|] == all;
      ListenerStops(protocols, inbox, |all|);
    } else {
      assert inbox == all;
    }
  }

  lemma {:induction false} ChosenAtAll(names: seq<bytes>, protocols: seq<bytes>)
    requires names != [] && FirstCommon(names, protocols) == |names| - 1
    ensures ListenerAfter(protocols, Proposals(names, |names|)) == Chosen(names[|names| - 1])
  {
    ListenerOnProposals(names, protocols, Proposals(names, |names|));
  }

  /** The upgrade boundary: when the last name is the first supported one, a listener that has
      chosen a name has chosen that one, and has heard exactly the proposals. */
  lemma {:induction false} ChosenExactly(names: seq<bytes>, protocols: seq<bytes>, inbox: seq<Message>)
    requires names != [] && FirstCommon(names, protocols) == |names| - 1 && Comparable(inbox, Proposals(names, |names|))
    requires ListenerAfter(protocols, inbox).Chosen?
    ensures inbox == Proposals(names, |names|) && ListenerAfter(protocols, inbox) == Chosen(names[|names| - 1])
  {
    if inbox <= Proposals(names, |names|) {
      ListenerOnProposals(names, protocols, inbox);
    }
    ChosenAtLast(names, protocols, inbox);
  }

  /** A listener that listened when it consumed its last message has consumed proposals only, and is
      not broken; while it listens, a proposal is to come. */
  lemma {:induction false} StillProposals(names: seq<bytes>, protocols: seq<bytes>, inbox: seq<Message>)
    requires names != [] && FirstCommon(names, protocols) == |names| - 1 && Comparable(inbox, Proposals(names, |names|))
    requires inbox != [] ==> ListenerAfter(protocols, inbox[..|inbox| - 1]).Listens()
    ensures inbox <= Proposals(names, |names|) && !ListenerAfter(protocols, inbox).ListenerBroken?
    ensures ListenerAfter(protocols, inbox).Listens() ==> |inbox| < |Proposals(names, |names|)|
  {
    var all := Proposals(names, |names|);
    if |all| < |inbox| {
      ChosenAtLast(names, protocols, inbox[..|inbox| - 1]);
    }
    ListenerOnProposals(names, protocols, inbox);
  }

  // ----- What the lazy dialer hears ----------------------------------------------------

  lemma {:induction false} RepliesAt(names: seq<bytes>, supported: seq<bytes>, n: nat, j: nat)
    requires j <= n <= |names|
    ensures Replies(names, supported, n)[j] ==
            if j == 0 then Header else if names[j - 1] in supported then Protocol(names[j - 1]) else NotAvailable
  {
    if j < n {
      RepliesAt(names, supported, n - 1, j);
    }
  }

  lemma {:induction false} DialerStops(names: seq<bytes>, inbox: seq<Message>, k: nat)
    requires k < |inbox| && !DialerAfter(names, inbox[..k]).Waiting?
    ensures !DialerAfter(names, inbox).Waiting?
    decreases |inbox|
  {
    var n := |inbox| - 1;
    if k < n {
      assert inbox[..n][..k] == inbox[..k];
      DialerStops(names, inbox[..n], k);
    }
  }

  /** A dialer that waits for the answer to its last name has heard the others rejected. */
  lemma {:induction false} BeforeTheLast(names: seq<bytes>, protocols: seq<bytes>, before: seq<Message>)
    requires names != [] && Comparable(before, Answers(names, protocols))
    requires DialerAfter(names, before).Waiting? && DialerAfter(names, before).i == |names| - 1
    ensures |names| - 1 <= FirstCommon(names, protocols) && |Answers(names, protocols)| == |names| + 1
    ensures if before == [] then |names| == 1 else |before| == |names|
  {
    var answers, n := Answers(names, protocols), Answered(names, protocols, |names|);
    if before <= answers {
      DialerOnReplies(names, protocols, n, before);
    } else {
      DialerOnReplies(names, protocols, n, answers);
      assert before[..|answers|] == answers;
      DialerStops(names, before, |answers|);
    }
  }

  /** Of the confirmation no more is heard than the answers. */
  lemma {:induction false} Within(names: seq<bytes>, protocols: seq<bytes>, before: seq<Message>, heard: seq<Message>)
    requires names != [] && Comparable(before + heard, Answers(names, protocols))
    requires DialerAfter(names, before).Waiting? && DialerAfter(names, before).i == |names| - 1
    requires |heard| <= 2 && (|heard| == 2 ==> heard[0] == Header)
    ensures |names| - 1 <= FirstCommon(names, protocols) && |Answers(names, protocols)| == |names| + 1
    ensures before + heard <= Answers(names, protocols)
    ensures if before == [] then |names| == 1 else |before| == |names|
  {
    var inbox, answers := before + heard, Answers(names, protocols);
    assert before == inbox[..|before|];
    BeforeTheLast(names, protocols, before);
    assert forall i :: 0 <= i < |heard| ==> inbox[|before| + i] == heard[i];
    RepliesAt(names, protocols, |names|, |names|);
  }

  /** While the confirmation is incomplete, answers are to come. */
  lemma {:induction false} StillAnswers(names: seq<bytes>, protocols: seq<bytes>, before: seq<Message>,
      heard: seq<Message>)
    requires names != [] && before + heard <= Answers(names, protocols) && |Answers(names, protocols)| == |names| + 1
    requires if before == [] then |names| == 1 else |before| == |names|
    requires heard == [] || heard == [Header]
    ensures |before + heard| < |Answers(names, protocols)|
  {
    RepliesAt(names, protocols, |names|, |names|);
    if heard != [] {
      assert (before + heard)[|before|] == Header;
    }
  }

  /** The last name is confirmed only if it is the first supported one, and then all answers have
      been heard. */
  lemma {:induction false} ConfirmedIsAll(names: seq<bytes>, protocols: seq<bytes>, before: seq<Message>,
      heard: seq<Message>)
    requires names != [] && before + heard <= Answers(names, protocols)
    requires |names| - 1 <= FirstCommon(names, protocols) && |Answers(names, protocols)| == |names| + 1
    requires heard != [] && heard[|heard| - 1].Protocol?
    ensures before + heard == Answers(names, protocols)
    ensures FirstCommon(names, protocols) == |names| - 1 && names[|names| - 1] in protocols
  {
    var inbox := before + heard;
    var j := |inbox| - 1;
    assert inbox[j] == heard[|heard| - 1];
    RepliesAt(names, protocols, |names|, j);
  }

  /** A refusal means that the last name is not supported. */
  lemma {:induction false} RefusedIsUnsupported(names: seq<bytes>, protocols: seq<bytes>, before: seq<Message>,
      heard: seq<Message>)
    requires names != [] && before + heard <= Answers(names, protocols)
    requires |names| - 1 <= FirstCommon(names, protocols) && |Answers(names, protocols)| == |names| + 1
    requires if before == [] then |names| == 1 else |before| == |names|
    requires heard != [] && heard[|heard| - 1] != Header && heard[|heard| - 1] != Protocol(names[|names| - 1])
    ensures names[|names| - 1] !in protocols
  {
    var inbox := before + heard;
    var j := |inbox| - 1;
    assert inbox[j] == heard[|heard| - 1];
    RepliesAt(names, protocols, |names|, j);
  }
}
