/** What the answers of the WebRTC negotiation mean, byte for byte: which payloads get which answer. */
module WebRtcMeaning {
  import opened Io
  import opened Varint
  import opened Multistream
  import opened Delimited
  import opened WebRtc

  /** A payload starts with a whole frame. */
  ghost predicate HasFrame(s: bytes) {
    exists x :: Frame(x) <= s
  }

  /** Taking a part off a payload is the inverse of framing it. */
  lemma TakeIff(s: bytes, x: bytes, rest: bytes)
    requires |s| < USIZE_BOUND
    ensures Take(s) == Taken(x, rest) <==> s == Frame(x) + rest
  {
    if Take(s) == Taken(x, rest) {
      TakenWasFramed(s);
    }
    if s == Frame(x) + rest {
      TakeFrame(x, rest);
    }
  }

  lemma TakePrefix(s: bytes, x: bytes)
    requires |s| < USIZE_BOUND && Frame(x) <= s
    ensures Take(s) == Taken(x, s[|Frame(x)|..])
  {
    assert s == Frame(x) + s[|Frame(x)|..];
    TakeIff(s, x, s[|Frame(x)|..]);
  }

  /** A payload that starts with a frame starts with one only. */
  lemma TakenFrame(s: bytes)
    requires |s| < USIZE_BOUND
    ensures HasFrame(s) <==> Take(s).Taken?
    ensures forall x :: Frame(x) <= s <==> Take(s).Taken? && Take(s).payload == x
  {
    if Take(s).Taken? {
      TakenWasFramed(s);
      assert Frame(Take(s).payload) <= s;
    }
    forall x | Frame(x) <= s
      ensures Take(s).Taken? && Take(s).payload == x
    {
      TakePrefix(s, x);
    }
  }

  /** Each message but a list has exactly one encoding. */
  lemma DecodesTo(x: bytes, m: Message)
    requires !m.Protocols?
    ensures Decoding(x) == Ok(m) <==> x == Encoding(m) && Canonical(m)
  {
    if Decoding(x) == Ok(m) {
      EncodeUndoesDecode(x);
      if m.Protocol? {
        DecodedNameIsCanonical(x);
      }
    }
    if x == Encoding(m) && Canonical(m) {
      DecodeUndoesEncode(m);
    }
  }

  // ----- The dialer --------------------------------------------------------------------

  /** Behind the header, the first frame decides, and only it. */
  lemma {:induction false} BehindHeader(protocol: bytes, body: bytes)
    requires |body| < USIZE_BOUND
    ensures var r := Responding(WaitingProtocol, protocol, body);
      && r.0.WaitingProtocol?
      && (r.1.NotReady? <==> body == [])
      && (r.1.Garbage? <==> body != [] && !HasFrame(body))
      && (r.1.Refused? <==> Frame(MSG_NA) <= body)
      && (r.1.BadMessage? <==> Frame(MSG_LS) <= body)
  {
    TakenFrame(body);
    if Take(body).Taken? {
      DecodesTo(Take(body).payload, NotAvailable);
      DecodesTo(Take(body).payload, ListProtocols);
    }
  }

  lemma {:induction false} NameBehindHeader(protocol: bytes, body: bytes)
    requires |body| < USIZE_BOUND
    ensures var r := Responding(WaitingProtocol, protocol, body);
      && (r.1.Succeeded? ==> r.1.name == protocol)
      && (r.1.Succeeded? <==> Canonical(Protocol(protocol)) && Frame(protocol + [NEWLINE]) <= body)
      && (r.1.Failed? <==> OtherName(protocol, body))
  {
    TakenFrame(body);
    if Take(body).Taken? {
      var part := Take(body).payload;
      DecodesTo(part, Protocol(protocol));
      if Decoding(part).Ok? && Decoding(part).message.Protocol? {
        DecodesTo(part, Decoding(part).message);
      }
      if OtherName(protocol, body) {
        var name :| Canonical(Protocol(name)) && name != protocol && Frame(name + [NEWLINE]) <= body;
        DecodesTo(part, Protocol(name));
      }
    }
  }

  lemma {:induction false} OddBehindHeader(protocol: bytes, body: bytes)
    requires |body| < USIZE_BOUND
    ensures Responding(WaitingProtocol, protocol, body).1.StateMismatch? <==> Odd(body)
  {
    TakenFrame(body);
    if Take(body).Taken? {
      DecodesTo(Take(body).payload, Header);
    }
  }

  /** The first frame carries a name that was not proposed. */
  ghost predicate OtherName(protocol: bytes, body: bytes) {
    exists name: bytes :: Canonical(Protocol(name)) && name != protocol && Frame(name + [NEWLINE]) <= body
  }

  /** The first frame carries a header, a list of names, or nothing that decodes. */
  ghost predicate Odd(body: bytes) {
    exists x :: Frame(x) <= body && (x == MSG_MULTISTREAM || Decoding(x).Err? || Decoding(x).message.Protocols?)
  }

  /** Before the header, a header leads on to what follows it, and anything else fails. */
  lemma BeforeHeader(protocol: bytes, payload: bytes)
    requires |payload| < USIZE_BOUND
    ensures var r := Responding(WaitingResponse, protocol, payload); var head := Frame(MSG_MULTISTREAM);
      if head <= payload then r == Responding(WaitingProtocol, protocol, payload[|head|..])
      else
        && r.0.WaitingResponse?
        && r.1 == (if payload == [] then StateMismatch
                   else if !HasFrame(payload) then Garbage
                   else if exists x :: Frame(x) <= payload && Decoding(x).Ok? then Failed
                   else StateMismatch)
  {
    TakenFrame(payload);
    if Take(payload).Taken? {
      DecodesTo(Take(payload).payload, Header);
      assert Frame(Take(payload).payload) <= payload;
      if Frame(MSG_MULTISTREAM) <= payload {
        TakePrefix(payload, MSG_MULTISTREAM);
      }
    }
  }

  /** What precedes the answer in a payload. */
  function Lead(state: HandshakeState): bytes {
    if state.WaitingResponse? then Frame(MSG_MULTISTREAM) else []
  }

  /** What the dialer makes of any payload. It waits on exactly if the payload is used up with the
      header; it is refused exactly by a framed rejection, and succeeds exactly by its framed name,
      directly behind the header if that was outstanding, whatever follows. */
  lemma ResponseMeans(state: HandshakeState, protocol: bytes, payload: bytes)
    requires |payload| < USIZE_BOUND
    ensures var r := Responding(state, protocol, payload);
      && (r.0.WaitingProtocol? <==> state.WaitingProtocol? || Frame(MSG_MULTISTREAM) <= payload)
      && (r.1.NotReady? <==> payload == Lead(state))
      && (r.1.Refused? <==> Lead(state) + Frame(MSG_NA) <= payload)
      && (r.1.BadMessage? <==> Lead(state) + Frame(MSG_LS) <= payload)
      && (r.1.Succeeded? <==> Canonical(Protocol(protocol)) && Lead(state) + Frame(protocol + [NEWLINE]) <= payload)
  {
    var lead := Lead(state);
    if state.WaitingProtocol? {
      BehindHeader(protocol, payload);
      NameBehindHeader(protocol, payload);
      assert lead + Frame(MSG_NA) == Frame(MSG_NA) && lead + Frame(MSG_LS) == Frame(MSG_LS);
      assert lead + Frame(protocol + [NEWLINE]) == Frame(protocol + [NEWLINE]);
    } else {
      BeforeHeader(protocol, payload);
      if lead <= payload {
        var body := payload[|lead|..];
        BehindHeader(protocol, body);
        NameBehindHeader(protocol, body);
        Behind(lead, Frame(MSG_NA), payload);
        Behind(lead, Frame(MSG_LS), payload);
        Behind(lead, Frame(protocol + [NEWLINE]), payload);
        assert payload == lead <==> body == [];
      }
    }
  }

  lemma Behind(lead: bytes, x: bytes, payload: bytes)
    requires lead <= payload
    ensures lead + x <= payload <==> x <= payload[|lead|..]
  {
    assert payload == lead + payload[|lead|..];
  }

  // ----- The listener ------------------------------------------------------------------

  /** What precedes the name in a payload. */
  function Opening(headerReceived: bool): bytes {
    if headerReceived then [] else Frame(MSG_MULTISTREAM)
  }

  /** A proposal is exactly the framed name, behind the header if that was outstanding, and nothing
      more. */
  lemma ProposalMeans(payload: bytes, headerReceived: bool, name: bytes, withHeader: bool)
    requires |payload| < USIZE_BOUND
    ensures ReadProposal(payload, headerReceived) == Proposal(name, withHeader) <==>
      && withHeader == !headerReceived && Canonical(Protocol(name))
      && payload == Opening(headerReceived) + Frame(name + [NEWLINE])
  {
    var line := Frame(name + [NEWLINE]);
    if headerReceived {
      NameAlone(payload, name);
      assert [] + line == line;
      if Parse(payload).Parsed? {
        DecodesTo(Take(payload).payload, Header);
      }
    } else {
      var head := Frame(MSG_MULTISTREAM);
      HeaderFirst(payload);
      if head <= payload {
        var body := payload[|head|..];
        assert payload == head + body;
        NameAlone(body, name);
      }
    }
  }

  lemma NameAlone(s: bytes, name: bytes)
    requires |s| < USIZE_BOUND
    ensures Parse(s) == Parsed(Protocol(name), []) <==> Canonical(Protocol(name)) && s == Frame(name + [NEWLINE])
  {
    var line := name + [NEWLINE];
    assert Frame(line) + [] == Frame(line);
    TakeIff(s, line, []);
    DecodesTo(line, Protocol(name));
    if Take(s).Taken? {
      DecodesTo(Take(s).payload, Protocol(name));
    }
  }

  lemma HeaderFirst(s: bytes)
    requires |s| < USIZE_BOUND
    ensures Parse(s).Parsed? && Parse(s).message.Header? <==> Frame(MSG_MULTISTREAM) <= s
    ensures Frame(MSG_MULTISTREAM) <= s ==> Parse(s) == Parsed(Header, s[|Frame(MSG_MULTISTREAM)|..])
  {
    TakenFrame(s);
    DecodesTo(MSG_MULTISTREAM, Header);
    if Take(s).Taken? {
      DecodesTo(Take(s).payload, Header);
    }
    if Frame(MSG_MULTISTREAM) <= s {
      TakePrefix(s, MSG_MULTISTREAM);
    }
  }

  /** A canonical name is proposed by this payload. */
  ghost predicate Proposes(payload: bytes, headerReceived: bool, name: bytes) {
    Canonical(Protocol(name)) && payload == Opening(headerReceived) + Frame(name + [NEWLINE])
  }

  lemma ProposesIff(payload: bytes, headerReceived: bool)
    requires |payload| < USIZE_BOUND
    ensures var p := ReadProposal(payload, headerReceived);
      && (p.Proposal? ==> p.withHeader == !headerReceived && Proposes(payload, headerReceived, p.name))
      && forall name :: Proposes(payload, headerReceived, name) ==> p == Proposal(name, !headerReceived)
  {
    var p := ReadProposal(payload, headerReceived);
    if p.Proposal? {
      ProposalMeans(payload, headerReceived, p.name, p.withHeader);
    }
    forall name | Proposes(payload, headerReceived, name)
      ensures p == Proposal(name, !headerReceived)
    {
      ProposalMeans(payload, headerReceived, name, !headerReceived);
    }
  }

  /** What the listener answers to a proposal: it accepts or rejects exactly a proposal and nothing
      more, by whether it supports the name, and a rejection is the framed one. */
  lemma AnswerMeans(supported: seq<bytes>, payload: bytes, headerReceived: bool)
    requires |payload| < USIZE_BOUND
    ensures var a := Answering(supported, payload, headerReceived);
      && (a.Accepted? || a.TooLong? <==> exists name :: name in supported && Proposes(payload, headerReceived, name))
      && (a.Accepted? ==>
            a.protocol in supported && Proposes(payload, headerReceived, a.protocol) && a.message == payload)
      && (a.Accepted? ==> |payload| <= MAX_FRAME_SIZE) && (a.TooLong? ==> |payload| > MAX_FRAME_SIZE)
      && (a.Rejected? <==> exists name :: name !in supported && Proposes(payload, headerReceived, name))
      && (a.Rejected? ==> a.message == Opening(headerReceived) + Frame(MSG_NA))
  {
    var p := ReadProposal(payload, headerReceived);
    ProposesIff(payload, headerReceived);
    if p.Proposal? {
      assert Payload(Protocol(p.name), p.withHeader) == payload;
      assert |Encode(19)| == 1 && |Encode(3)| == 1;
    }
  }

  /** The listener waits on exactly after a header alone. */
  lemma PendingMeans(supported: seq<bytes>, payload: bytes, headerReceived: bool)
    requires |payload| < USIZE_BOUND
    ensures var a := Answering(supported, payload, headerReceived);
      && (a.PendingProtocol? <==> !headerReceived && payload == Frame(MSG_MULTISTREAM))
      && (a.PendingProtocol? ==> a.message == payload)
  {
    HeaderFirst(payload);
    if ReadProposal(payload, headerReceived).HeaderOnly? {
      assert payload == Frame(MSG_MULTISTREAM) + [];
    }
  }

  /** A frame out of turn: a header that was already received, a name before the header, or another
      message. */
  lemma UnexpectedMeans(supported: seq<bytes>, payload: bytes, headerReceived: bool)
    requires |payload| < USIZE_BOUND
    ensures Answering(supported, payload, headerReceived).Unexpected? <==>
      exists x :: Frame(x) <= payload && Decoding(x).Ok? && OutOfTurn(Decoding(x).message, headerReceived)
  {
    TakenFrame(payload);
    if Take(payload).Taken? {
      assert Frame(Take(payload).payload) <= payload;
    }
  }

  predicate OutOfTurn(m: Message, headerReceived: bool) {
    if headerReceived then !m.Protocol? else !m.Header?
  }
}
