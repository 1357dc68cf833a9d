/** Multistream-select over WebRTC, where a negotiation travels in whole payloads. */
module WebRtc {
  import opened Io
  import opened Varint
  import opened Multistream
  import opened Delimited
  import LengthDelimited
  import opened Negotiation

  const MAX_FRAME_SIZE: nat := LengthDelimited.MAX_FRAME_SIZE

  /** A message as it travels, behind the header if asked for. */
  function Payload(m: Message, withHeader: bool): bytes {
    (if withHeader then Frame(MSG_MULTISTREAM) else []) + Frame(Encoding(m))
  }

  /** `webrtc_encode_multistream_message`: refused exactly when the whole is too long. */
  method EncodePayload(m: Message, withHeader: bool) returns (r: Option<bytes>)
    ensures r == if |Payload(m, withHeader)| > MAX_FRAME_SIZE then None else Some(Payload(m, withHeader))
  {
    var len := EncodedLen(m);
    var headerLen := |MSG_MULTISTREAM|;
    var capacity := |Encode(len)| + len;
    if withHeader {
      capacity := |Encode(headerLen)| + headerLen + capacity;
    }
    if capacity > MAX_FRAME_SIZE {
      return None;
    }
    var out: bytes := [];
    if withHeader {
      out := Encode(headerLen);
      out := AppendMessage(Header, out);
    }
    ghost var head := out;
    out := out + Encode(len);
    out := AppendMessage(m, out);
    Assoc(head, Encode(len), Encoding(m));
    return Some(out);
  }

  // ----- Reading a payload -------------------------------------------------------------

  datatype Taken = Taken(payload: bytes, rest: bytes) | Truncated

  /** One length-prefixed part off the front of a payload. */
  function Take(s: bytes): (t: Taken)
    ensures t.Taken? ==> |t.rest| < |s|
  {
    var d := DecodeUsize(s);
    if !d.Decoded? || d.used + d.value > |s| then Truncated
    else Taken(s[d.used..d.used + d.value], s[d.used + d.value..])
  }

  /** What is taken is what a frame would carry: lengths have one representation. */
  lemma TakenWasFramed(s: bytes)
    requires Take(s).Taken?
    ensures s == Frame(Take(s).payload) + Take(s).rest
  {
    var d := DecodeUsize(s);
    EncodeDecode(s, USIZE_BYTES);
    assert s == s[..d.used] + s[d.used..d.used + d.value] + s[d.used + d.value..];
  }

  lemma TakeFrame(m: bytes, rest: bytes)
    requires |m| < USIZE_BOUND
    ensures Take(Frame(m) + rest) == Taken(m, rest)
  {
    var prefix := Encode(|m|);
    Assoc(prefix, m, rest);
    DecodeEncodeUsize(|m|, m + rest);
    var s := prefix + (m + rest);
    assert s[|prefix|..|prefix| + |m|] == m && s[|prefix| + |m|..] == rest;
  }

  datatype Parsed = Parsed(message: Message, rest: bytes) | ParseError

  /** `decode_multistream_message` */
  function Parse(s: bytes): (p: Parsed)
    ensures p.Parsed? ==> |p.rest| < |s|
  {
    match Take(s)
    case Truncated => ParseError
    case Taken(payload, rest) =>
      match Decoding(payload)
      case Ok(m) => Parsed(m, rest)
      case Err(_) => ParseError
  }

  /** What is parsed off a payload was framed there, and the rest is left. */
  lemma ParsedWasFramed(s: bytes)
    requires Parse(s).Parsed?
    ensures s == Frame(Encoding(Parse(s).message)) + Parse(s).rest
  {
    TakenWasFramed(s);
    EncodeUndoesDecode(Take(s).payload);
  }

  // ----- The listener ------------------------------------------------------------------

  datatype Answer =
    | Accepted(protocol: bytes, message: bytes)
    | Rejected(message: bytes)
    | PendingProtocol(message: bytes)
    | Invalid
    | Unexpected
    | TooLong

  /** The proposal in a payload: its name, and whether the header came with it. */
  datatype Proposal = Proposal(name: bytes, withHeader: bool) | HeaderOnly | NoProposal(answer: Answer)

  function ReadProposal(payload: bytes, headerReceived: bool): Proposal {
    match Parse(payload)
    case ParseError => NoProposal(Invalid)
    case Parsed(first, rest) =>
      if first.Header? && !headerReceived then
        if rest == [] then HeaderOnly
        else
          var second := Parse(rest);
          if second.Parsed? && second.message.Protocol? && second.rest == [] then Proposal(second.message.name, true)
          else NoProposal(Invalid)
      else if first.Protocol? && headerReceived then
        if rest == [] then Proposal(first.name, false) else NoProposal(Invalid)
      else NoProposal(Unexpected)
  }

  /** What a listener that supports `supported` answers. */
  function Answering(supported: seq<bytes>, payload: bytes, headerReceived: bool): Answer {
    match ReadProposal(payload, headerReceived)
    case NoProposal(answer) => answer
    case HeaderOnly => PendingProtocol(payload)
    case Proposal(name, withHeader) => Deciding(supported, name, withHeader)
  }

  /** What it answers to a proposal. */
  function Deciding(supported: seq<bytes>, name: bytes, withHeader: bool): Answer {
    var reply := Payload(if name in supported then Protocol(name) else NotAvailable, withHeader);
    if |reply| > MAX_FRAME_SIZE then TooLong
    else if name in supported then Accepted(name, reply)
    else Rejected(reply)
  }

  method Decide(supported: seq<bytes>, name: bytes, withHeader: bool) returns (r: Answer)
    ensures r == Deciding(supported, name, withHeader)
  {
    for i := 0 to |supported|
      invariant name !in supported[..i]
    {
      if name == supported[i] {
        var reply := EncodePayload(Protocol(name), withHeader);
        return if reply.None? then TooLong else Accepted(supported[i], reply.value);
      }
    }
    var reply := EncodePayload(NotAvailable, withHeader);
    return if reply.None? then TooLong else Rejected(reply.value);
  }

  /** `webrtc_listener_negotiate` */
  method ListenerNegotiate(supported: seq<bytes>, payload: bytes, headerReceived: bool) returns (r: Answer)
    ensures r == Answering(supported, payload, headerReceived)
  {
    var rest := payload;
    var first := Parse(rest);
    if first.ParseError? {
      return Invalid;
    }
    rest := first.rest;
    var name, withHeader;
    if first.message.Header? && !headerReceived {
      if rest == [] {
        return PendingProtocol(payload);
      }
      var second := Parse(rest);
      if second.ParseError? || !second.message.Protocol? {
        return Invalid;
      }
      rest := second.rest;
      name, withHeader := second.message.name, true;
    } else if first.message.Protocol? && headerReceived {
      name, withHeader := first.message.name, false;
    } else {
      return Unexpected;
    }
    if rest != [] {
      return Invalid;
    }
    r := Decide(supported, name, withHeader);
  }

  /** Whoever sent it, an accepted payload is echoed byte for byte. */
  lemma AcceptedEchoesPayload(supported: seq<bytes>, payload: bytes, headerReceived: bool)
    requires Answering(supported, payload, headerReceived).Accepted?
    ensures var a := Answering(supported, payload, headerReceived); a.message == payload && a.protocol in supported
  {
    var first := Parse(payload);
    var name := if first.message.Header? then Parse(first.rest).message else first.message;
    ParsedWasFramed(payload);
    if first.message.Header? {
      ParsedWasFramed(first.rest);
    }
    assert Frame(Encoding(name)) + [] == Frame(Encoding(name)) == [] + Frame(Encoding(name));
  }

  // ----- The dialer --------------------------------------------------------------------

  datatype HandshakeState = WaitingResponse | WaitingProtocol

  datatype Response =
    | NotReady
    | Succeeded(name: bytes)
    | Refused
    | Garbage
    | Failed
    | BadMessage
    | StateMismatch

  /** What a dialer that proposed `protocol` makes of a payload. */
  function Responding(state: HandshakeState, protocol: bytes, payload: bytes): (HandshakeState, Response)
    decreases |payload|
  {
    if payload == [] then (state, if state.WaitingProtocol? then NotReady else StateMismatch)
    else
      match Take(payload)
      case Truncated => (state, Garbage)
      case Taken(part, rest) =>
        match Decoding(part)
        case Err(_) => (state, StateMismatch)
        case Ok(m) =>
          if state.WaitingResponse? then
            if m.Header? then Responding(WaitingProtocol, protocol, rest) else (state, Failed)
          else
            match m
            case NotAvailable => (state, Refused)
            case Protocol(name) => (state, if name == protocol then Succeeded(name) else Failed)
            case ListProtocols => (state, BadMessage)
            case _ => (state, StateMismatch)
  }

  class WebRtcDialer {
    var protocol: bytes
    /** The names still to be tried, the next one last. */
    var fallbackNames: seq<bytes>
    var state: HandshakeState

    constructor (protocol: bytes, fallbackNames: seq<bytes>)
      ensures this.protocol == protocol && Preferences() == fallbackNames && state == WaitingResponse
    {
      this.protocol := protocol;
      this.fallbackNames := Reverse(fallbackNames);
      state := WaitingResponse;
      new;
      ReverseTwice(fallbackNames);
    }

    /** The names still to be tried, in order of preference. */
    function Preferences(): seq<bytes>
      reads this
    {
      Reverse(fallbackNames)
    }

    /** `propose_next_fallback`: `None` when the name cannot be proposed. */
    method ProposeNextFallback() returns (more: bool, message: Option<bytes>)
      modifies this`protocol, this`fallbackNames
      ensures more <==> old(Preferences()) != []
      ensures !more ==> unchanged(this)
      ensures more ==> protocol == old(Preferences())[0] && Preferences() == old(Preferences())[1..]
      ensures more ==> message == Proposing(protocol, false)
    {
      if fallbackNames == [] {
        return false, None;
      }
      ReverseLast(fallbackNames);
      var k := |fallbackNames| - 1;
      protocol := fallbackNames[k];
      fallbackNames := fallbackNames[..k];
      more := true;
      message := None;
      if IsName(protocol) {
        message := EncodePayload(Protocol(protocol), false);
      }
    }

    /** `register_response` */
    method RegisterResponse(payload: bytes) returns (r: Response)
      modifies this`state
      ensures (state, r) == Responding(old(state), protocol, payload)
    {
      var remaining := payload;
      while remaining != []
        invariant Responding(state, protocol, remaining) == Responding(old(state), protocol, payload)
        decreases |remaining|
      {
        var t := Take(remaining);
        if t.Truncated? {
          return Garbage;
        }
        remaining := t.rest;
        var decoded := DecodeMessage(t.payload);
        if decoded.Err? {
          return StateMismatch;
        }
        match state
        case WaitingResponse =>
          if decoded.message.Header? {
            state := WaitingProtocol;
          } else {
            return Failed;
          }
        case WaitingProtocol =>
          match decoded.message
          case NotAvailable => return Refused;
          // The header's name never decodes as a protocol.
          case Protocol(name) => return if name == protocol then Succeeded(protocol) else Failed;
          case ListProtocols => return BadMessage;
          case _ => return StateMismatch;
      }
      return if state.WaitingProtocol? then NotReady else StateMismatch;
    }
  }

  /** The payload of a proposal, if the name can be proposed. */
  function Proposing(name: bytes, withHeader: bool): Option<bytes> {
    if !IsName(name) || |Payload(Protocol(name), withHeader)| > MAX_FRAME_SIZE then None
    else Some(Payload(Protocol(name), withHeader))
  }

  function Reverse(s: seq<bytes>): (r: seq<bytes>)
    ensures |r| == |s|
  {
    if s == [] then [] else Reverse(s[1..]) + [s[0]]
  }

  lemma {:induction false} ReverseConcat(s: seq<bytes>, t: seq<bytes>)
    ensures Reverse(s + t) == Reverse(t) + Reverse(s)
  {
    if s == [] {
      assert s + t == t;
    } else {
      ReverseConcat(s[1..], t);
      assert (s + t)[1..] == s[1..] + t;
    }
  }

  lemma {:induction false} ReverseTwice(s: seq<bytes>)
    ensures Reverse(Reverse(s)) == s
  {
    if s != [] {
      ReverseTwice(s[1..]);
      ReverseConcat(Reverse(s[1..]), [s[0]]);
    }
  }

  lemma ReverseOne(name: bytes)
    ensures Reverse([name]) == [name]
  {
    assert [name][1..] == [];
  }

  lemma {:induction false} ReverseLast(s: seq<bytes>)
    requires s != []
    ensures Reverse(s) == [s[|s| - 1]] + Reverse(s[..|s| - 1])
  {
    var k := |s| - 1;
    ReverseConcat(s[..k], [s[k]]);
    ReverseOne(s[k]);
    assert s[..k] + [s[k]] == s;
  }

  // ----- Runs --------------------------------------------------------------------------

  /** Whatever the peer sends, only the current proposal can succeed, and only after a header. */
  lemma {:induction false} OnlyTheProposalSucceeds(state: HandshakeState, protocol: bytes, payload: bytes)
    requires Responding(state, protocol, payload).1.Succeeded?
    ensures Responding(state, protocol, payload) == (WaitingProtocol, Succeeded(protocol))
    ensures state.WaitingProtocol? || StartsWithHeader(payload)
    decreases |payload|
  {
    if state.WaitingResponse? {
      OnlyTheProposalSucceeds(WaitingProtocol, protocol, Take(payload).rest);
    }
  }

  predicate StartsWithHeader(payload: bytes) {
    Parse(payload).Parsed? && Parse(payload).message.Header?
  }

  /** A dialer stops waiting for the header only when a payload starts with one. */
  lemma {:induction false} OnlyAHeaderCounts(state: HandshakeState, protocol: bytes, payload: bytes)
    requires state.WaitingResponse? && Responding(state, protocol, payload).0.WaitingProtocol?
    ensures StartsWithHeader(payload)
  {
  }

  /** Any conversation: whatever payloads arrive, and with the fallbacks proposed after each
      refusal, success is only ever the name proposed last and only after a header. */
  method Converse(dialer: WebRtcDialer, payloads: seq<bytes>) returns (rs: seq<Response>, ghost proposed: seq<bytes>)
    requires dialer.state.WaitingResponse?
    modifies dialer
    ensures |rs| == |proposed| == |payloads|
    ensures forall i :: 0 <= i < |rs| && rs[i].Succeeded? ==> rs[i].name == proposed[i]
    ensures forall i :: 0 <= i < |rs| && rs[i].Succeeded? ==> exists j :: 0 <= j <= i && StartsWithHeader(payloads[j])
    ensures dialer.state.WaitingProtocol? ==> exists j :: 0 <= j < |payloads| && StartsWithHeader(payloads[j])
  {
    rs, proposed := [], [];
    for k := 0 to |payloads|
      invariant |rs| == |proposed| == k
      invariant forall i :: 0 <= i < |rs| && rs[i].Succeeded? ==> rs[i].name == proposed[i]
      invariant forall i :: 0 <= i < |rs| && rs[i].Succeeded? ==>
        exists j :: 0 <= j <= i && StartsWithHeader(payloads[j])
      invariant dialer.state.WaitingProtocol? ==> exists j :: 0 <= j < k && StartsWithHeader(payloads[j])
    {
      ghost var state := dialer.state;
      var r := dialer.RegisterResponse(payloads[k]);
      if state.WaitingResponse? && dialer.state.WaitingProtocol? {
        OnlyAHeaderCounts(state, dialer.protocol, payloads[k]);
      }
      if r.Succeeded? {
        OnlyTheProposalSucceeds(state, dialer.protocol, payloads[k]);
      }
      proposed := proposed + [dialer.protocol];
      rs := rs + [r];
      if r.Refused? {
        var more, message := dialer.ProposeNextFallback();
      }
    }
  }

  /** Mentioned where it matters what makes a name negotiable. */
  predicate Measured(i: int) {
    true
  }

  ghost predicate Negotiable(name: bytes, withHeader: bool) {
    forall i {:trigger Measured(i)} :: i == 0 && Measured(i) ==>
      Canonical(Protocol(name)) && |Payload(Protocol(name), withHeader)| <= MAX_FRAME_SIZE
  }

  /** Such a name is proposed in this payload. */
  ghost predicate Carries(payload: bytes, name: bytes, withHeader: bool) {
    forall i {:trigger Measured(i)} :: i == 0 && Measured(i) ==>
      Negotiable(name, withHeader) && payload == Payload(Protocol(name), withHeader)
  }

  /** The first name is proposed with the header, the others without. */
  ghost predicate Fits(names: seq<bytes>, i: nat) {
    i < |names| ==> Negotiable(names[i], i == 0)
  }

  /** A payload is parsed back into its parts. */
  lemma PayloadParses(m: Message)
    requires Canonical(m) && |Encoding(m)| < USIZE_BOUND
    ensures Payload(m, false) == Frame(Encoding(m))
    ensures Parse(Payload(m, true)) == Parsed(Header, Payload(m, false)) && Parse(Payload(m, false)) == Parsed(m, [])
    ensures Take(Payload(m, true)) == Taken(MSG_MULTISTREAM, Payload(m, false))
    ensures Decoding(MSG_MULTISTREAM) == Ok(Header)
    ensures Take(Payload(m, false)) == Taken(Encoding(m), []) && Decoding(Encoding(m)) == Ok(m)
  {
    DecodeUndoesEncode(m);
    DecodeUndoesEncode(Header);
    var body := Frame(Encoding(m));
    assert [] + body == body;
    TakeFrame(Encoding(m), []);
    assert body + [] == body;
    TakeFrame(MSG_MULTISTREAM, body);
  }

  lemma ReadsProposal(payload: bytes, body: bytes, name: bytes)
    requires Parse(payload) == Parsed(Header, body) && body != [] && Parse(body) == Parsed(Protocol(name), [])
    ensures ReadProposal(payload, false) == Proposal(name, true)
    ensures ReadProposal(body, true) == Proposal(name, false)
  {
  }

  /** A proposal reaches the listener as it was made. */
  lemma ProposalArrives(name: bytes, withHeader: bool)
    requires Negotiable(name, withHeader)
    ensures Proposing(name, withHeader) == Some(Payload(Protocol(name), withHeader))
    ensures ReadProposal(Payload(Protocol(name), withHeader), !withHeader) == Proposal(name, withHeader)
  {
    assert Measured(0);
    var m := Protocol(name);
    assert |Encoding(m)| <= |Payload(m, withHeader)|;
    PayloadParses(m);
    assert Payload(m, false) != [];
    ReadsProposal(Payload(m, true), Payload(m, false), name);
  }

  /** Neither answer to a proposal that fits is too long. */
  lemma ShortReply(name: bytes, withHeader: bool)
    requires Negotiable(name, withHeader)
    ensures |Payload(Protocol(name), withHeader)| <= MAX_FRAME_SIZE && |Encoding(Protocol(name))| < USIZE_BOUND
    ensures Canonical(Protocol(name))
    ensures |Payload(NotAvailable, withHeader)| <= MAX_FRAME_SIZE && |Encoding(NotAvailable)| < USIZE_BOUND
  {
    assert Measured(0);
    assert |Encode(19)| == 1 && |Encode(3)| == 1;
  }

  lemma {:induction false} FirstCommonAt(names: seq<bytes>, supported: seq<bytes>, at: nat)
    requires at < |names| && forall i :: 0 <= i < at ==> names[i] !in supported
    ensures if names[at] in supported then FirstCommon(names, supported) == at else at < FirstCommon(names, supported)
  {
  }

  /** An answer reaches the dialer as it was given. */
  lemma AnswerArrives(m: Message, state: HandshakeState, protocol: bytes)
    requires Canonical(m) && |Encoding(m)| < USIZE_BOUND && (m == Protocol(protocol) || m == NotAvailable)
    ensures Responding(state, protocol, Payload(m, state.WaitingResponse?)) ==
            (WaitingProtocol, if m.Protocol? then Succeeded(protocol) else Refused)
  {
    PayloadParses(m);
    assert Responding(WaitingProtocol, protocol, Payload(m, false)) ==
           (WaitingProtocol, if m.Protocol? then Succeeded(protocol) else Refused);
  }

  /** One proposal, its answer, and what the dialer makes of it. */
  method Round(dialer: WebRtcDialer, supported: seq<bytes>, proposal: bytes, headerReceived: bool) returns (r: Response)
    requires Carries(proposal, dialer.protocol, !headerReceived) && headerReceived == dialer.state.WaitingProtocol?
    modifies dialer`state
    ensures dialer.state.WaitingProtocol?
    ensures r == if dialer.protocol in supported then Succeeded(dialer.protocol) else Refused
  {
    assert Measured(0);
    ghost var name := dialer.protocol;
    ProposalArrives(name, !headerReceived);
    ShortReply(name, !headerReceived);
    var answer := ListenerNegotiate(supported, proposal, headerReceived);
    AnswerArrives(if name in supported then Protocol(name) else NotAvailable, dialer.state, name);
    r := dialer.RegisterResponse(answer.message);
  }

  /** The next proposal, if a name is left. */
  method FallBack(dialer: WebRtcDialer) returns (more: bool, message: Option<bytes>)
    requires dialer.Preferences() != [] ==> Negotiable(dialer.Preferences()[0], false)
    modifies dialer`protocol, dialer`fallbackNames
    ensures more <==> old(dialer.Preferences()) != []
    ensures more ==>
      && dialer.protocol == old(dialer.Preferences())[0]
      && dialer.Preferences() == old(dialer.Preferences())[1..]
    ensures more ==> message.Some? && Carries(message.value, dialer.protocol, false)
  {
    more, message := dialer.ProposeNextFallback();
    if more {
      ProposalArrives(dialer.protocol, false);
    }
  }

  /** Propose, answer and fall back until one side settles, from the proposal of `names[0]` on. */
  method Continue(dialer: WebRtcDialer, names: seq<bytes>, supported: seq<bytes>, first: bytes, header: bool)
    returns (r: Option<bytes>)
    requires names != [] && Carries(first, names[0], !header) && forall i :: 0 < i < |names| ==> Fits(names, i)
    requires dialer.protocol == names[0] && dialer.Preferences() == names[1..]
    requires header == dialer.state.WaitingProtocol?
    modifies dialer
    ensures var f := FirstCommon(names, supported); r == if f < |names| then Some(names[f]) else None
  {
    var message, headerReceived := first, header;
    ghost var at := 0;
    while true
      invariant 0 <= at < |names| && dialer.protocol == names[at] && dialer.Preferences() == names[at + 1..]
      invariant headerReceived == dialer.state.WaitingProtocol? && Carries(message, names[at], !headerReceived)
      invariant forall i :: 0 <= i < at ==> names[i] !in supported
      decreases |names| - at
    {
      var response := Round(dialer, supported, message, headerReceived);
      headerReceived := true;
      FirstCommonAt(names, supported, at);
      if response.Succeeded? {
        return Some(response.name);
      }
      ghost var left := names[at + 1..];
      assert left != [] ==> left[0] == names[at + 1] && left[1..] == names[at + 2..] && Fits(names, at + 1);
      var more, next := FallBack(dialer);
      if !more {
        return None;
      }
      message := next.value;
      at := at + 1;
    }
  }

  /** A whole negotiation. It selects the first supported name in order of preference; `None` means
      that none is supported. */
  method Negotiate(names: seq<bytes>, supported: seq<bytes>) returns (r: Option<bytes>)
    requires names != [] && forall i :: 0 <= i < |names| ==> Fits(names, i)
    ensures var f := FirstCommon(names, supported); r == if f < |names| then Some(names[f]) else None
  {
    assert Fits(names, 0);
    var dialer := new WebRtcDialer(names[0], names[1..]);
    ProposalArrives(names[0], true);
    var message := EncodePayload(Protocol(names[0]), true);
    assert Measured(0);
    r := Continue(dialer, names, supported, message.value, false);
  }

  /** The header is sent ahead, in a payload of its own: both sides wait for the name. */
  method SendHeaderAhead(dialer: WebRtcDialer, supported: seq<bytes>)
    requires dialer.state.WaitingResponse?
    modifies dialer`state
    ensures dialer.state.WaitingProtocol?
  {
    var head := Frame(MSG_MULTISTREAM);
    assert head + [] == head;
    TakeFrame(MSG_MULTISTREAM, []);
    DecodeUndoesEncode(Header);
    var answer := ListenerNegotiate(supported, head, false);
    assert answer == PendingProtocol(head);
    var response := dialer.RegisterResponse(answer.message);
    assert response.NotReady?;
  }

  /** A negotiation in which the header and the name travel in two payloads selects the same name. */
  method NegotiateInTwo(names: seq<bytes>, supported: seq<bytes>) returns (r: Option<bytes>)
    requires names != [] && forall i :: 0 <= i < |names| ==> Negotiable(names[i], false)
    ensures var f := FirstCommon(names, supported); r == if f < |names| then Some(names[f]) else None
  {
    var dialer := new WebRtcDialer(names[0], names[1..]);
    SendHeaderAhead(dialer, supported);
    ProposalArrives(names[0], false);
    var message := EncodePayload(Protocol(names[0]), false);
    assert Measured(0);
    r := Continue(dialer, names, supported, message.value, true);
  }
}
