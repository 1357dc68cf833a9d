/** The multistream-select 1.0.0 messages and their byte representation. */
module Multistream {
  import opened Io
  import opened Varint

  const MAX_PROTOCOLS: nat := 1000
  const NEWLINE: byte := 10
  const SLASH: byte := 47

  /** "/multistream/1.0.0" */
  const HEADER_NAME: bytes := [47, 109, 117, 108, 116, 105, 115, 116, 114, 101, 97, 109, 47, 49, 46, 48, 46, 48]
  const MSG_MULTISTREAM: bytes := HEADER_NAME + [NEWLINE]
  const MSG_NA: bytes := [110, 97, NEWLINE]
  const MSG_LS: bytes := [108, 115, NEWLINE]

  datatype Message =
    | Header
    | Protocol(name: bytes)
    | ListProtocols
    | Protocols(names: seq<bytes>)
    | NotAvailable

  datatype ProtocolError = IoInvalidData | InvalidMessage | InvalidProtocol | TooManyProtocols

  datatype Result = Ok(message: Message) | Err(error: ProtocolError)

  /** `Protocol::try_from` accepts exactly the names that start with a slash. */
  predicate IsName(name: bytes) {
    |name| > 0 && name[0] == SLASH
  }

  function EncodeName(name: bytes): bytes {
    Encode(|name| + 1) + (name + [NEWLINE])
  }

  function EncodeNames(names: seq<bytes>): bytes {
    if names == [] then [] else EncodeName(names[0]) + EncodeNames(names[1..])
  }

  function Encoding(m: Message): bytes {
    match m
    case Header => MSG_MULTISTREAM
    case Protocol(name) => name + [NEWLINE]
    case ListProtocols => MSG_LS
    case Protocols(names) => EncodeNames(names) + [NEWLINE]
    case NotAvailable => MSG_NA
  }

  datatype Names = Names(names: seq<bytes>) | NamesErr(error: ProtocolError)

  /** The names listed by `s`, when `count` have been read before it. */
  function DecodeNames(s: bytes, count: nat): Names
    decreases |s|
  {
    if s == [NEWLINE] then Names([])
    else if count == MAX_PROTOCOLS then NamesErr(TooManyProtocols)
    else
      var d := DecodeUsize(s);
      if !d.Decoded? then NamesErr(IoInvalidData)
      else
        var tail := s[d.used..];
        if d.value == 0 || d.value > |tail| || tail[d.value - 1] != NEWLINE then NamesErr(InvalidMessage)
        else if !IsName(tail[..d.value - 1]) then NamesErr(InvalidProtocol)
        else
          Behind([tail[..d.value - 1]], DecodeNames(tail[d.value..], count + 1))
  }

  /** Names read before those that follow, unless these are wrong. */
  function Behind(protocols: seq<bytes>, following: Names): Names {
    match following
    case Names(rest) => Names(protocols + rest)
    case error => error
  }

  /** A slash, then no line feed before the one at the end. */
  predicate IsProtocolLine(s: bytes) {
    |s| > 0 && s[0] == SLASH && s[|s| - 1] == NEWLINE && NEWLINE !in s[..|s| - 1]
  }

  function Decoding(s: bytes): Result {
    if s == MSG_MULTISTREAM then Ok(Header)
    else if s == MSG_NA then Ok(NotAvailable)
    else if s == MSG_LS then Ok(ListProtocols)
    else if IsProtocolLine(s) then Ok(Protocol(s[..|s| - 1]))
    else
      match DecodeNames(s, 0)
      case Names(names) => Ok(Protocols(names))
      case NamesErr(error) => Err(error)
  }

  // ----- The loops of the source, against these definitions ----------------------------

  /** `Message::encoded_len` */
  method EncodedLen(m: Message) returns (len: nat)
    ensures len == |Encoding(m)|
  {
    match m
    case Header => return |MSG_MULTISTREAM|;
    case Protocol(name) => return |name| + 1;
    case ListProtocols => return |MSG_LS|;
    case NotAvailable => return |MSG_NA|;
    case Protocols(names) =>
      len := 1;
      for i := 0 to |names|
        invariant len + |EncodeNames(names[i..])| == |Encoding(m)|
      {
        var protoLen := |names[i]| + 1;
        len := len + |Encode(protoLen)| + protoLen;
        assert names[i..][1..] == names[i + 1..];
      }
  }

  /** `Message::encode` appends the message to `dest`. */
  method AppendMessage(m: Message, dest: bytes) returns (out: bytes)
    ensures out == dest + Encoding(m)
  {
    match m
    case Header => out := dest + MSG_MULTISTREAM;
    case Protocol(name) => out := dest + name + [NEWLINE];
    case ListProtocols => out := dest + MSG_LS;
    case NotAvailable => out := dest + MSG_NA;
    case Protocols(names) =>
      var encoded: bytes := [];
      for i := 0 to |names|
        invariant encoded + EncodeNames(names[i..]) == EncodeNames(names)
      {
        assert names[i..][1..] == names[i + 1..];
        encoded := encoded + EncodeName(names[i]);
      }
      assert encoded == EncodeNames(names);
      out := dest + (encoded + [NEWLINE]);
  }

  /** A message on its own. */
  method EncodeMessage(m: Message) returns (out: bytes)
    ensures out == Encoding(m)
  {
    out := AppendMessage(m, []);
    assert [] + Encoding(m) == Encoding(m);
  }

  /** `Message::decode` */
  method DecodeMessage(msg: bytes) returns (r: Result)
    ensures r == Decoding(msg)
  {
    if msg == MSG_MULTISTREAM {
      return Ok(Header);
    }
    if msg == MSG_NA {
      return Ok(NotAvailable);
    }
    if msg == MSG_LS {
      return Ok(ListProtocols);
    }
    if IsProtocolLine(msg) {
      return Ok(Protocol(msg[..|msg| - 1]));
    }
    var names := DecodeList(msg);
    return match names case Names(protocols) => Ok(Protocols(protocols)) case NamesErr(error) => Err(error);
  }

  lemma BehindConcat(a: seq<bytes>, b: seq<bytes>, following: Names)
    ensures Behind(a, Behind(b, following)) == Behind(a + b, following)
  {
    if following.Names? {
      Assoc(a, b, following.names);
    }
  }

  /** The loop of `Message::decode`. */
  method DecodeList(msg: bytes) returns (r: Names)
    ensures r == DecodeNames(msg, 0)
  {
    var protocols: seq<bytes> := [];
    var remaining := msg;
    while remaining != [NEWLINE]
      invariant |protocols| <= MAX_PROTOCOLS
      invariant DecodeNames(msg, 0) == Behind(protocols, DecodeNames(remaining, |protocols|))
      decreases |remaining|
    {
      if |protocols| == MAX_PROTOCOLS {
        return NamesErr(TooManyProtocols);
      }
      var d := DecodeUsize(remaining);
      if !d.Decoded? {
        return NamesErr(IoInvalidData);
      }
      var tail := remaining[d.used..];
      if d.value == 0 || d.value > |tail| || tail[d.value - 1] != NEWLINE {
        return NamesErr(InvalidMessage);
      }
      var name := tail[..d.value - 1];
      if !IsName(name) {
        return NamesErr(InvalidProtocol);
      }
      BehindConcat(protocols, [name], DecodeNames(tail[d.value..], |protocols| + 1));
      protocols := protocols + [name];
      remaining := tail[d.value..];
    }
    assert protocols + [] == protocols;
    return Names(protocols);
  }

  // ----- Parser and printer are inverse ------------------------------------------------

  /** The messages that survive a trip over the wire. */
  predicate Canonical(m: Message) {
    match m
    case Protocol(name) => IsName(name) && NEWLINE !in name && name != HEADER_NAME
    case Protocols(names) =>
      |names| <= MAX_PROTOCOLS && forall i :: 0 <= i < |names| ==> IsName(names[i]) && |names[i]| + 1 < USIZE_BOUND
    case _ => true
  }

  /** Reading the first name off a list of names. */
  lemma FirstName(name: bytes, rest: bytes)
    requires |name| + 1 < USIZE_BOUND
    ensures var s := EncodeName(name) + rest; var d := DecodeUsize(s);
            && s != [NEWLINE] && d == Decoded(|name| + 1, |Encode(|name| + 1)|)
            && s[d.used..] == name + [NEWLINE] + rest
            && s[d.used..][..|name|] == name && s[d.used..][|name|] == NEWLINE && s[d.used..][|name| + 1..] == rest
  {
    var prefix, line := Encode(|name| + 1), name + [NEWLINE];
    DecodeEncodeUsize(|name| + 1, line + rest);
    Assoc(prefix, line, rest);
    assert (prefix + (line + rest))[|prefix|..] == line + rest;
  }

  lemma NamesStep(name: bytes, rest: bytes, count: nat, names: seq<bytes>)
    requires IsName(name) && |name| + 1 < USIZE_BOUND && count < MAX_PROTOCOLS
    requires DecodeNames(rest, count + 1) == Names(names)
    ensures DecodeNames(EncodeName(name) + rest, count) == Names([name] + names)
  {
    FirstName(name, rest);
  }

  lemma {:induction false} NamesRoundTrip(names: seq<bytes>, count: nat)
    requires forall i :: 0 <= i < |names| ==> IsName(names[i]) && |names[i]| + 1 < USIZE_BOUND
    requires count + |names| <= MAX_PROTOCOLS
    ensures DecodeNames(EncodeNames(names) + [NEWLINE], count) == Names(names)
  {
    if names == [] {
      assert EncodeNames(names) + [NEWLINE] == [NEWLINE];
    } else {
      var rest := EncodeNames(names[1..]) + [NEWLINE];
      Assoc(EncodeName(names[0]), EncodeNames(names[1..]), [NEWLINE]);
      NamesRoundTrip(names[1..], count + 1);
      NamesStep(names[0], rest, count, names[1..]);
      assert [names[0]] + names[1..] == names;
    }
  }

  /** A list of names is never mistaken for one of the fixed messages or a single name. */
  lemma ListIsNoLine(names: seq<bytes>)
    requires names != [] && IsName(names[0])
    ensures var s := EncodeNames(names) + [NEWLINE];
            s != MSG_MULTISTREAM && s != MSG_NA && s != MSG_LS && !IsProtocolLine(s)
  {
    var s := EncodeNames(names) + [NEWLINE];
    var prefix := Encode(|names[0]| + 1);
    var at := |prefix| + |names[0]|;
    assert s == prefix + (names[0] + [NEWLINE]) + EncodeNames(names[1..]) + [NEWLINE];
    assert s[at] == NEWLINE && at < |s| - 1;
    assert s[..|s| - 1][at] == NEWLINE;
    assert NEWLINE !in MSG_MULTISTREAM[..|MSG_MULTISTREAM| - 1];
    assert NEWLINE !in MSG_NA[..2] && NEWLINE !in MSG_LS[..2];
  }

  /** Decoding undoes encoding on every canonical message. */
  lemma DecodeUndoesEncode(m: Message)
    requires Canonical(m)
    ensures Decoding(Encoding(m)) == Ok(m)
  {
    var s := Encoding(m);
    match m
    case Protocol(name) =>
      assert s[..|s| - 1] == name;
      assert s == MSG_MULTISTREAM ==> name == HEADER_NAME;
    case Protocols(names) =>
      NamesRoundTrip(names, 0);
      if names == [] {
        assert s == [NEWLINE];
      } else {
        ListIsNoLine(names);
      }
    case _ =>
  }

  lemma LineSplits(s: bytes, used: nat, len: nat)
    requires 0 < len && used + len <= |s| && s[used..][len - 1] == NEWLINE
    ensures s == s[..used] + (s[used..][..len - 1] + [NEWLINE]) + s[used..][len..]
  {
  }

  lemma {:induction false} NamesReencode(s: bytes, count: nat)
    requires DecodeNames(s, count).Names?
    ensures EncodeNames(DecodeNames(s, count).names) + [NEWLINE] == s
    decreases |s|
  {
    if s == [NEWLINE] {
      assert EncodeNames([]) + [NEWLINE] == s;
    } else {
      var d := DecodeUsize(s);
      EncodeDecode(s, USIZE_BYTES);
      var tail := s[d.used..];
      var rest := tail[d.value..];
      NamesReencode(rest, count + 1);
      var name, names := tail[..d.value - 1], DecodeNames(rest, count + 1).names;
      assert DecodeNames(s, count).names == [name] + names;
      assert ([name] + names)[1..] == names;
      LineSplits(s, d.used, d.value);
      Assoc(EncodeName(name), EncodeNames(names), [NEWLINE]);
    }
  }

  /** Encoding undoes decoding on every accepted input: each message has one representation. */
  lemma {:induction false} EncodeUndoesDecode(s: bytes)
    requires Decoding(s).Ok?
    ensures Encoding(Decoding(s).message) == s
  {
    if Decoding(s).message.Protocols? {
      NamesReencode(s, 0);
    } else if Decoding(s).message.Protocol? {
      assert s == s[..|s| - 1] + [NEWLINE];
    }
  }

  // ----- Why a message is refused ------------------------------------------------------

  /** A length, and then no line of that length. */
  ghost predicate NoLine(s: bytes) {
    exists n: nat {:trigger Encode(n)} ::
      && n < USIZE_BOUND && Encode(n) <= s
      && (n == 0 || |s| < |Encode(n)| + n || s[|Encode(n)| + n - 1] != NEWLINE)
  }

  /** A line that holds no name. */
  ghost predicate NoName(s: bytes) {
    exists line :: EncodeName(line) <= s && !IsName(line)
  }

  /** What is wrong with the rest of a list of which `count` names have been read. */
  ghost predicate Faulty(s: bytes, count: nat, error: ProtocolError) {
    if count == MAX_PROTOCOLS then error == TooManyProtocols
    else match error
      case IoInvalidData => !DecodeUsize(s).Decoded?
      case InvalidMessage => NoLine(s)
      case InvalidProtocol => NoName(s)
      case _ => false
  }

  /** The front of a list is a name, or what is wrong with the list. */
  lemma {:induction false} FirstLine(s: bytes, count: nat) returns (ok: bool, name: bytes, rest: bytes)
    requires s != [NEWLINE] && count <= MAX_PROTOCOLS
    ensures if ok then
        && count < MAX_PROTOCOLS && IsName(name) && s == EncodeName(name) + rest
        && DecodeNames(s, count) == Behind([name], DecodeNames(rest, count + 1))
      else DecodeNames(s, count).NamesErr? && Faulty(s, count, DecodeNames(s, count).error)
  {
    ok, name, rest := false, [], [];
    var d := DecodeUsize(s);
    if count == MAX_PROTOCOLS || !d.Decoded? {
      return;
    }
    EncodeDecode(s, USIZE_BYTES);
    var tail := s[d.used..];
    if d.value == 0 || d.value > |tail| || tail[d.value - 1] != NEWLINE {
      LacksLine(s, d.value, d.used);
      return;
    }
    name := tail[..d.value - 1];
    LineSplits(s, d.used, d.value);
    rest := tail[d.value..];
    assert EncodeName(name) <= s;
    ok := IsName(name);
  }

  lemma LacksLine(s: bytes, n: nat, used: nat)
    requires n < USIZE_BOUND && used <= |s| && s[..used] == Encode(n)
    requires n == 0 || n > |s[used..]| || s[used..][n - 1] != NEWLINE
    ensures NoLine(s)
  {
    assert Encode(n) <= s;
  }

  /** A list is refused because of what follows the names at its front. */
  lemma {:induction false} NamesFault(s: bytes, count: nat) returns (names: seq<bytes>, rest: bytes)
    requires DecodeNames(s, count).NamesErr? && count <= MAX_PROTOCOLS
    ensures s == EncodeNames(names) + rest && rest != [NEWLINE] && count + |names| <= MAX_PROTOCOLS
    ensures forall i :: 0 <= i < |names| ==> IsName(names[i])
    ensures Faulty(rest, count + |names|, DecodeNames(s, count).error)
    decreases |s|
  {
    var ok, name, following := FirstLine(s, count);
    if !ok {
      names, rest := [], s;
      assert EncodeNames(names) + rest == s;
      return;
    }
    var more;
    more, rest := NamesFault(following, count + 1);
    names := [name] + more;
    assert names[1..] == more;
    Assoc(EncodeName(name), EncodeNames(more), rest);
  }

  /** These names, in front of `rest`, are read, and the rest reads as `following`. */
  ghost predicate ReadsAs(names: seq<bytes>, rest: bytes, count: nat, following: Names) {
    forall i {:trigger Looked(i)} :: i == 0 && Looked(i) ==> AreRead(names, rest, count, following)
  }

  ghost predicate AreRead(names: seq<bytes>, rest: bytes, count: nat, following: Names) {
    DecodeNames(EncodeNames(names) + rest, count) == Behind(names, following)
  }

  lemma {:induction false} ReadsNone(rest: bytes, count: nat)
    ensures ReadsAs([], rest, count, DecodeNames(rest, count))
  {
    var following := DecodeNames(rest, count);
    assert EncodeNames([]) + rest == rest;
    assert following.Names? ==> [] + following.names == following.names;
  }

  lemma {:induction false} ReadsOne(names: seq<bytes>, rest: bytes, count: nat, following: Names)
    requires names != [] && IsName(names[0]) && |names[0]| + 1 < USIZE_BOUND && count < MAX_PROTOCOLS
    requires ReadsAs(names[1..], rest, count + 1, following)
    ensures ReadsAs(names, rest, count, following)
  {
    assert Looked(0);
    NamesHead(names, rest);
    FirstName(names[0], EncodeNames(names[1..]) + rest);
    BehindConcat([names[0]], names[1..], following);
  }

  /** Names at the front of a list are read, and the rest decides. */
  lemma {:induction false} NamesSkip(names: seq<bytes>, rest: bytes, count: nat)
    requires forall i :: 0 <= i < |names| ==> IsName(names[i]) && |names[i]| + 1 < USIZE_BOUND
    requires count + |names| <= MAX_PROTOCOLS
    ensures DecodeNames(EncodeNames(names) + rest, count) == Behind(names, DecodeNames(rest, count + |names|))
  {
    assert AllNames(names);
    ReadsNone(rest, count + |names|);
    ReadsAll(names, rest, count, DecodeNames(rest, count + |names|));
    assert Looked(0);
  }

  /** Mentioned where the names of a list are looked at one by one. */
  predicate Numbered(i: int) {
    true
  }

  ghost predicate AllNames(names: seq<bytes>) {
    forall i {:trigger Numbered(i)} :: 0 <= i < |names| && Numbered(i) ==>
      IsName(names[i]) && |names[i]| + 1 < USIZE_BOUND
  }

  lemma OtherNames(names: seq<bytes>)
    requires names != [] && AllNames(names)
    ensures IsName(names[0]) && |names[0]| + 1 < USIZE_BOUND && AllNames(names[1..])
  {
    assert Numbered(0);
    forall i | 0 <= i < |names| - 1
      ensures IsName(names[1..][i]) && |names[1..][i]| + 1 < USIZE_BOUND
    {
      assert Numbered(i + 1) && names[1..][i] == names[i + 1];
    }
  }

  lemma {:induction false} ReadsAll(names: seq<bytes>, rest: bytes, count: nat, following: Names)
    requires AllNames(names)
    requires count + |names| <= MAX_PROTOCOLS && ReadsAs([], rest, count + |names|, following)
    ensures ReadsAs(names, rest, count, following)
    decreases |names|
  {
    if names != [] {
      OtherNames(names);
      assert count + 1 + |names[1..]| == count + |names|;
      ReadsAll(names[1..], rest, count + 1, following);
      ReadsOne(names, rest, count, following);
    }
  }

  lemma {:induction false} NamesHead(names: seq<bytes>, rest: bytes)
    requires names != []
    ensures EncodeNames(names) + rest == EncodeName(names[0]) + (EncodeNames(names[1..]) + rest)
    ensures [names[0]] + names[1..] == names
  {
    Assoc(EncodeName(names[0]), EncodeNames(names[1..]), rest);
  }

  /** A single name survives exactly when it is canonical. */
  lemma NameSurvives(name: bytes)
    ensures Decoding(Encoding(Protocol(name))) == Ok(Protocol(name)) <==> Canonical(Protocol(name))
  {
    var s := name + [NEWLINE];
    if Canonical(Protocol(name)) {
      DecodeUndoesEncode(Protocol(name));
    } else {
      assert s[..|s| - 1] == name;
    }
  }

  /** Whatever is decoded is canonical up to the length bound, so it can be sent on. */
  lemma DecodedNameIsCanonical(s: bytes)
    requires Decoding(s).Ok? && Decoding(s).message.Protocol?
    ensures Canonical(Decoding(s).message)
  {
    assert s == s[..|s| - 1] + [NEWLINE];
  }
}
