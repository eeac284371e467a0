/** The instant-message wire format and packet framing. `ToBytes` and `Parse` are
    the reference meaning, written over remaining input; the methods append to a
    buffer and advance a position in it as the Rust code does. */
module Wire {
  import opened Common
  import opened Bits
  import Utf8
  import Varint

  const FLAG_RESPONSE: u64 := 1
  const FLAG_ERROR: u64 := 2
  const FLAG_NOT_BOTTLE: u64 := 4

  // `flags & flag != 0`
  predicate Has(flags: u64, flag: u64) { And(flags, flag) != 0 }

  lemma FlagValues()
    ensures Or(1, 2) == 3 && Or(1, 4) == 5 && Or(3, 4) == 7
    ensures forall f: u64 :: f in [1, 3, 5, 7] ==>
              Has(f, 1) && Has(f, 2) == (f in [3, 7]) && Has(f, 4) == (f in [5, 7])
  {
    assert And(1, 1) == 1 && And(3, 1) == 1 && And(5, 1) == 1 && And(7, 1) == 1;
    assert And(1, 2) == 0 && And(3, 2) == 2 && And(5, 2) == 0 && And(7, 2) == 2;
    assert And(1, 4) == 0 && And(3, 4) == 0 && And(5, 4) == 4 && And(7, 4) == 4;
  }

  // RESPONSE is bit 0, ERROR bit 1 and NOT_BOTTLE bit 2.
  lemma ReplyFlagBits(error: bool, plain: bool)
    ensures ReplyFlags(error, plain) == 1 + (if error then 2 else 0) + if plain then 4 else 0
  {
    FlagValues();
  }

  // The flags of a reply: `error` for a failed handler, `plain` for no bottle.
  function ReplyFlags(error: bool, plain: bool): (flags: u64)
    ensures Has(flags, FLAG_RESPONSE)
    ensures Has(flags, FLAG_ERROR) == error
    ensures Has(flags, FLAG_NOT_BOTTLE) == plain
  {
    FlagValues();
    var flags := if error then Or(FLAG_RESPONSE, FLAG_ERROR) else FLAG_RESPONSE;
    if plain then Or(flags, FLAG_NOT_BOTTLE) else flags
  }

  const ID_LEN := 16
  const MAX_NAME := 256

  datatype Message = Message(id: Bytes, flags: u64, recipient: Str, sender: Str, body: Bytes)

  datatype Error =
    | EmptyBuffer
    | InvalidVersion(version: nat, packet: nat)
    | UnknownPacket(packet: nat)
    | Truncated
    | NameTooLong

  // What the Rust types guarantee of any message: a 16-byte array, two
  // strings, and lengths that fit a machine word.
  predicate WellTyped(m: Message) {
    && |m.id| == ID_LEN
    && Utf8.Valid(m.recipient) && |m.recipient| < TWO_TO_THE_64
    && Utf8.Valid(m.sender) && |m.sender| < TWO_TO_THE_64
  }

  predicate NamesFit(m: Message) { |m.recipient| <= MAX_NAME && |m.sender| <= MAX_NAME }

  // ----- Reference meaning --------------------------------------------------

  function ToBytes(m: Message): Bytes {
    m.id + Varint.Append(m.flags)
    + Varint.Append(|m.recipient|) + m.recipient
    + Varint.Append(|m.sender|) + m.sender
    + m.body
  }

  // Each reader returns what it read and the input that remains.
  function TakeVarint(buf: Bytes): Result<(u64, Bytes), Error> {
    var r := Varint.Read(buf);
    if r.None? then Err(Truncated) else Ok((r.value.0, buf[r.value.1..]))
  }

  function TakeName(buf: Bytes): Result<(Str, Bytes), Error> {
    var r := TakeVarint(buf);
    if r.Err? then Err(r.error)
    else
      var (len, rest) := r.value;
      if len > MAX_NAME then Err(NameTooLong)
      else if |rest| < len then Err(Truncated)
      else Ok((Utf8.Lossy(rest[..len]), rest[len..]))
  }

  function Parse(buf: Bytes): Result<Message, Error> {
    if |buf| < ID_LEN then Err(Truncated)
    else
      var flags := TakeVarint(buf[ID_LEN..]);
      if flags.Err? then Err(flags.error)
      else
        var recipient := TakeName(flags.value.1);
        if recipient.Err? then Err(recipient.error)
        else
          var sender := TakeName(recipient.value.1);
          if sender.Err? then Err(sender.error)
          else Ok(Message(buf[..ID_LEN], flags.value.0, recipient.value.0, sender.value.0, sender.value.1))
  }

  // ----- Round trip ---------------------------------------------------------

  lemma TakeVarintAppend(x: u64, rest: Bytes)
    ensures TakeVarint(Varint.Append(x) + rest) == Ok((x, rest))
  {
    Varint.ReadAppend(x, rest);
  }

  lemma TakeNameAppend(name: Str, rest: Bytes)
    requires Utf8.Valid(name) && |name| < TWO_TO_THE_64
    ensures TakeName(Varint.Append(|name|) + name + rest)
         == if |name| <= MAX_NAME then Ok((name, rest)) else Err(NameTooLong)
  {
    hide TakeVarint, Varint.Append, Utf8.Lossy, Utf8.Valid;
    assert Varint.Append(|name|) + name + rest == Varint.Append(|name|) + (name + rest);
    TakeVarintAppend(|name|, name + rest);
    Utf8.LossyKeepsValid(name);
    assert (name + rest)[..|name|] == name;
  }

  // Parsing undoes printing exactly when both names fit; otherwise it reports it.
  lemma ParseToBytes(m: Message)
    requires WellTyped(m)
    ensures Parse(ToBytes(m)) == if NamesFit(m) then Ok(m) else Err(NameTooLong)
    ensures NamesFit(m) <==> |m.recipient| <= 256 && |m.sender| <= 256
  {
    hide TakeVarint, TakeName;
    var tail := Varint.Append(|m.sender|) + m.sender + m.body;
    var names := Varint.Append(|m.recipient|) + m.recipient + tail;
    assert ToBytes(m) == m.id + (Varint.Append(m.flags) + names);
    TakeVarintAppend(m.flags, names);
    TakeNameAppend(m.recipient, tail);
    TakeNameAppend(m.sender, m.body);
  }

  // ----- Layout -------------------------------------------------------------

  // The segments of a message, in the order they appear in its buffer.
  datatype Segments = Segments(id: Bytes, flags: Bytes, recipientLength: Bytes, recipient: Bytes,
                               senderLength: Bytes, sender: Bytes, body: Bytes)
  {
    function Joined(): Bytes {
      id + flags + recipientLength + recipient + senderLength + sender + body
    }
  }

  predicate IsVarint(bytes: Bytes, x: nat) {
    var r := Varint.Read(bytes);
    r.Some? && r.value == (x, |bytes|)
  }

  predicate Describes(g: Segments, m: Message) {
    && g.id == m.id && |g.id| == ID_LEN
    && IsVarint(g.flags, m.flags)
    && IsVarint(g.recipientLength, |g.recipient|) && |g.recipient| <= MAX_NAME
    && m.recipient == Utf8.Lossy(g.recipient)
    && IsVarint(g.senderLength, |g.sender|) && |g.sender| <= MAX_NAME
    && m.sender == Utf8.Lossy(g.sender)
    && g.body == m.body
  }

  lemma TakeVarintSplit(buf: Bytes) returns (bytes: Bytes)
    requires TakeVarint(buf).Ok?
    ensures buf == bytes + TakeVarint(buf).value.1 && IsVarint(bytes, TakeVarint(buf).value.0)
  {
    var n := Varint.Read(buf).value.1;
    bytes := buf[..n];
    Varint.ReadFromPrefix(buf, [], 0);
    assert bytes + [] == bytes;
  }

  lemma TakeNameSplit(buf: Bytes) returns (length: Bytes, name: Bytes)
    requires TakeName(buf).Ok?
    ensures buf == length + name + TakeName(buf).value.1
    ensures IsVarint(length, |name|) && |name| <= MAX_NAME
    ensures TakeName(buf).value.0 == Utf8.Lossy(name)
  {
    length := TakeVarintSplit(buf);
    var (len, rest) := TakeVarint(buf).value;
    name := rest[..len];
    assert rest == name + rest[len..];
  }

  // On success the segments partition the buffer, with nothing skipped or read twice.
  lemma ParseLayout(buf: Bytes) returns (g: Segments)
    requires Parse(buf).Ok?
    ensures buf == g.Joined() && Describes(g, Parse(buf).value)
  {
    hide TakeVarint, TakeName, IsVarint;
    var flags := TakeVarintSplit(buf[ID_LEN..]);
    var names := TakeVarint(buf[ID_LEN..]).value.1;
    var recipientLength, recipient := TakeNameSplit(names);
    var tail := TakeName(names).value.1;
    var senderLength, sender := TakeNameSplit(tail);
    var body := TakeName(tail).value.1;
    g := Segments(buf[..ID_LEN], flags, recipientLength, recipient, senderLength, sender, body);
    assert buf == g.id + (flags + (recipientLength + recipient + (senderLength + sender + body)));
  }

  lemma TakeVarintJoin(bytes: Bytes, x: nat, rest: Bytes)
    requires IsVarint(bytes, x)
    ensures TakeVarint(bytes + rest) == Ok((x, rest))
  {
    Varint.ReadFromPrefix(bytes, rest, 0);
    assert bytes[..|bytes|] == bytes;
  }

  lemma TakeNameJoin(length: Bytes, name: Bytes, rest: Bytes)
    requires IsVarint(length, |name|) && |name| <= MAX_NAME
    ensures TakeName(length + name + rest) == Ok((Utf8.Lossy(name), rest))
  {
    assert length + name + rest == length + (name + rest);
    TakeVarintJoin(length, |name|, name + rest);
    assert (name + rest)[..|name|] == name;
  }

  // Conversely every buffer with such a layout parses to the message it describes.
  lemma LayoutParses(g: Segments, m: Message)
    requires Describes(g, m)
    ensures Parse(g.Joined()) == Ok(m)
  {
    hide TakeVarint, TakeName, IsVarint;
    var tail := g.senderLength + g.sender + g.body;
    var names := g.recipientLength + g.recipient + tail;
    assert g.Joined() == g.id + (g.flags + names);
    TakeVarintJoin(g.flags, m.flags, names);
    TakeNameJoin(g.recipientLength, g.recipient, tail);
    TakeNameJoin(g.senderLength, g.sender, g.body);
  }

  // ----- Printing what was parsed -------------------------------------------

  // A parsed message prints and parses again unless lossy decoding of a
  // malformed name has made it too long.
  lemma Reparse(buf: Bytes)
    requires Parse(buf).Ok?
    ensures var m := Parse(buf).value;
            && WellTyped(m)
            && Parse(ToBytes(m)) == if NamesFit(m) then Ok(m) else Err(NameTooLong)
  {
    hide Parse, ToBytes;
    var g := ParseLayout(buf);
    Utf8.LossyIsValid(g.recipient);
    Utf8.LossyGrowth(g.recipient);
    Utf8.LossyIsValid(g.sender);
    Utf8.LossyGrowth(g.sender);
    ParseToBytes(Parse(buf).value);
  }

  lemma {:induction false} LossyOfBadBytes(n: nat)
    ensures |Utf8.Lossy(seq(n, _ => 0xFF))| == 3 * n
  {
    if n > 0 {
      var s: Bytes := seq(n, _ => 0xFF);
      assert s[1..] == seq(n - 1, _ => 0xFF);
      LossyOfBadBytes(n - 1);
    }
  }

  // It can happen: 86 bytes that introduce no sequence decode to 258.
  lemma ReparseCanFail(id: Bytes) returns (buf: Bytes)
    requires |id| == ID_LEN
    ensures Parse(buf).Ok? && Parse(ToBytes(Parse(buf).value)) == Err(NameTooLong)
  {
    var bad: Bytes := seq(86, _ => 0xFF);
    var g := Segments(id, [0], [86], bad, [0], [], []);
    var m := Message(id, 0, Utf8.Lossy(bad), [], []);
    LossyOfBadBytes(86);
    LayoutParses(g, m);
    buf := g.Joined();
    Reparse(buf);
  }

  // ----- The buffer operations ----------------------------------------------

  method MessageToBytes(m: Message) returns (buf: Bytes)
    requires WellTyped(m)
    ensures buf == ToBytes(m)
  {
    hide Varint.Append, Utf8.Valid;
    buf := [];
    buf := buf + m.id;
    buf := buf + Varint.Append(m.flags);
    buf := buf + Varint.Append(|m.recipient|);
    buf := buf + m.recipient;
    buf := buf + Varint.Append(|m.sender|);
    buf := buf + m.sender;
    buf := buf + m.body;
  }

  // Reading at a position stays in bounds and leaves the position at what remains.
  method ReadVarint(buf: Bytes, pos: nat) returns (r: Result<u64, Error>, next: nat)
    requires pos <= |buf|
    ensures pos <= next <= |buf|
    ensures TakeVarint(buf[pos..]) == if r.Ok? then Ok((r.value, buf[next..])) else Err(r.error)
  {
    var v := Varint.Read(buf[pos..]);
    if v.None? {
      return Err(Truncated), pos;
    }
    next := pos + v.value.1;
    assert buf[pos..][v.value.1..] == buf[next..];
    r := Ok(v.value.0);
  }

  method ReadName(buf: Bytes, pos: nat) returns (r: Result<Str, Error>, next: nat)
    requires pos <= |buf|
    ensures pos <= next <= |buf|
    ensures TakeName(buf[pos..]) == if r.Ok? then Ok((r.value, buf[next..])) else Err(r.error)
  {
    hide TakeVarint;
    var len, start := ReadVarint(buf, pos);
    if len.Err? {
      return Err(len.error), pos;
    }
    if len.value > MAX_NAME {
      return Err(NameTooLong), pos;
    }
    if |buf| - start < len.value {
      return Err(Truncated), pos;
    }
    next := start + len.value;
    assert buf[start..][..len.value] == buf[start..next];
    assert buf[start..][len.value..] == buf[next..];
    r := Ok(Utf8.Lossy(buf[start..next]));
  }

  method ParseMessage(buf: Bytes) returns (r: Result<Message, Error>)
    ensures r == Parse(buf)
  {
    hide TakeVarint, TakeName;
    if |buf| < ID_LEN {
      return Err(Truncated);
    }
    var pos := ID_LEN;
    var flags, recipient, sender;
    flags, pos := ReadVarint(buf, pos);
    if flags.Err? {
      return Err(flags.error);
    }
    recipient, pos := ReadName(buf, pos);
    if recipient.Err? {
      return Err(recipient.error);
    }
    sender, pos := ReadName(buf, pos);
    if sender.Err? {
      return Err(sender.error);
    }
    r := Ok(Message(buf[..ID_LEN], flags.value, recipient.value, sender.value, buf[pos..]));
  }

  // ----- Packets ------------------------------------------------------------

  const PING_PONG: u8 := 0
  const HANDSHAKE: u8 := 1
  const INSTANT_MSG: u8 := 2

  // Handshake bodies stay in their CBOR form.
  datatype Packet =
    | Ping(data: Bytes)
    | HandshakeRequest(cbor: Bytes)
    | HandshakeResponse(cbor: Bytes)
    | Instant(message: Message)

  function EncodePacket(p: Packet): Bytes {
    match p
    case Ping(data) => [PING_PONG] + data
    case HandshakeRequest(cbor) => [HANDSHAKE] + cbor
    case HandshakeResponse(cbor) => [HANDSHAKE] + cbor
    case Instant(m) => [INSTANT_MSG] + ToBytes(m)
  }

  function VersionAndPacket(v: u8): (nat, nat) {
    (And(Shr(v, 4), 0xF), And(v, 0xF))
  }

  function ParsePacket(buf: Bytes, isClient: bool): Result<Packet, Error> {
    if buf == [] then Err(EmptyBuffer)
    else
      var (version, packet) := VersionAndPacket(buf[0]);
      var rest := buf[1..];
      if version != 0 then Err(InvalidVersion(version, packet))
      else if packet == PING_PONG then Ok(Ping(rest))
      else if packet == HANDSHAKE then Ok(if isClient then HandshakeRequest(rest) else HandshakeResponse(rest))
      else if packet == INSTANT_MSG then
        var m := Parse(rest);
        if m.Ok? then Ok(Instant(m.value)) else Err(m.error)
      else Err(UnknownPacket(packet))
  }

  lemma Nibbles(v: u8)
    ensures VersionAndPacket(v) == (v / 16, v % 16)
  {
    hide And;
    Pow2Values();
    AndMask(v / 16, 4);
    AndMask(v, 4);
  }

  // The packet header identifies each kind, and the payload comes back unchanged.
  lemma ParseEncodedPacket(p: Packet, isClient: bool)
    requires p.Instant? ==> WellTyped(p.message)
    requires p.HandshakeRequest? ==> isClient
    requires p.HandshakeResponse? ==> !isClient
    ensures ParsePacket(EncodePacket(p), isClient)
         == if p.Instant? && !NamesFit(p.message) then Err(NameTooLong) else Ok(p)
    ensures EncodePacket(p)[0] == if p.Ping? then 0 else if p.Instant? then 2 else 1
  {
    hide Parse, ToBytes, VersionAndPacket;
    Nibbles(EncodePacket(p)[0]);
    assert EncodePacket(p)[1..] == match p { case Ping(d) => d case Instant(m) => ToBytes(m)
                                             case HandshakeRequest(c) => c case HandshakeResponse(c) => c };
    if p.Instant? {
      ParseToBytes(p.message);
    }
  }

  // Framing errors are reported for exactly these first bytes.
  lemma PacketErrors(buf: Bytes, isClient: bool)
    ensures ParsePacket(buf, isClient) == Err(EmptyBuffer) <==> buf == []
    ensures buf != [] && buf[0] >= 16
        ==> ParsePacket(buf, isClient) == Err(InvalidVersion(buf[0] / 16, buf[0] % 16))
    ensures buf != [] && 3 <= buf[0] < 16
        ==> ParsePacket(buf, isClient) == Err(UnknownPacket(buf[0]))
    ensures buf != [] && buf[0] == INSTANT_MSG && Parse(buf[1..]).Err?
        ==> ParsePacket(buf, isClient) == Err(Parse(buf[1..]).error)
  {
    hide VersionAndPacket, Parse;
    if buf != [] {
      Nibbles(buf[0]);
    }
    ParseErrors(if buf == [] then [] else buf[1..]);
  }

  lemma ParseErrors(buf: Bytes)
    ensures Parse(buf).Err? ==> Parse(buf).error == Truncated || Parse(buf).error == NameTooLong
  {
  }
}
