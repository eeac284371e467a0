/** Remote calls from end to end: preparing and opening message bodies, answering
    a message through a handler, issuing a query and reading its reply, with the
    relay between two clients. Cryptography is a parameter with ideal laws. */
module Rpc {
  import opened Common
  import opened Bits
  import opened Wire
  import Address
  import Base64Url
  import Utf8
  import Uuid
  import Outgoing
  import Queries

  // What a client needs of another's ID card: its unexpired keys by purpose.
  datatype Card = Card(decryptKeys: set<Bytes>, signKeys: set<Bytes>)

  // A client: the hash of its key, its card, the keys it can decrypt with and
  // the key it signs with.
  datatype Node = Node(hash: Bytes, card: Card, secrets: set<Bytes>, signer: Bytes)

  datatype Opened = Opened(body: Bytes, decryption: nat, signers: set<Bytes>)

  // `seal` encrypts for some keys and signs, `sign` only signs, `open` undoes both.
  datatype Crypto = Crypto(
    seal: (set<Bytes>, Bytes, Bytes) -> Option<Bytes>,
    sign: (Bytes, Bytes) -> Option<Bytes>,
    open: (set<Bytes>, Bytes) -> Option<Opened>)

  // What is sealed for a key opens with it, to the same body and the true signer.
  ghost predicate SealIdeal(c: Crypto, keys: set<Bytes>, signer: Bytes, body: Bytes, secrets: set<Bytes>) {
    keys * secrets != {} ==>
      && c.seal(keys, signer, body).Some?
      && c.open(secrets, c.seal(keys, signer, body).value) == Some(Opened(body, 1, {signer}))
  }

  ghost predicate Ideal(c: Crypto) {
    forall keys, signer, body, secrets :: SealIdeal(c, keys, signer, body, secrets)
  }

  // What is only signed opens for anyone, and counts as not encrypted.
  ghost predicate SignIdeal(c: Crypto, signer: Bytes, body: Bytes, secrets: set<Bytes>) {
    && c.sign(signer, body).Some?
    && c.open(secrets, c.sign(signer, body).value) == Some(Opened(body, 0, {signer}))
  }

  ghost predicate SigningIdeal(c: Crypto) {
    forall signer, body, secrets :: SignIdeal(c, signer, body, secrets)
  }

  // What the holder of a signing key has sealed for some keys, or only signed.
  datatype Issue = Issue(signer: Bytes, keys: Option<set<Bytes>>, body: Bytes, blob: Bytes)

  // An issued seal for keys of this client's, with this body.
  predicate SealedFor(i: Issue, me: Node, body: Bytes, blob: Bytes) {
    i.keys.Some? && i.keys.value * me.secrets != {} && i.body == body && i.blob == blob
  }

  ghost predicate Vouched(c: Crypto, issued: iset<Issue>, secrets: set<Bytes>, blob: Bytes, signer: Bytes) {
    var o := c.open(secrets, blob);
    o.Some? && signer in o.value.signers ==>
      exists i :: i in issued && i.signer == signer && i.body == o.value.body && i.blob == blob
                  && (o.value.decryption > 0 ==> i.keys.Some? && i.keys.value * secrets != {})
  }

  // Opening follows the log of what key holders have issued, which may hold as
  // little as nothing: a signer is reported only for what it issued, decryption
  // only for what was sealed for one of the opening keys, and what was does open.
  ghost predicate OpensExactly(c: Crypto, issued: iset<Issue>) {
    && (forall secrets, blob, signer :: Vouched(c, issued, secrets, blob, signer))
    && (forall i, secrets :: i in issued && i.keys.Some? && i.keys.value * secrets != {} ==>
          c.open(secrets, i.blob) == Some(Opened(i.body, 1, {i.signer})))
  }

  // A client can read what is encrypted for its card, and its card vouches for
  // its signatures.
  predicate Sound(n: Node) {
    |n.hash| == 32 && n.card.decryptKeys * n.secrets != {} && n.signer in n.card.signKeys
  }

  // The ID cards a client can obtain, by key hash.
  type Cards = Bytes -> Option<Card>

  type Handler = Message -> Result<Option<Bytes>, Str>

  datatype Error = InvalidTarget | NoCard | Unsealable | Undecodable | NotEncrypted | Remote(text: Str)

  // ----- Message bodies -----------------------------------------------------

  function Prepare(c: Crypto, me: Node, rid: Option<Card>, payload: Bytes): Option<Bytes> {
    if rid.Some? then c.seal(rid.value.decryptKeys, me.signer, payload) else c.sign(me.signer, payload)
  }

  predicate SignedBy(o: Opened, card: Card) { o.signers * card.signKeys != {} }

  function Decode(c: Crypto, me: Node, rid: Option<Card>, payload: Bytes): Option<Bytes> {
    var o := c.open(me.secrets, payload);
    if o.None? then None
    else if rid.Some? && o.value.decryption == 0 then None
    else if rid.Some? && !SignedBy(o.value, rid.value) then None
    else Some(o.value.body)
  }

  function CardFor(cards: Cards, rcv: Str): Option<Card> {
    match Address.RecipientHash(rcv)
    case Ok(h) => cards(h)
    case Err(_) => None
  }

  // ----- Answering a message ------------------------------------------------

  const NO_REPLY: Str :=
    ['/' as int, 'n' as int, 'o' as int, 'r' as int, 'e' as int, 'p' as int, 'l' as int, 'y' as int]

  predicate Bottled(m: Message) { !Has(m.flags, FLAG_NOT_BOTTLE) }

  // The message as the handler sees it, if it can be read at all.
  function Readable(c: Crypto, me: Node, cards: Cards, m: Message): Option<Message> {
    if !Bottled(m) then Some(m)
    else
      var rid := CardFor(cards, m.sender);
      if rid.None? then None
      else
        var body := Decode(c, me, rid, m.body);
        if body.None? then None else Some(m.(body := body.value))
  }

  function Reply(c: Crypto, me: Node, cards: Cards, m: Message, h: Handler): Option<Message> {
    var seen := Readable(c, me, cards, m);
    if seen.None? || Has(m.flags, FLAG_RESPONSE) then None
    else
      var res := h(seen.value);
      if res == Ok(None) then None
      else
        var text := if res.Ok? then res.value.value else res.error;
        var body := if Bottled(m) then Prepare(c, me, CardFor(cards, m.sender), text) else Some(text);
        if body.None? then None
        else Some(Message(m.id, ReplyFlags(res.Err?, !Bottled(m)), m.sender, NO_REPLY, body.value))
  }

  // Runs the handler on a received message and queues its answer.
  method RunHandler(c: Crypto, me: Node, cards: Cards, m: Message, h: Handler, wrq: Outgoing.WriteQueue)
    modifies wrq
    ensures var r := Reply(c, me, cards, m, h);
            wrq.q == if r.Some? then old(wrq.q) + [r.value] else old(wrq.q)
  {
    hide Has, Address.RecipientHash;
    var msg := m;
    var rid: Option<Card> := None;
    if !Has(msg.flags, FLAG_NOT_BOTTLE) {
      rid := CardFor(cards, msg.sender);
      if rid.None? {
        return;
      }
      var clear := Decode(c, me, rid, msg.body);
      if clear.None? {
        return;
      }
      msg := msg.(body := clear.value);
    }
    var res := h(msg);
    if Has(msg.flags, FLAG_RESPONSE) {
      return;
    }
    var error, body := false, [];
    match res {
      case Ok(None) => return;
      case Ok(Some(b)) => body := b;
      case Err(e) =>
        error := true;
        body := e;
    }
    var plain := false;
    if !Has(msg.flags, FLAG_NOT_BOTTLE) {
      var prepared := Prepare(c, me, rid, body);
      if prepared.None? {
        return;
      }
      body := prepared.value;
    } else {
      plain := true;
    }
    wrq.Push(Message(msg.id, ReplyFlags(error, plain), msg.sender, NO_REPLY, body));
  }

  // An answer carries the request's id, goes back to its sender, is marked as a
  // response and as an error exactly when the handler failed, and is a bottle
  // exactly when the request was; a response is never answered.
  lemma ReplyShape(c: Crypto, me: Node, cards: Cards, m: Message, h: Handler)
    ensures Has(m.flags, FLAG_RESPONSE) ==> Reply(c, me, cards, m, h).None?
    ensures var r := Reply(c, me, cards, m, h);
            r.Some? ==>
              && r.value.id == m.id && r.value.recipient == m.sender && r.value.sender == NO_REPLY
              && Has(r.value.flags, FLAG_RESPONSE)
              && Has(r.value.flags, FLAG_NOT_BOTTLE) == Has(m.flags, FLAG_NOT_BOTTLE)
              && Has(r.value.flags, FLAG_ERROR) == h(Readable(c, me, cards, m).value).Err?
  {
    hide Has, Address.RecipientHash;
  }

  lemma SealedDecodes(c: Crypto, issued: iset<Issue>, me: Node, card: Card, i: Issue)
    requires OpensExactly(c, issued)
    requires i in issued && i.signer in card.signKeys && SealedFor(i, me, i.body, i.blob)
    ensures Decode(c, me, Some(card), i.blob) == Some(i.body)
  {
    assert c.open(me.secrets, i.blob) == Some(Opened(i.body, 1, {i.signer}));
    assert i.signer in {i.signer} * card.signKeys;
  }

  // What a client decodes as signed under a card is exactly what a key of that
  // card sealed for it.
  lemma DecodedExactly(c: Crypto, issued: iset<Issue>, me: Node, card: Card, blob: Bytes, body: Bytes)
    requires OpensExactly(c, issued)
    ensures Decode(c, me, Some(card), blob) == Some(body) <==>
              exists i :: i in issued && i.signer in card.signKeys && SealedFor(i, me, body, blob)
  {
    if Decode(c, me, Some(card), blob) == Some(body) {
      var o := c.open(me.secrets, blob).value;
      var signer :| signer in o.signers * card.signKeys;
      assert Vouched(c, issued, me.secrets, blob, signer);
    }
    forall i | i in issued && i.signer in card.signKeys && SealedFor(i, me, body, blob)
      ensures Decode(c, me, Some(card), blob) == Some(body)
    {
      SealedDecodes(c, issued, me, card, i);
    }
  }

  // Whatever message the relay hands over: a handler is given a bottled one if
  // and only if a key on the card of the sender it names sealed it for this
  // client, and then with the body that was sealed. One marked as no bottle is
  // given as it is.
  lemma HandlerInput(c: Crypto, issued: iset<Issue>, me: Node, cards: Cards, m: Message, seen: Message)
    requires OpensExactly(c, issued)
    ensures Readable(c, me, cards, m) == Some(seen) <==>
              if !Bottled(m) then seen == m
              else
                var card := CardFor(cards, m.sender);
                && card.Some? && seen == m.(body := seen.body)
                && exists i :: i in issued && i.signer in card.value.signKeys && SealedFor(i, me, seen.body, m.body)
  {
    hide Has, CardFor, OpensExactly, Decode, SealedFor;
    var card := CardFor(cards, m.sender);
    if Bottled(m) && card.Some? {
      DecodedExactly(c, issued, me, card.value, m.body, seen.body);
      assert m.(body := seen.body).body == seen.body;
    }
  }

  // A handler sees a message that is no bottle as it came, and what it returns
  // goes back as it is.
  lemma PlainReply(c: Crypto, me: Node, cards: Cards, m: Message, h: Handler)
    requires !Bottled(m) && !Has(m.flags, FLAG_RESPONSE)
    ensures Reply(c, me, cards, m, h) ==
            match h(m)
            case Ok(None) => None
            case Ok(Some(r)) => Some(Message(m.id, ReplyFlags(false, true), m.sender, NO_REPLY, r))
            case Err(e) => Some(Message(m.id, ReplyFlags(true, true), m.sender, NO_REPLY, e))
  {
    hide Has, ReplyFlags;
  }

  // ----- Queries ------------------------------------------------------------

  // The card a query is encrypted for: that of a key-based target.
  function QueryCard(cards: Cards, target: Str): Result<Option<Card>, Error> {
    if target == [] then Err(InvalidTarget)
    else if target[0] != Address.KEY_TYPE then Ok(None)
    else
      var card := CardFor(cards, target);
      if card.Some? then Ok(card) else Err(NoCard)
  }

  function Request(c: Crypto, me: Node, cards: Cards, target: Str, payload: Bytes, id: Bytes): Result<Message, Error> {
    var rid := QueryCard(cards, target);
    if rid.Err? then Err(rid.error)
    else
      var body := Prepare(c, me, rid.value, payload);
      if body.None? then Err(Unsealable)
      else Ok(Message(id, 0, target, [SLASH] + Uuid.UuidString(id), body.value))
  }

  // A query is refused before anything is sent for an empty target, for a
  // key-based one whose card cannot be had, and if the body cannot be prepared.
  lemma RefusedExactly(c: Crypto, me: Node, cards: Cards, target: Str, payload: Bytes, id: Bytes)
    ensures var r := Request(c, me, cards, target, payload, id);
            && (r == Err(InvalidTarget) <==> target == [])
            && (r == Err(NoCard) <==> target != [] && target[0] == Address.KEY_TYPE && CardFor(cards, target).None?)
            && (r.Ok? ==> r.value.recipient == target && r.value.flags == 0 && r.value.id == id)
  {
    hide CardFor, Prepare;
  }

  // Registers the reply queue and queues the request; the caller then waits on
  // the mailbox.
  method StartQuery(c: Crypto, me: Node, cards: Cards, target: Str, payload: Bytes, id: Bytes,
                    router: Queries.Router, wrq: Outgoing.WriteQueue) returns (r: Result<Queries.Mailbox, Error>)
    modifies router`inQ, wrq
    ensures match Request(c, me, cards, target, payload, id)
            case Ok(m) =>
              && r.Ok? && fresh(r.value) && r.value.mail == []
              && router.inQ == old(router.inQ)[Uuid.UuidString(id) := r.value] && wrq.q == old(wrq.q) + [m]
            case Err(e) => r == Err(e) && router.inQ == old(router.inQ) && wrq.q == old(wrq.q)
  {
    hide Address.RecipientHash;
    if target == [] {
      return Err(InvalidTarget);
    }
    var rid: Option<Card> := None;
    if target[0] == Address.KEY_TYPE {
      rid := CardFor(cards, target);
      if rid.None? {
        return Err(NoCard);
      }
    }
    var body := Prepare(c, me, rid, payload);
    if body.None? {
      return Err(Unsealable);
    }
    var idText := Uuid.Format(id);
    var rx := router.MakeInQ(idText);
    wrq.Push(Message(id, 0, target, [SLASH] + idText, body.value));
    r := Ok(rx);
  }

  // What the query makes of the message that reached its reply queue.
  function Outcome(c: Crypto, me: Node, rid: Option<Card>, obj: Message): Result<Bytes, Error> {
    if !Bottled(obj) && rid.Some? then Err(NotEncrypted)
    else
      var body := if Bottled(obj) then Decode(c, me, rid, obj.body) else Some(obj.body);
      if body.None? then Err(Undecodable)
      else if Has(obj.flags, FLAG_ERROR) then Err(Remote(Utf8.Lossy(body.value)))
      else Ok(body.value)
  }

  // Whatever message the relay hands over: a query to a key-based target accepts
  // it as the result x if and only if a key on the target's card sealed x for
  // this client in that very bottle, and no ERROR or NOT_BOTTLE flag is set.
  lemma AcceptedIsAuthentic(c: Crypto, issued: iset<Issue>, me: Node, card: Card, obj: Message, x: Bytes)
    requires OpensExactly(c, issued)
    ensures Outcome(c, me, Some(card), obj) == Ok(x) <==>
              && Bottled(obj) && !Has(obj.flags, FLAG_ERROR)
              && exists i :: i in issued && i.signer in card.signKeys && SealedFor(i, me, x, obj.body)
  {
    hide Has, OpensExactly, Decode, SealedFor;
    DecodedExactly(c, issued, me, card, obj.body, x);
  }

  // Nor is an error the target's unless it was sealed in its name; a bottle that
  // was not is reported as undecodable, and no bottle as not encrypted.
  lemma ErrorsAreAuthentic(c: Crypto, issued: iset<Issue>, me: Node, card: Card, obj: Message)
    requires OpensExactly(c, issued)
    ensures var r := Outcome(c, me, Some(card), obj);
            && (r == Err(NotEncrypted) <==> !Bottled(obj))
            && (r == Err(Undecodable) <==> Bottled(obj) && !IsSealed(issued, me, card, obj.body))
            && (forall text :: r == Err(Remote(text)) <==>
                  && Bottled(obj) && Has(obj.flags, FLAG_ERROR)
                  && exists body :: text == Utf8.Lossy(body) && SealedBy(issued, me, card, body, obj.body))
  {
    hide Has, OpensExactly, Decode, SealedFor, Utf8.Lossy;
    forall body
      ensures Decode(c, me, Some(card), obj.body) == Some(body) <==> SealedBy(issued, me, card, body, obj.body)
    {
      DecodedExactly(c, issued, me, card, obj.body, body);
    }
  }

  // A key on this card sealed this body for the client in this bottle.
  ghost predicate SealedBy(issued: iset<Issue>, me: Node, card: Card, body: Bytes, blob: Bytes) {
    exists i :: i in issued && i.signer in card.signKeys && SealedFor(i, me, body, blob)
  }

  ghost predicate IsSealed(issued: iset<Issue>, me: Node, card: Card, blob: Bytes) {
    exists body :: SealedBy(issued, me, card, body, blob)
  }

  // If no key on the target's card has sealed anything for this client, no message
  // at all makes its query succeed, and none gets a bottle to a handler in the
  // name of that card.
  lemma NothingSealedNothingAccepted(c: Crypto, issued: iset<Issue>, me: Node, card: Card, cards: Cards, obj: Message)
    requires OpensExactly(c, issued)
    requires forall i :: i in issued && i.signer in card.signKeys && i.keys.Some? ==> i.keys.value * me.secrets == {}
    ensures Outcome(c, me, Some(card), obj).Err?
    ensures Bottled(obj) && CardFor(cards, obj.sender) == Some(card) ==> Readable(c, me, cards, obj).None?
  {
    hide Has, OpensExactly, Decode, CardFor;
    if Outcome(c, me, Some(card), obj).Ok? {
      AcceptedIsAuthentic(c, issued, me, card, obj, Outcome(c, me, Some(card), obj).value);
    }
    if Bottled(obj) && CardFor(cards, obj.sender) == Some(card) && Readable(c, me, cards, obj).Some? {
      HandlerInput(c, issued, me, cards, obj, Readable(c, me, cards, obj).value);
    }
  }

  // The flags are outside the bottle, so this covers the body only: with the
  // ERROR flag set on the way a result is taken for an error.
  lemma FlagsAreOutside(c: Crypto, me: Node, rid: Option<Card>, obj: Message, x: Bytes)
    requires obj.flags == ReplyFlags(false, false) && Outcome(c, me, rid, obj) == Ok(x)
    ensures Outcome(c, me, rid, obj.(flags := ReplyFlags(true, false))) == Err(Remote(Utf8.Lossy(x)))
  {
    hide Has, ReplyFlags, Decode, Utf8.Lossy;
  }

  // ----- The relay ----------------------------------------------------------

  function FromRelay(m: Message, origin: Bytes): Message { m.(sender := Address.TargetId(origin) + m.sender) }

  // A message's way from one client's queue to the other's reader: printed,
  // parsed by the relay, given its origin, printed and parsed again.
  function Transmit(m: Message, origin: Bytes): Option<Message> {
    match ParsePacket(EncodePacket(Instant(m)), false)
    case Ok(Instant(seen)) =>
      (match ParsePacket(EncodePacket(Instant(FromRelay(seen, origin))), true)
       case Ok(Instant(received)) => Some(received)
       case _ => None)
    case _ => None
  }

  lemma AddressFits(hash: Bytes)
    requires |hash| == 32
    ensures |Address.TargetId(hash)| == 45 && Utf8.Valid(Address.TargetId(hash))
  {
    hide Base64Url.Encode, Utf8.Valid;
    Base64Url.EncodeIsAscii(hash);
    Utf8.AsciiValid(Address.TargetId(hash));
  }

  // A message arrives, with its origin in front of the sender, exactly when its
  // names fit.
  lemma TransmitArrives(m: Message, origin: Bytes)
    requires WellTyped(m) && |origin| == 32
    ensures Transmit(m, origin) == if NamesFit(FromRelay(m, origin)) then Some(FromRelay(m, origin)) else None
  {
    hide Address.TargetId, EncodePacket, ParsePacket, Utf8.Valid;
    AddressFits(origin);
    ParseEncodedPacket(Instant(m), false);
    if NamesFit(m) {
      Utf8.ValidCat(Address.TargetId(origin), m.sender);
      ParseEncodedPacket(Instant(FromRelay(m, origin)), true);
    }
  }

  // ----- A whole call -------------------------------------------------------

  // A lost call leaves the query waiting until its deadline.
  datatype Call = Lost | Returned(result: Result<Bytes, Error>)

  // `a` queries `target`, which the relay delivers to `b`, whose answer the relay
  // delivers to `a`.
  function RemoteCall(c: Crypto, a: Node, cardsA: Cards, b: Node, cardsB: Cards, waiting: set<Str>,
                      handlers: map<Str, Handler>, target: Str, payload: Bytes, id: Bytes): Call
  {
    var request := Request(c, a, cardsA, target, payload, id);
    if request.Err? then Returned(Err(request.error))
    else Answered(c, a, cardsA, b, cardsB, waiting, handlers, request.value)
  }

  // `waiting` are the reply keys of b's own queries, which come before handlers.
  function Answered(c: Crypto, a: Node, cardsA: Cards, b: Node, cardsB: Cards, waiting: set<Str>,
                    handlers: map<Str, Handler>, request: Message): Call
  {
    var atB := Transmit(request, a.hash);
    if atB.None? then Lost
    else
      var name := Address.RouteName(atB.value.recipient);
      if name.None? || name.value in waiting || name.value !in handlers then Lost
      else
        var reply := Reply(c, b, cardsB, atB.value, handlers[name.value]);
        if reply.None? then Lost
        else Received(c, a, cardsA, b, request, reply.value)
  }

  function Received(c: Crypto, a: Node, cardsA: Cards, b: Node, request: Message, reply: Message): Call {
    var rid := QueryCard(cardsA, request.recipient);
    var atA := Transmit(reply, b.hash);
    if atA.None? || rid.Err? then Lost
    else if Address.RouteName(atA.value.recipient) != Some(Uuid.UuidString(request.id)) then Lost
    else Returned(Outcome(c, a, rid.value, atA.value))
  }

  // What each client may rely on: the directory gives it the other's card.
  ghost predicate Acquainted(c: Crypto, a: Node, cardsA: Cards, b: Node, cardsB: Cards) {
    && Ideal(c) && Sound(a) && Sound(b)
    && cardsA(b.hash) == Some(b.card) && cardsB(a.hash) == Some(a.card)
  }

  // What is sealed for a card and signed opens to the same body for its owner.
  lemma SealedOpens(c: Crypto, from: Node, to: Node, payload: Bytes)
    requires Ideal(c) && Sound(from) && Sound(to)
    ensures var sealed := Prepare(c, from, Some(to.card), payload);
            sealed.Some? && Decode(c, to, Some(from.card), sealed.value) == Some(payload)
  {
    assert SealIdeal(c, to.card.decryptKeys, from.signer, payload, to.secrets);
    assert from.signer in {from.signer} * from.card.signKeys;
  }

  function ReplyAddress(a: Node, id: Bytes): Str { Address.TargetId(a.hash) + [SLASH] + Uuid.UuidString(id) }

  // The reply address is short, is text, gives back the sender's hash, and routes
  // to the query's own key.
  lemma ReplyAddressWorks(a: Node, id: Bytes)
    requires |a.hash| == 32 && |id| == ID_LEN
    ensures var reply := ReplyAddress(a, id);
            && |reply| == 82 && Utf8.Valid(reply)
            && Utf8.Valid([SLASH] + Uuid.UuidString(id)) && |Uuid.UuidString(id)| == 36
            && Address.RecipientHash(reply) == Ok(a.hash)
            && Address.RouteName(reply) == Some(Uuid.UuidString(id))
  {
    hide Address.TargetId, Address.RecipientHash, Address.RouteName, Utf8.Valid, Uuid.UuidString;
    var text := Uuid.UuidString(id);
    AddressFits(a.hash);
    Uuid.UuidStringLength(id);
    Uuid.UuidStringHasNoSlash(id);
    Utf8.AsciiValid([SLASH] + text);
    Utf8.ValidCat(Address.TargetId(a.hash), [SLASH] + text);
    assert Address.TargetId(a.hash) + ([SLASH] + text) == ReplyAddress(a, id);
    Address.TargetIdParses(a.hash, [SLASH] + text);
    Address.RouteNameOfPath(Address.TargetId(a.hash), text, []);
    assert ReplyAddress(a, id) + [] == ReplyAddress(a, id);
  }

  // The request as the remote handler sees it.
  function Seen(a: Node, target: Str, payload: Bytes, id: Bytes): Message {
    Message(id, 0, target, ReplyAddress(a, id), payload)
  }

  lemma RequestBuilt(c: Crypto, a: Node, cardsA: Cards, b: Node, target: Str, payload: Bytes, id: Bytes)
    requires Ideal(c) && Sound(a) && Sound(b) && cardsA(b.hash) == Some(b.card)
    requires Address.RecipientHash(target) == Ok(b.hash)
    ensures QueryCard(cardsA, target) == Ok(Some(b.card)) && Prepare(c, a, Some(b.card), payload).Some?
    ensures Request(c, a, cardsA, target, payload, id)
         == Ok(Message(id, 0, target, [SLASH] + Uuid.UuidString(id), Prepare(c, a, Some(b.card), payload).value))
  {
    hide Ideal, Prepare, Uuid.UuidString, Address.RecipientHash;
    SealedOpens(c, a, b, payload);
    KeyBased(target);
  }

  lemma RequestReadable(c: Crypto, a: Node, b: Node, cardsB: Cards, target: Str, payload: Bytes, id: Bytes, body: Bytes)
    requires Ideal(c) && Sound(a) && Sound(b) && cardsB(a.hash) == Some(a.card) && |id| == ID_LEN
    requires Prepare(c, a, Some(b.card), payload) == Some(body)
    ensures Readable(c, b, cardsB, Seen(a, target, body, id)) == Some(Seen(a, target, payload, id))
  {
    hide Ideal, Prepare, Decode, ReplyAddress, Has, Address.RecipientHash, Address.RouteName, Utf8.Valid;
    SealedOpens(c, a, b, payload);
    ReplyAddressWorks(a, id);
    NoFlags();
  }

  lemma RequestTransmitted(a: Node, target: Str, body: Bytes, id: Bytes)
    requires |a.hash| == 32 && |id| == ID_LEN && Utf8.Valid(target) && |target| < TWO_TO_THE_64
    ensures Transmit(Message(id, 0, target, [SLASH] + Uuid.UuidString(id), body), a.hash)
         == if |target| > MAX_NAME then None else Some(Seen(a, target, body, id))
  {
    hide ReplyAddress, Utf8.Valid, Uuid.UuidString, Address.TargetId, Transmit;
    ReplyAddressWorks(a, id);
    SenderPrefixed(a, id);
    TransmitArrives(Message(id, 0, target, [SLASH] + Uuid.UuidString(id), body), a.hash);
  }

  lemma SenderPrefixed(a: Node, id: Bytes)
    ensures Address.TargetId(a.hash) + ([SLASH] + Uuid.UuidString(id)) == ReplyAddress(a, id)
  {
    hide Address.TargetId, Uuid.UuidString;
  }

  lemma NoFlags()
    ensures !Has(0, FLAG_NOT_BOTTLE) && !Has(0, FLAG_RESPONSE)
  {
  }

  lemma KeyBased(target: Str)
    requires Address.RecipientHash(target).Ok?
    ensures target != [] && target[0] == Address.KEY_TYPE
  {
    hide Base64Url.Decode, Address.RecipientHash;
    Address.RecipientHashExact(target);
    var head := Address.Before(target, SLASH);
    assert head[0] == target[..|head|][0];
  }

  // The answer to a request from `a`, once the relay has brought it back.
  lemma AnswerArrives(c: Crypto, a: Node, cardsA: Cards, b: Node, cardsB: Cards,
                      request: Message, text: Bytes, error: bool)
    requires Acquainted(c, a, cardsA, b, cardsB) && |request.id| == ID_LEN
    requires QueryCard(cardsA, request.recipient) == Ok(Some(b.card))
    ensures var body := Prepare(c, b, Some(a.card), text);
            && body.Some?
            && Received(c, a, cardsA, b, request,
                        Message(request.id, ReplyFlags(error, false), ReplyAddress(a, request.id), NO_REPLY,
                                body.value))
            == Returned(if error then Err(Remote(Utf8.Lossy(text))) else Ok(text))
  {
    hide Ideal, Prepare, Decode, Transmit, ReplyAddress, ReplyFlags, Utf8.Valid, Utf8.Lossy;
    hide Uuid.UuidString, Has, Address.RecipientHash, Address.RouteName, QueryCard;
    SealedOpens(c, b, a, text);
    ReplyAddressWorks(a, request.id);
    var body := Prepare(c, b, Some(a.card), text).value;
    var reply := Message(request.id, ReplyFlags(error, false), ReplyAddress(a, request.id), NO_REPLY, body);
    assert Utf8.Valid(NO_REPLY) by { Utf8.AsciiValid(NO_REPLY); }
    AddressFits(b.hash);
    TransmitArrives(reply, b.hash);
  }

  // A call to a key-based address returns exactly what the remote handler
  // returned, for every payload, endpoint and handler. It is lost exactly when the
  // address is too long to be sent, `b` waits for a reply of that name or has no
  // handler of it, or the handler chose not to answer.
  lemma Transparent(c: Crypto, a: Node, cardsA: Cards, b: Node, cardsB: Cards, waiting: set<Str>,
                    handlers: map<Str, Handler>, target: Str, endpoint: Str, payload: Bytes, id: Bytes)
    requires Acquainted(c, a, cardsA, b, cardsB) && |id| == ID_LEN
    requires Utf8.Valid(target) && |target| < TWO_TO_THE_64
    requires Address.RecipientHash(target) == Ok(b.hash) && Address.RouteName(target) == Some(endpoint)
    requires endpoint in handlers ==>
               forall m :: handlers[endpoint](m).Err? ==> Utf8.Valid(handlers[endpoint](m).error)
    ensures RemoteCall(c, a, cardsA, b, cardsB, waiting, handlers, target, payload, id) ==
            if |target| > MAX_NAME || endpoint in waiting || endpoint !in handlers then Lost
            else match handlers[endpoint](Seen(a, target, payload, id))
                 case Ok(None) => Lost
                 case Ok(Some(r)) => Returned(Ok(r))
                 case Err(e) => Returned(Err(Remote(e)))
  {
    hide Ideal, Prepare, Decode, Transmit, ReplyAddress, ReplyFlags, Received, Readable, Utf8.Valid, Utf8.Lossy;
    hide Uuid.UuidString, Has, Address.RecipientHash, Address.RouteName, QueryCard, Request;
    RequestBuilt(c, a, cardsA, b, target, payload, id);
    var request := Request(c, a, cardsA, target, payload, id).value;
    RequestTransmitted(a, target, request.body, id);
    RequestReadable(c, a, b, cardsB, target, payload, id, request.body);
    NoFlags();
    ReplyAddressWorks(a, id);
    if endpoint in handlers {
      var res := handlers[endpoint](Seen(a, target, payload, id));
      if res.Err? {
        Utf8.LossyKeepsValid(res.error);
        AnswerArrives(c, a, cardsA, b, cardsB, request, res.error, true);
      } else if res.value.Some? {
        AnswerArrives(c, a, cardsA, b, cardsB, request, res.value.value, false);
      }
    }
  }

  // ----- A call to the server -----------------------------------------------

  // How the server puts its answer: as it is, or in a bottle signed and, for a
  // card, sealed.
  datatype Form = Plain | Bottle(rid: Option<Card>)

  // `a` queries a target that is not key-based, such as `@/idcard_find`; the
  // server opens the request, serves it, and answers the sender.
  function ServerCall(c: Crypto, a: Node, cards: Cards, server: Node, form: Form, serve: Handler,
                      target: Str, payload: Bytes, id: Bytes): Call
  {
    var request := Request(c, a, cards, target, payload, id);
    if request.Err? then Returned(Err(request.error))
    else
      match ParsePacket(EncodePacket(Instant(request.value)), false)
      case Ok(Instant(seen)) => ServerAnswers(c, a, server, form, serve, FromRelay(seen, a.hash))
      case _ => Lost
  }

  function ServerAnswers(c: Crypto, a: Node, server: Node, form: Form, serve: Handler, request: Message): Call {
    var o := c.open(server.secrets, request.body);
    if o.None? then Lost
    else
      var res := serve(request.(body := o.value.body));
      if res == Ok(None) then Lost
      else
        var text := if res.Ok? then res.value.value else res.error;
        var body := if form.Plain? then Some(text) else Prepare(c, server, form.rid, text);
        if body.None? then Lost
        else
          PlainReceived(c, a, Message(request.id, ReplyFlags(res.Err?, form.Plain?), request.sender,
                                      request.recipient, body.value))
  }

  function PlainReceived(c: Crypto, a: Node, reply: Message): Call {
    match ParsePacket(EncodePacket(Instant(reply)), true)
    case Ok(Instant(received)) =>
      if Address.RouteName(received.recipient) != Some(Uuid.UuidString(received.id)) then Lost
      else Returned(Outcome(c, a, None, received))
    case _ => Lost
  }

  // The server reads exactly the payload of a plain request.
  lemma PlainRequest(c: Crypto, a: Node, cards: Cards, secrets: set<Bytes>, target: Str, payload: Bytes, id: Bytes)
    requires SigningIdeal(c) && target != [] && target[0] != Address.KEY_TYPE
    ensures var r := Request(c, a, cards, target, payload, id);
            && r.Ok? && r.value == Message(id, 0, target, [SLASH] + Uuid.UuidString(id), r.value.body)
            && c.open(secrets, r.value.body) == Some(Opened(payload, 0, {a.signer}))
  {
    hide Uuid.UuidString;
    assert SignIdeal(c, a.signer, payload, secrets);
  }

  // The client takes the server's text out of every form of answer.
  lemma PlainAnswer(c: Crypto, a: Node, server: Node, form: Form, text: Bytes, error: bool, request: Message)
    requires Ideal(c) && SigningIdeal(c) && Sound(a) && (form.Bottle? && form.rid.Some? ==> form.rid == Some(a.card))
    ensures var body := if form.Plain? then Some(text) else Prepare(c, server, form.rid, text);
            && body.Some?
            && Outcome(c, a, None, Message(request.id, ReplyFlags(error, form.Plain?), request.sender,
                                           request.recipient, body.value))
            == if error then Err(Remote(Utf8.Lossy(text))) else Ok(text)
  {
    hide Has, ReplyFlags, Utf8.Lossy;
    assert SignIdeal(c, server.signer, text, a.secrets);
    assert SealIdeal(c, a.card.decryptKeys, server.signer, text, a.secrets);
  }

  lemma PlainDelivered(c: Crypto, a: Node, reply: Message)
    requires |a.hash| == 32 && |reply.id| == ID_LEN && reply.recipient == ReplyAddress(a, reply.id)
    requires Utf8.Valid(reply.sender) && |reply.sender| <= MAX_NAME
    ensures PlainReceived(c, a, reply) == Returned(Outcome(c, a, None, reply))
  {
    hide Outcome, ReplyAddress, Utf8.Valid, Uuid.UuidString, Address.RouteName, EncodePacket, ParsePacket;
    ReplyAddressWorks(a, reply.id);
    ParseEncodedPacket(Instant(reply), true);
  }

  // A query to the server returns exactly what the server answered, however it
  // puts its answer, and is lost exactly when its target is too long or the
  // server stays silent.
  lemma PlainTransparent(c: Crypto, a: Node, cards: Cards, server: Node, form: Form, serve: Handler,
                         target: Str, payload: Bytes, id: Bytes)
    requires Ideal(c) && SigningIdeal(c) && Sound(a) && |id| == ID_LEN
    requires form.Bottle? && form.rid.Some? ==> form.rid == Some(a.card)
    requires target != [] && target[0] != Address.KEY_TYPE && Utf8.Valid(target) && |target| < TWO_TO_THE_64
    requires forall m :: serve(m).Err? ==> Utf8.Valid(serve(m).error)
    ensures ServerCall(c, a, cards, server, form, serve, target, payload, id) ==
            if |target| > MAX_NAME then Lost
            else match serve(Seen(a, target, payload, id))
                 case Ok(None) => Lost
                 case Ok(Some(r)) => Returned(Ok(r))
                 case Err(e) => Returned(Err(Remote(e)))
  {
    hide Ideal, SigningIdeal, Sound, Request, Prepare, Outcome, PlainReceived, ReplyAddress, ReplyFlags;
    hide Utf8.Valid, Utf8.Lossy, Uuid.UuidString, EncodePacket, ParsePacket, Address.TargetId;
    PlainRequest(c, a, cards, server.secrets, target, payload, id);
    ReplyAddressWorks(a, id) by { SoundHash(a); }
    SenderPrefixed(a, id);
    var request := Request(c, a, cards, target, payload, id).value;
    ParseEncodedPacket(Instant(request), false);
    if |target| <= MAX_NAME {
      hide ServerAnswers;
      assert FromRelay(request, a.hash) == Seen(a, target, request.body, id);
      ServerServes(c, a, server, form, serve, target, payload, id, request.body);
    }
  }

  // From the request as the server has it to the client's result.
  lemma ServerServes(c: Crypto, a: Node, server: Node, form: Form, serve: Handler,
                     target: Str, payload: Bytes, id: Bytes, blob: Bytes)
    requires Ideal(c) && SigningIdeal(c) && Sound(a) && |id| == ID_LEN
    requires form.Bottle? && form.rid.Some? ==> form.rid == Some(a.card)
    requires Utf8.Valid(target) && |target| <= MAX_NAME
    requires forall m :: serve(m).Err? ==> Utf8.Valid(serve(m).error)
    requires c.open(server.secrets, blob) == Some(Opened(payload, 0, {a.signer}))
    ensures ServerAnswers(c, a, server, form, serve, Seen(a, target, blob, id)) ==
            match serve(Seen(a, target, payload, id))
            case Ok(None) => Lost
            case Ok(Some(r)) => Returned(Ok(r))
            case Err(e) => Returned(Err(Remote(e)))
  {
    hide Ideal, SigningIdeal, Sound, Prepare, Outcome, PlainReceived, ReplyAddress, ReplyFlags;
    hide Utf8.Valid, Utf8.Lossy, Uuid.UuidString;
    var arrived := Seen(a, target, blob, id);
    assert arrived.(body := payload) == Seen(a, target, payload, id);
    var res := serve(Seen(a, target, payload, id));
    if res != Ok(None) {
      var text := if res.Ok? then res.value.value else res.error;
      PlainAnswer(c, a, server, form, text, res.Err?, arrived);
      var body := if form.Plain? then Some(text) else Prepare(c, server, form.rid, text);
      SoundHash(a);
      PlainDelivered(c, a, Message(id, ReplyFlags(res.Err?, form.Plain?), ReplyAddress(a, id), target, body.value));
      Utf8.LossyKeepsValid(text);
    }
  }

  lemma SoundHash(n: Node)
    requires Sound(n)
    ensures |n.hash| == 32
  {
  }

  // Every printed address of `b`, whatever its server id, endpoint and further
  // path, is such a target.
  lemma PrintedAddressCalls(b: Node, serverId: Str, endpoint: Str, path: Str)
    requires SLASH !in serverId && SLASH !in endpoint && Address.IsPath(path)
    requires Utf8.Valid(serverId) && Utf8.Valid(endpoint) && Utf8.Valid(path)
    ensures var printed := Address.ClientId(Address.KEY_TYPE, serverId, Base64Url.Encode(b.hash)).Print();
            var target := printed + [SLASH] + endpoint + path;
            && Address.RecipientHash(target) == Ok(b.hash) && Address.RouteName(target) == Some(endpoint)
            && Utf8.Valid(target)
  {
    hide Base64Url.Encode, Address.RecipientHash, Address.RouteName, Utf8.Valid;
    var hash := Base64Url.Encode(b.hash);
    var printed := Address.ClientId(Address.KEY_TYPE, serverId, hash).Print();
    assert printed + [SLASH] + endpoint + path == printed + ([SLASH] + endpoint + path);
    Address.RecipientHashOfPrinted(b.hash, serverId, [SLASH] + endpoint + path);
    Base64Url.EncodeHasNoSeparator(b.hash);
    Address.RouteNameOfPath(printed, endpoint, path);
    Base64Url.EncodeIsAscii(b.hash);
    Utf8.AsciiValid(hash);
    Utf8.AsciiValid([Address.KEY_TYPE, DOT]);
    Utf8.AsciiValid([DOT]);
    Utf8.AsciiValid([SLASH]);
    Utf8.ValidCat([Address.KEY_TYPE, DOT], serverId);
    Utf8.ValidCat([Address.KEY_TYPE, DOT] + serverId, [DOT]);
    Utf8.ValidCat([Address.KEY_TYPE, DOT] + serverId + [DOT], hash);
    Utf8.ValidCat([Address.KEY_TYPE, DOT], hash);
    Utf8.ValidCat(printed, [SLASH]);
    Utf8.ValidCat(printed + [SLASH], endpoint);
    Utf8.ValidCat(printed + [SLASH] + endpoint, path);
  }

  // ----- The ideal laws can be met ------------------------------------------

  function Ones(n: nat): (s: Bytes)
    ensures |s| == n
  {
    if n == 0 then [] else [1] + Ones(n - 1)
  }

  function LeadingOnes(s: Bytes): (n: nat)
    ensures n <= |s|
  {
    if s == [] || s[0] != 1 then 0 else 1 + LeadingOnes(s[1..])
  }

  lemma {:induction false} CountOnes(n: nat, rest: Bytes)
    ensures LeadingOnes(Ones(n) + [0] + rest) == n
  {
    if n > 0 {
      CountOnes(n - 1, rest);
      assert (Ones(n) + [0] + rest)[1..] == Ones(n - 1) + [0] + rest;
    } else {
      assert Ones(0) + [0] + rest == [0] + rest;
    }
  }

  function Frame(signer: Bytes, body: Bytes): Bytes { Ones(|signer|) + [0] + (signer + body) }

  // What follows the length, if there is one.
  function Framed(s: Bytes): Option<Bytes> {
    var n := LeadingOnes(s);
    if n == |s| || s[n] != 0 || |s[n + 1..]| < n then None else Some(s[n + 1..])
  }

  function Unframe(s: Bytes): Option<Opened> {
    var rest, n := Framed(s), LeadingOnes(s);
    if rest.None? || |rest.value| < n then None else Some(Opened(rest.value[n..], 1, {rest.value[..n]}))
  }

  lemma UnframeFrame(signer: Bytes, body: Bytes)
    ensures Unframe(Frame(signer, body)) == Some(Opened(body, 1, {signer}))
  {
    CountOnes(|signer|, signer + body);
    var n, s := |signer|, Frame(signer, body);
    assert s[n + 1..] == signer + body;
    assert (signer + body)[..n] == signer && (signer + body)[n..] == body;
  }

  // Frames behind a byte that says whether they count as encrypted.
  function Untag(s: Bytes): Option<Opened> {
    if s == [] || Unframe(s[1..]).None? then None else Some(Unframe(s[1..]).value.(decryption := s[0]))
  }

  function Tagging(): Crypto {
    Crypto((keys, signer, body) => Some([1] + Frame(signer, body)), (signer, body) => Some([0] + Frame(signer, body)),
           (secrets, s) => Untag(s))
  }

  lemma UntagFrame(tag: u8, signer: Bytes, body: Bytes)
    ensures Untag([tag] + Frame(signer, body)) == Some(Opened(body, tag, {signer}))
  {
    hide Frame, Unframe;
    UnframeFrame(signer, body);
    assert ([tag] + Frame(signer, body))[1..] == Frame(signer, body);
  }

  lemma IdealExists()
    ensures Ideal(Tagging()) && SigningIdeal(Tagging())
  {
    hide Frame, Unframe, Untag;
    var c := Tagging();
    forall keys, signer: Bytes, body: Bytes, secrets ensures SealIdeal(c, keys, signer, body, secrets) {
      UntagFrame(1, signer, body);
    }
    forall signer: Bytes, body: Bytes, secrets ensures SignIdeal(c, signer, body, secrets) {
      UntagFrame(0, signer, body);
    }
  }

  // A log of seals, each in the form of a frame.
  ghost predicate SealedFrames(issued: iset<Issue>) {
    forall i :: i in issued ==> i.keys.Some? && i.blob == Frame(i.signer, i.body)
  }

  // The log has this bottle sealed for one of these keys.
  ghost predicate Logged(issued: iset<Issue>, secrets: set<Bytes>, blob: Bytes) {
    exists i :: i in issued && i.keys.Some? && i.keys.value * secrets != {} && i.blob == blob
  }

  // Opens a frame only if the log says so.
  ghost function OpenLogged(issued: iset<Issue>, secrets: set<Bytes>, blob: Bytes): Option<Opened> {
    if Logged(issued, secrets, blob) then Unframe(blob) else None
  }

  ghost function LogCrypto(issued: iset<Issue>): Crypto {
    Crypto((keys, signer, body) => Some(Frame(signer, body)), (signer, body) => None,
           (secrets, blob) => OpenLogged(issued, secrets, blob))
  }

  // For every such log, the empty one included, some crypto opens exactly it.
  lemma LogExists(issued: iset<Issue>)
    requires SealedFrames(issued)
    ensures OpensExactly(LogCrypto(issued), issued)
  {
    hide Frame, Unframe;
    var c := LogCrypto(issued);
    forall secrets, blob, signer ensures Vouched(c, issued, secrets, blob, signer) {
      if Logged(issued, secrets, blob) {
        var i :| i in issued && i.keys.Some? && i.keys.value * secrets != {} && i.blob == blob;
        UnframeFrame(i.signer, i.body);
      }
    }
    forall i, secrets | i in issued && i.keys.Some? && i.keys.value * secrets != {}
      ensures c.open(secrets, i.blob) == Some(Opened(i.body, 1, {i.signer}))
    {
      UnframeFrame(i.signer, i.body);
      assert Logged(issued, secrets, i.blob);
    }
  }

  lemma EmptyLogExists()
    ensures exists c :: OpensExactly(c, iset{})
  {
    LogExists(iset{});
  }
}
