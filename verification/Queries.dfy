/** Reply queues: how an incoming message finds the query that waits for it, as a
    labelled step system with any number of queries and connection readers. A
    reader takes the reply queue out of the map in one step and sends into it in
    another; a query registers, waits, and removes its entry however it leaves. */
module Queries {
  import opened Common
  import opened Wire
  import Address
  import Uuid

  datatype Phase =
    | Fresh
    | Registered
    | Leaving(result: Option<Message>)
    | Done(result: Option<Message>)

  // `taken` is history: a reader has taken this query's reply queue.
  datatype Query = Query(id: Bytes, phase: Phase, inbox: seq<Message>, taken: bool)

  datatype Reader = Sending(q: nat, msg: Message) | Free

  datatype State = State(inQ: map<Str, nat>, queries: seq<Query>, readers: seq<Reader>)

  datatype Label =
    | Begin(id: Bytes)
    | Register(q: nat)
    | Route(msg: Message)
    | Deliver(r: nat)
    | Receive(q: nat)
    | Expire(q: nat)
    | DropGuard(q: nat)

  function Init(): State { State(map[], [], []) }

  function Key(q: Query): Str { Uuid.UuidString(q.id) }

  // Identifiers are random; those of unfinished queries are taken to differ.
  predicate Enabled(s: State, l: Label) {
    match l
    case Begin(id) =>
      |id| == Uuid.ID_LEN && forall i :: 0 <= i < |s.queries| && !s.queries[i].phase.Done? ==> s.queries[i].id != id
    case Register(q) => q < |s.queries| && s.queries[q].phase.Fresh?
    case Route(_) => true
    case Deliver(r) => r < |s.readers| && s.readers[r].Sending? && s.readers[r].q < |s.queries|
    case Receive(q) => q < |s.queries| && s.queries[q].phase.Registered? && s.queries[q].inbox != []
    case Expire(q) => q < |s.queries| && s.queries[q].phase.Registered?
    case DropGuard(q) => q < |s.queries| && s.queries[q].phase.Leaving?
  }

  predicate Wanted(s: State, msg: Message) {
    var name := Address.RouteName(msg.recipient);
    name.Some? && name.value in s.inQ && s.inQ[name.value] < |s.queries|
  }

  function Step(s: State, l: Label): State
    requires Enabled(s, l)
  {
    match l
    case Begin(id) => s.(queries := s.queries + [Query(id, Fresh, [], false)])
    case Register(q) =>
      var query := s.queries[q];
      s.(inQ := s.inQ[Key(query) := q], queries := s.queries[q := query.(phase := Registered)])
    case Route(msg) =>
      // anything not wanted by a query goes to a handler or is dropped
      if !Wanted(s, msg) then s
      else
        var key := Address.RouteName(msg.recipient).value;
        var q := s.inQ[key];
        State(s.inQ - {key}, s.queries[q := s.queries[q].(taken := true)], s.readers + [Sending(q, msg)])
    case Deliver(r) =>
      var Sending(q, msg) := s.readers[r];
      s.(readers := s.readers[r := Free],
         queries := s.queries[q := s.queries[q].(inbox := s.queries[q].inbox + [msg])])
    case Receive(q) => s.(queries := s.queries[q := s.queries[q].(phase := Leaving(Some(s.queries[q].inbox[0])))])
    case Expire(q) => s.(queries := s.queries[q := s.queries[q].(phase := Leaving(None))])
    case DropGuard(q) =>
      var query := s.queries[q];
      s.(inQ := s.inQ - {Key(query)}, queries := s.queries[q := query.(phase := Done(query.phase.result))])
  }

  function After(ls: seq<Label>): Option<State> {
    if ls == [] then Some(Init())
    else
      var s := After(ls[..|ls| - 1]);
      if s.Some? && Enabled(s.value, ls[|ls| - 1]) then Some(Step(s.value, ls[|ls| - 1])) else None
  }

  // ----- Messages on their way ----------------------------------------------

  function Bound(r: Reader, q: nat): nat { if r.Sending? && r.q == q then 1 else 0 }

  // How many readers are about to send to query q.
  function Transit(readers: seq<Reader>, q: nat): nat {
    if readers == [] then 0 else Transit(readers[..|readers| - 1], q) + Bound(readers[|readers| - 1], q)
  }

  lemma {:induction false} TransitFree(readers: seq<Reader>, r: nat, q: nat)
    requires r < |readers|
    ensures Transit(readers[r := Free], q) + Bound(readers[r], q) == Transit(readers, q)
  {
    var n := |readers| - 1;
    if r < n {
      TransitFree(readers[..n], r, q);
      assert readers[r := Free][..n] == readers[..n][r := Free];
    } else {
      assert readers[r := Free][..n] == readers[..n];
    }
  }

  lemma TransitPush(readers: seq<Reader>, r: Reader, q: nat)
    ensures Transit(readers + [r], q) == Transit(readers, q) + Bound(r, q)
  {
    assert (readers + [r])[..|readers|] == readers;
  }

  // ----- Invariant ----------------------------------------------------------

  // Registered, neither answered nor returned.
  predicate Open(q: Query) { (q.phase.Registered? || q.phase.Leaving?) && !q.taken }

  ghost predicate KeysInv(s: State) {
    && (forall key :: key in s.inQ ==>
          s.inQ[key] < |s.queries| && Open(s.queries[s.inQ[key]]) && Key(s.queries[s.inQ[key]]) == key)
    && (forall q :: 0 <= q < |s.queries| && Open(s.queries[q]) ==>
          Key(s.queries[q]) in s.inQ && s.inQ[Key(s.queries[q])] == q)
  }

  ghost predicate IdsInv(s: State) {
    && (forall q :: 0 <= q < |s.queries| ==> |s.queries[q].id| == Uuid.ID_LEN)
    && (forall i, j :: 0 <= i < j < |s.queries| && !s.queries[i].phase.Done? && !s.queries[j].phase.Done? ==>
          s.queries[i].id != s.queries[j].id)
  }

  predicate Addressed(msg: Message, key: Str) { Address.RouteName(msg.recipient) == Some(key) }

  ghost predicate OnceInv(s: State) {
    forall q: nat :: q < |s.queries| ==>
      |s.queries[q].inbox| + Transit(s.readers, q) == if s.queries[q].taken then 1 else 0
  }

  ghost predicate MailInv(s: State) {
    && (forall q, i :: 0 <= q < |s.queries| && 0 <= i < |s.queries[q].inbox| ==>
          Addressed(s.queries[q].inbox[i], Key(s.queries[q])))
    && (forall r :: 0 <= r < |s.readers| && s.readers[r].Sending? ==>
          s.readers[r].q < |s.queries| && Addressed(s.readers[r].msg, Key(s.queries[s.readers[r].q])))
  }

  function Result(p: Phase): Option<Message> {
    match p case Leaving(r) => r case Done(r) => r case _ => None
  }

  ghost predicate PhaseInv(s: State) {
    forall q :: 0 <= q < |s.queries| ==>
      var query := s.queries[q];
      && (query.phase.Fresh? ==> !query.taken)
      && (Result(query.phase).Some? ==> query.inbox != [] && query.inbox[0] == Result(query.phase).value)
  }

  ghost predicate Inv(s: State) { KeysInv(s) && IdsInv(s) && OnceInv(s) && MailInv(s) && PhaseInv(s) }

  // Keys of unfinished queries differ, because identifiers print differently.
  lemma KeysDiffer(s: State, i: nat, j: nat)
    requires IdsInv(s) && i < |s.queries| && j < |s.queries| && i != j
    requires !s.queries[i].phase.Done? && !s.queries[j].phase.Done?
    ensures Key(s.queries[i]) != Key(s.queries[j])
  {
    if Key(s.queries[i]) == Key(s.queries[j]) {
      Uuid.UuidStringInjective(s.queries[i].id, s.queries[j].id);
    }
  }

  // An entry for the key of one unfinished query may change; the rest stand.
  lemma KeysElsewhere(s: State, q: nat)
    requires IdsInv(s) && q < |s.queries| && !s.queries[q].phase.Done?
    ensures forall i :: 0 <= i < |s.queries| && i != q && !s.queries[i].phase.Done? ==>
              Key(s.queries[i]) != Key(s.queries[q])
  {
    hide IdsInv, Key;
    forall i | 0 <= i < |s.queries| && i != q && !s.queries[i].phase.Done?
      ensures Key(s.queries[i]) != Key(s.queries[q])
    {
      KeysDiffer(s, i, q);
    }
  }

  lemma RegisterKeysStep(s: State, q: nat)
    requires KeysInv(s) && IdsInv(s) && PhaseInv(s) && Enabled(s, Register(q))
    ensures KeysInv(Step(s, Register(q)))
  {
    hide Uuid.UuidString, IdsInv;
    KeysElsewhere(s, q);
  }

  lemma DropKeysStep(s: State, q: nat)
    requires KeysInv(s) && IdsInv(s) && Enabled(s, DropGuard(q))
    ensures KeysInv(Step(s, DropGuard(q)))
  {
    hide Uuid.UuidString, IdsInv;
    KeysElsewhere(s, q);
  }

  lemma RouteKeysStep(s: State, msg: Message)
    requires KeysInv(s) && IdsInv(s)
    ensures KeysInv(Step(s, Route(msg)))
  {
    hide Uuid.UuidString, Address.RouteName;
    if Wanted(s, msg) {
      KeysElsewhere(s, s.inQ[Address.RouteName(msg.recipient).value]);
    }
    hide IdsInv;
  }

  lemma KeysStep(s: State, l: Label)
    requires Inv(s) && Enabled(s, l)
    ensures KeysInv(Step(s, l))
  {
    hide Uuid.UuidString, OnceInv, MailInv, IdsInv, Wanted;
    match l {
      case Register(q) => RegisterKeysStep(s, q);
      case DropGuard(q) => DropKeysStep(s, q);
      case Route(msg) => RouteKeysStep(s, msg);
      case _ =>
    }
  }

  lemma IdsStep(s: State, l: Label)
    requires KeysInv(s) && IdsInv(s) && PhaseInv(s) && Enabled(s, l)
    ensures IdsInv(Step(s, l)) && PhaseInv(Step(s, l))
  {
    hide Uuid.UuidString, Address.RouteName, Key;
  }

  lemma OnceStep(s: State, l: Label)
    requires KeysInv(s) && OnceInv(s) && MailInv(s) && Enabled(s, l)
    ensures OnceInv(Step(s, l))
  {
    hide Key, Address.RouteName, Transit;
    var s' := Step(s, l);
    forall q: nat | q < |s'.queries|
      ensures |s'.queries[q].inbox| + Transit(s'.readers, q) == if s'.queries[q].taken then 1 else 0
    {
      match l {
        case Route(msg) =>
          if Wanted(s, msg) {
            TransitPush(s.readers, s'.readers[|s.readers|], q);
          }
        case Deliver(r) => TransitFree(s.readers, r, q);
        case Begin(_) => NoneBound(s.readers, |s.queries|);
        case _ =>
      }
    }
  }

  lemma MailStep(s: State, l: Label)
    requires KeysInv(s) && MailInv(s) && Enabled(s, l)
    ensures MailInv(Step(s, l))
  {
    hide Uuid.UuidString, Address.RouteName;
  }

  lemma {:induction false} NoneBound(readers: seq<Reader>, q: nat)
    requires forall r :: 0 <= r < |readers| && readers[r].Sending? ==> readers[r].q != q
    ensures Transit(readers, q) == 0
  {
    if readers != [] {
      NoneBound(readers[..|readers| - 1], q);
    }
  }

  lemma {:induction false} Invariant(ls: seq<Label>)
    requires After(ls).Some?
    ensures Inv(After(ls).value)
  {
    hide Enabled, Step;
    if ls != [] {
      hide KeysInv, IdsInv, OnceInv, MailInv, PhaseInv;
      Invariant(ls[..|ls| - 1]);
      var s, l := After(ls[..|ls| - 1]).value, ls[|ls| - 1];
      KeysStep(s, l);
      IdsStep(s, l);
      OnceStep(s, l);
      MailStep(s, l);
    }
  }

  // ----- Reply matching -----------------------------------------------------

  // In every interleaving: the keys of the map are exactly those of the queries
  // registered and neither answered nor returned; every query is sent at most
  // one message, and only one addressed to its own key; and that is the message
  // it returns, if any.
  lemma ReplyMatching(ls: seq<Label>)
    requires After(ls).Some?
    ensures var s := After(ls).value;
            && (forall key :: key in s.inQ <==>
                  exists q :: 0 <= q < |s.queries| && Open(s.queries[q]) && Key(s.queries[q]) == key)
            && (forall q :: 0 <= q < |s.queries| ==> |s.queries[q].inbox| <= 1)
            && (forall q :: 0 <= q < |s.queries| && Result(s.queries[q].phase).Some? ==>
                  s.queries[q].inbox == [Result(s.queries[q].phase).value]
                  && Addressed(Result(s.queries[q].phase).value, Key(s.queries[q])))
  {
    hide After, Transit, Uuid.UuidString, Address.RouteName;
    Invariant(ls);
    var s := After(ls).value;
    forall key | key in s.inQ
      ensures exists q :: 0 <= q < |s.queries| && Open(s.queries[q]) && Key(s.queries[q]) == key
    {
      assert Open(s.queries[s.inQ[key]]);
    }
  }

  // However a query ends, its key is gone, and no entry leads to it.
  lemma KeyGoneOnExit(ls: seq<Label>, q: nat)
    requires After(ls).Some? && Enabled(After(ls).value, DropGuard(q))
    ensures var s' := Step(After(ls).value, DropGuard(q));
            s'.queries[q].phase.Done? && Key(s'.queries[q]) !in s'.inQ && q !in s'.inQ.Values
  {
    hide After, Uuid.UuidString, OnceInv, MailInv;
    Invariant(ls);
    KeysStep(After(ls).value, DropGuard(q));
  }

  // A reply to an open query reaches that query and no other reply does.
  lemma ReplyReachesItsQuery(ls: seq<Label>, q: nat, msg: Message)
    requires After(ls).Some? && q < |After(ls).value.queries|
    requires Addressed(msg, Key(After(ls).value.queries[q]))
    ensures var s := After(ls).value;
            var s' := Step(s, Route(msg));
            && (Open(s.queries[q]) ==> s'.readers == s.readers + [Sending(q, msg)] && !Open(s'.queries[q]))
            && (!Open(s.queries[q]) ==> s'.readers == s.readers || s'.readers[|s.readers|].q != q)
  {
    hide After, Uuid.UuidString, OnceInv, MailInv, Address.RouteName;
    Invariant(ls);
  }

  // ----- Answers and time-outs ----------------------------------------------

  lemma Extend(ls: seq<Label>, l: Label)
    requires After(ls).Some? && Enabled(After(ls).value, l)
    ensures After(ls + [l]) == Some(Step(After(ls).value, l))
  {
    hide Step, Enabled;
    assert (ls + [l])[..|ls|] == ls;
  }

  // A new query can register, and then waits with an empty mailbox.
  lemma CanRegister(ls: seq<Label>, id: Bytes)
    requires After(ls).Some? && Enabled(After(ls).value, Begin(id))
    ensures var q := |After(ls).value.queries|;
            var s' := After(ls + [Begin(id), Register(q)]);
            s'.Some? && s'.value.queries == After(ls).value.queries + [Query(id, Registered, [], false)]
  {
    hide After, Uuid.UuidString;
    var q := |After(ls).value.queries|;
    Extend(ls, Begin(id));
    Extend(ls + [Begin(id)], Register(q));
    assert ls + [Begin(id), Register(q)] == ls + [Begin(id)] + [Register(q)];
  }

  // From any state: a reply that arrives while its query waits is what the query
  // returns, the very message that was routed.
  lemma AnsweredQueryReturns(ls: seq<Label>, q: nat, msg: Message)
    requires After(ls).Some? && q < |After(ls).value.queries|
    requires var query := After(ls).value.queries[q];
             query.phase.Registered? && !query.taken && Addressed(msg, Key(query))
    ensures var s := After(ls).value;
            var s' := After(ls + [Route(msg), Deliver(|s.readers|), Receive(q), DropGuard(q)]);
            && s'.Some? && s'.value.queries[q].phase == Done(Some(msg)) && s'.value.queries[q].inbox == [msg]
            && Key(s.queries[q]) !in s'.value.inQ
  {
    hide After, Uuid.UuidString, Address.RouteName, Transit;
    Invariant(ls);
    var s := After(ls).value;
    assert Open(s.queries[q]) && s.queries[q].inbox == [];
    var a := ls + [Route(msg)];
    Extend(ls, Route(msg));
    var b := a + [Deliver(|s.readers|)];
    Extend(a, Deliver(|s.readers|));
    var c := b + [Receive(q)];
    Extend(b, Receive(q));
    Extend(c, DropGuard(q));
    assert ls + [Route(msg), Deliver(|s.readers|), Receive(q), DropGuard(q)] == c + [DropGuard(q)];
  }

  // A query that waits can give up, and then returns nothing.
  lemma ExpiredQueryReturns(ls: seq<Label>, q: nat)
    requires After(ls).Some? && q < |After(ls).value.queries| && After(ls).value.queries[q].phase.Registered?
    ensures var s' := After(ls + [Expire(q), DropGuard(q)]);
            && s'.Some? && s'.value.queries[q].phase == Done(None)
            && Key(s'.value.queries[q]) !in s'.value.inQ
  {
    hide After, Uuid.UuidString;
    Extend(ls, Expire(q));
    Extend(ls + [Expire(q)], DropGuard(q));
    assert ls + [Expire(q), DropGuard(q)] == ls + [Expire(q)] + [DropGuard(q)];
  }

  predicate Left(p: Phase) { p.Leaving? || p.Done? }

  lemma LeavesBy(s: State, l: Label, q: nat)
    requires Enabled(s, l) && q < |Step(s, l).queries| && Left(Step(s, l).queries[q].phase)
    ensures var p' := Step(s, l).queries[q].phase;
            || (q < |s.queries| && Left(s.queries[q].phase) && Result(s.queries[q].phase) == Result(p'))
            || (l == Receive(q) && Result(p').Some?)
            || (l == Expire(q) && Result(p').None?)
  {
    hide Key, Address.RouteName;
  }

  // Conversely a query has left with a result only by receiving it, and without
  // one only because its deadline passed.
  lemma {:induction false} LeftBecause(ls: seq<Label>, q: nat)
    requires After(ls).Some? && q < |After(ls).value.queries| && Left(After(ls).value.queries[q].phase)
    ensures Result(After(ls).value.queries[q].phase).Some? ==> Receive(q) in ls
    ensures Result(After(ls).value.queries[q].phase).None? ==> Expire(q) in ls
  {
    hide Step, Enabled;
    var front, l := ls[..|ls| - 1], ls[|ls| - 1];
    assert ls == front + [l] && l in ls;
    assert forall x :: x in front ==> x in ls;
    var s := After(front).value;
    LeavesBy(s, l, q);
    if q < |s.queries| && Left(s.queries[q].phase) {
      LeftBecause(front, q);
    }
  }

  // ----- The map of reply queues, in place ----------------------------------

  // One reply channel.
  class Mailbox {
    var mail: seq<Message>

    constructor ()
      ensures mail == []
    {
      mail := [];
    }

    method Send(msg: Message)
      modifies this
      ensures mail == old(mail) + [msg]
    {
      mail := mail + [msg];
    }
  }

  datatype Routed = Nowhere | ToQuery | ToHandler(name: Str)

  // The map holds, under each key of a state's map, the mailbox of its query.
  predicate Mirrors(inQ: map<Str, Mailbox>, s: State, boxes: seq<Mailbox>) {
    && |boxes| == |s.queries| && inQ.Keys == s.inQ.Keys
    && forall key :: key in inQ ==> s.inQ[key] < |boxes| && inQ[key] == boxes[s.inQ[key]]
  }

  predicate Unbound(s: State, q: nat) { forall key :: key in s.inQ ==> s.inQ[key] != q }

  class Router {
    var inQ: map<Str, Mailbox>
    var handlers: set<Str>

    constructor (handlers: set<Str>)
      ensures inQ == map[] && this.handlers == handlers
    {
      inQ := map[];
      this.handlers := handlers;
    }

    method MakeInQ(key: Str) returns (rx: Mailbox)
      modifies this`inQ
      ensures fresh(rx) && rx.mail == [] && inQ == old(inQ)[key := rx]
      ensures forall s: State, boxes: seq<Mailbox>, q: nat ::
                Mirrors(old(inQ), s, boxes) && Enabled(s, Register(q)) && Key(s.queries[q]) == key && Unbound(s, q) ==>
                  Mirrors(inQ, Step(s, Register(q)), boxes[q := rx])
    {
      hide Key, Wanted;
      rx := new Mailbox();
      inQ := inQ[key := rx];
    }

    method TakeInQ(key: Str) returns (tx: Option<Mailbox>)
      modifies this`inQ
      ensures inQ == old(inQ) - {key}
      ensures tx == if key in old(inQ) then Some(old(inQ)[key]) else None
      ensures forall s: State, boxes: seq<Mailbox>, q: nat ::
                Mirrors(old(inQ), s, boxes) && Enabled(s, DropGuard(q)) && Key(s.queries[q]) == key ==>
                  Mirrors(inQ, Step(s, DropGuard(q)), boxes)
      ensures forall s: State, boxes: seq<Mailbox>, msg: Message ::
                Mirrors(old(inQ), s, boxes) && Addressed(msg, key) ==>
                  && Mirrors(inQ, Step(s, Route(msg)), boxes)
                  && (tx.Some? <==> Wanted(s, msg))
                  && (tx.Some? ==> tx.value == boxes[s.inQ[key]])
    {
      hide Key, Address.RouteName;
      tx := if key in inQ then Some(inQ[key]) else None;
      inQ := inQ - {key};
    }

    // A waiting query comes before a handler of the same name.
    method RouteMessage(msg: Message) returns (r: Routed)
      modifies this`inQ, inQ.Values
      ensures var name := Address.RouteName(msg.recipient);
              if name.None? then r.Nowhere? && inQ == old(inQ)
              else if name.value in old(inQ) then
                r.ToQuery? && inQ == old(inQ) - {name.value}
                && old(inQ)[name.value].mail == old(inQ[name.value].mail) + [msg]
              else
                inQ == old(inQ) && r == if name.value in handlers then ToHandler(name.value) else Nowhere
      ensures forall b: Mailbox :: b in old(inQ.Values) ==>
                b.mail == old(b.mail)
                || (!r.Nowhere? && Address.RouteName(msg.recipient).Some?
                    && Address.RouteName(msg.recipient).value in old(inQ)
                    && b == old(inQ)[Address.RouteName(msg.recipient).value])
      ensures forall s: State, boxes: seq<Mailbox> ::
                Mirrors(old(inQ), s, boxes) ==>
                  Mirrors(inQ, Step(s, Route(msg)), boxes) && (r.ToQuery? <==> Wanted(s, msg))
    {
      var rcv := msg.recipient;
      if SLASH !in rcv {
        return Nowhere;
      }
      var name := Address.After(rcv, SLASH);
      if SLASH in name {
        name := Address.Before(name, SLASH);
      }
      assert Address.Before(Address.After(rcv, SLASH), SLASH) == name;
      ghost var before := inQ;
      assert name in inQ ==> inQ[name] in inQ.Values;
      var q := TakeInQ(name);
      if q.Some? {
        q.value.Send(msg);
        return ToQuery;
      }
      assert before - {name} == before;
      r := if name in handlers then ToHandler(name) else Nowhere;
    }
  }
}
