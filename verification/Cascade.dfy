/** Replies never cascade: a network of clients whose handlers send nothing on
    their own, as a labelled step system over messages in flight and handler
    tasks. Every step lowers a weight, so every exchange ends. */
module Cascade {
  import opened Common
  import opened Wire
  import Address
  import Base64Url
  import Rpc
  import Uuid

  // The clients, and the endpoint names any of them has a handler for.
  datatype Net = Net(c: Rpc.Crypto, nodes: seq<Rpc.Node>, names: set<Str>)

  // Reply keys are random; no handler is named like one.
  ghost predicate NamesApart(net: Net) {
    && (forall i :: 0 <= i < |net.nodes| ==> |net.nodes[i].hash| == 32)
    && forall id: Bytes :: |id| == ID_LEN ==> Uuid.UuidString(id) !in net.names
  }

  datatype Origin = Server | Client(node: nat)

  datatype Flight = Gone | Mail(origin: Origin, msg: Message)

  // A handler task: it may have to look up the sender's card before it runs.
  datatype Stage = Start | Waiting | Running | Ended

  datatype Task = Task(node: nat, msg: Message, stage: Stage)

  // History: how many requests were handed to handlers, how many replies came of them.
  datatype State = State(flight: seq<Flight>, tasks: seq<Task>, requests: nat, replies: nat)

  datatype Label =
    | Lose(i: nat)
    | Deliver(i: nat, to: nat, queued: bool)
    | Serve(i: nat, answer: Option<Message>)
    | LookUp(t: nat, hash: Bytes, id: Bytes)
    | Proceed(t: nat)
    | Abandon(t: nat)
    | Finish(t: nat, cards: Rpc.Cards, h: Rpc.Handler)

  const AT: u8 := '@' as int

  const IDCARD_FIND: Str :=
    ['@' as int, '/' as int, 'i' as int, 'd' as int,
     'c' as int, 'a' as int, 'r' as int, 'd' as int, '_' as int, 'f' as int, 'i' as int, 'n' as int, 'd' as int]

  predicate ForServer(m: Message) { m.recipient != [] && m.recipient[0] == AT }

  // The message as it arrives: relayed client mail carries its origin.
  function Arriving(net: Net, f: Flight): Message
    requires f.Mail?
  {
    if f.origin.Client? && f.origin.node < |net.nodes| then Rpc.FromRelay(f.msg, net.nodes[f.origin.node].hash)
    else f.msg
  }

  predicate Handled(net: Net, m: Message) {
    var name := Address.RouteName(m.recipient);
    name.Some? && name.value in net.names
  }

  predicate IsMail(s: State, i: nat) { i < |s.flight| && s.flight[i].Mail? }

  predicate OnNode(net: Net, s: State, t: nat) { t < |s.tasks| && s.tasks[t].node < |net.nodes| }

  predicate Enabled(net: Net, s: State, l: Label) {
    match l
    case Lose(i) => IsMail(s, i)
    case Deliver(i, to, _) => IsMail(s, i) && !ForServer(s.flight[i].msg) && to < |net.nodes|
    case Serve(i, answer) =>
      // the server answers a request at most once, to its sender, and no response
      && IsMail(s, i) && ForServer(s.flight[i].msg)
      && (answer.Some? ==>
            !IsResponse(s.flight[i].msg) && answer.value.recipient == Arriving(net, s.flight[i]).sender)
    case LookUp(t, _, id) => OnNode(net, s, t) && s.tasks[t].stage.Start? && |id| == ID_LEN
    case Proceed(t) => t < |s.tasks| && (s.tasks[t].stage.Start? || s.tasks[t].stage.Waiting?)
    case Abandon(t) => t < |s.tasks| && (s.tasks[t].stage.Start? || s.tasks[t].stage.Waiting?)
    case Finish(t, _, _) => OnNode(net, s, t) && s.tasks[t].stage.Running?
  }

  function Remove(s: State, i: nat): State
    requires i < |s.flight|
  {
    s.(flight := s.flight[i := Gone])
  }

  function Send(s: State, f: Flight): State { s.(flight := s.flight + [f]) }

  function SetStage(s: State, t: nat, stage: Stage): State
    requires t < |s.tasks|
  {
    s.(tasks := s.tasks[t := s.tasks[t].(stage := stage)])
  }

  predicate IsResponse(m: Message) { Has(m.flags, FLAG_RESPONSE) }

  function MailStep(net: Net, s: State, l: Label): State
    requires Enabled(net, s, l)
  {
    match l
    case Lose(i) => Remove(s, i)
    case Deliver(i, to, queued) =>
      // to a waiting query, to a handler, or nowhere
      var m := Arriving(net, s.flight[i]);
      if queued || !Handled(net, m) then Remove(s, i)
      else
        Remove(s, i).(tasks := s.tasks + [Task(to, m, Start)],
                      requests := if IsResponse(m) then s.requests else s.requests + 1)
    case Serve(i, answer) =>
      if answer.Some? then Send(Remove(s, i), Mail(Server, answer.value)) else Remove(s, i)
    case _ => s
  }

  function TaskStep(net: Net, s: State, l: Label): State
    requires Enabled(net, s, l)
  {
    match l
    case LookUp(t, hash, id) =>
      var node := s.tasks[t].node;
      var request := Rpc.Request(net.c, net.nodes[node], _ => None, IDCARD_FIND, hash, id);
      if request.Err? then SetStage(s, t, Ended)
      else Send(SetStage(s, t, Waiting), Mail(Client(node), request.value))
    case Proceed(t) => SetStage(s, t, Running)
    case Abandon(t) => SetStage(s, t, Ended)
    case Finish(t, cards, h) =>
      var node := s.tasks[t].node;
      var reply := Rpc.Reply(net.c, net.nodes[node], cards, s.tasks[t].msg, h);
      if reply.None? then SetStage(s, t, Ended)
      else Send(SetStage(s, t, Ended), Mail(Client(node), reply.value)).(replies := s.replies + 1)
    case _ => s
  }

  predicate MovesMail(l: Label) { l.Lose? || l.Deliver? || l.Serve? }

  function Step(net: Net, s: State, l: Label): State
    requires Enabled(net, s, l)
  {
    if MovesMail(l) then MailStep(net, s, l) else TaskStep(net, s, l)
  }

  // The state after a run from s, if every step was enabled.
  function After(net: Net, s: State, ls: seq<Label>): Option<State> {
    if ls == [] then Some(s)
    else
      var before := After(net, s, ls[..|ls| - 1]);
      if before.Some? && Enabled(net, before.value, ls[|ls| - 1]) then Some(Step(net, before.value, ls[|ls| - 1]))
      else None
  }

  // ----- Weights ------------------------------------------------------------

  function MailWeight(net: Net, f: Flight): nat {
    if f.Gone? then 0
    else if ForServer(f.msg) then if IsResponse(f.msg) then 1 else 2
    else if !Handled(net, f.msg) then 1
    else if IsResponse(f.msg) then 6
    else 12
  }

  function TaskWeight(t: Task): nat {
    match t.stage
    case Start => if IsResponse(t.msg) then 5 else 11
    case Waiting => if IsResponse(t.msg) then 2 else 8
    case Running => if IsResponse(t.msg) then 1 else 7
    case Ended => 0
  }

  // Tasks that may still produce a reply.
  function MayReply(t: Task): nat { if t.stage.Ended? || IsResponse(t.msg) then 0 else 1 }

  // Mail that may still reach a handler as a request.
  function MayAsk(net: Net, f: Flight): nat {
    if f.Mail? && !ForServer(f.msg) && Handled(net, f.msg) && !IsResponse(f.msg) then 1 else 0
  }

  function RequestsDue(net: Net, fs: seq<Flight>): nat {
    if fs == [] then 0 else RequestsDue(net, fs[..|fs| - 1]) + MayAsk(net, fs[|fs| - 1])
  }

  function FlightWeight(net: Net, fs: seq<Flight>): nat {
    if fs == [] then 0 else FlightWeight(net, fs[..|fs| - 1]) + MailWeight(net, fs[|fs| - 1])
  }

  function TasksWeight(ts: seq<Task>): nat {
    if ts == [] then 0 else TasksWeight(ts[..|ts| - 1]) + TaskWeight(ts[|ts| - 1])
  }

  function RepliesDue(ts: seq<Task>): nat {
    if ts == [] then 0 else RepliesDue(ts[..|ts| - 1]) + MayReply(ts[|ts| - 1])
  }

  function Weight(net: Net, s: State): nat { FlightWeight(net, s.flight) + TasksWeight(s.tasks) }

  // Requests given to handlers, now or later.
  function Asked(net: Net, s: State): nat { s.requests + RequestsDue(net, s.flight) }

  lemma {:induction false} FlightUpdate(net: Net, fs: seq<Flight>, i: nat, f: Flight)
    requires i < |fs|
    ensures FlightWeight(net, fs[i := f]) + MailWeight(net, fs[i]) == FlightWeight(net, fs) + MailWeight(net, f)
    ensures RequestsDue(net, fs[i := f]) + MayAsk(net, fs[i]) == RequestsDue(net, fs) + MayAsk(net, f)
  {
    hide MailWeight, MayAsk;
    var n := |fs| - 1;
    if i < n {
      FlightUpdate(net, fs[..n], i, f);
      assert fs[i := f][..n] == fs[..n][i := f];
    } else {
      assert fs[i := f][..n] == fs[..n];
    }
  }

  lemma FlightPush(net: Net, fs: seq<Flight>, f: Flight)
    ensures FlightWeight(net, fs + [f]) == FlightWeight(net, fs) + MailWeight(net, f)
    ensures RequestsDue(net, fs + [f]) == RequestsDue(net, fs) + MayAsk(net, f)
  {
    hide MailWeight, MayAsk;
    assert (fs + [f])[..|fs|] == fs;
  }

  lemma {:induction false} TasksUpdate(ts: seq<Task>, i: nat, t: Task)
    requires i < |ts|
    ensures TasksWeight(ts[i := t]) + TaskWeight(ts[i]) == TasksWeight(ts) + TaskWeight(t)
    ensures RepliesDue(ts[i := t]) + MayReply(ts[i]) == RepliesDue(ts) + MayReply(t)
  {
    hide TaskWeight, MayReply;
    var n := |ts| - 1;
    if i < n {
      TasksUpdate(ts[..n], i, t);
      assert ts[i := t][..n] == ts[..n][i := t];
    } else {
      assert ts[i := t][..n] == ts[..n];
    }
  }

  lemma TasksPush(ts: seq<Task>, t: Task)
    ensures TasksWeight(ts + [t]) == TasksWeight(ts) + TaskWeight(t)
    ensures RepliesDue(ts + [t]) == RepliesDue(ts) + MayReply(t)
  {
    hide TaskWeight, MayReply;
    assert (ts + [t])[..|ts|] == ts;
  }

  // ----- Invariant ----------------------------------------------------------

  ghost predicate IsReplyPath(path: Str) {
    exists id: Bytes :: |id| == ID_LEN && path == [SLASH] + Uuid.UuidString(id)
  }

  // Only queries send requests to the server, and name their own reply queue. The
  // server's own messages may be for any handler.
  ghost predicate MailOk(net: Net, f: Flight) {
    f.Mail? ==>
      && (f.origin.Client? ==> f.origin.node < |net.nodes|)
      && (ForServer(f.msg) && !IsResponse(f.msg) ==> f.origin.Client? && IsReplyPath(f.msg.sender))
  }

  ghost predicate Inv(net: Net, s: State) {
    && (forall i :: 0 <= i < |s.flight| ==> MailOk(net, s.flight[i]))
    && s.replies + RepliesDue(s.tasks) <= s.requests
  }

  lemma RelayedSender(m: Message, origin: Bytes)
    ensures Rpc.FromRelay(m, origin).sender != [] && Rpc.FromRelay(m, origin).sender[0] == Address.KEY_TYPE
  {
    hide Base64Url.Encode;
  }

  // The server's answer to a query is addressed to its reply queue, not a handler.
  lemma AnswerIsPrivate(net: Net, f: Flight, answer: Message)
    requires NamesApart(net) && MailOk(net, f) && f.Mail? && ForServer(f.msg) && !IsResponse(f.msg)
    requires answer.recipient == Arriving(net, f).sender
    ensures !Handled(net, answer) && !ForServer(answer)
  {
    hide Address.RouteName, Address.TargetId, Uuid.UuidString;
    var id: Bytes :| |id| == ID_LEN && f.msg.sender == [SLASH] + Uuid.UuidString(id);
    var node := net.nodes[f.origin.node];
    Rpc.ReplyAddressWorks(node, id);
    Rpc.SenderPrefixed(node, id);
    RelayedSender(f.msg, node.hash);
  }

  lemma MailStepDecreases(net: Net, s: State, l: Label)
    requires NamesApart(net) && Inv(net, s) && Enabled(net, s, l) && MovesMail(l)
    ensures Inv(net, MailStep(net, s, l)) && Weight(net, MailStep(net, s, l)) < Weight(net, s)
    ensures Asked(net, MailStep(net, s, l)) <= Asked(net, s)
  {
    hide FlightWeight, RequestsDue, TasksWeight, RepliesDue, Has, Address.RouteName, Rpc.FromRelay, NamesApart;
    var f := s.flight[l.i];
    FlightUpdate(net, s.flight, l.i, Gone);
    match l {
      case Lose(_) =>
      case Deliver(_, to, queued) =>
        var m := Arriving(net, f);
        ArrivingKeeps(net, f);
        if !queued && Handled(net, m) {
          TasksPush(s.tasks, Task(to, m, Start));
        }
      case Serve(_, answer) =>
        if answer.Some? {
          AnswerIsPrivate(net, f, answer.value);
          FlightPush(net, s.flight[l.i := Gone], Mail(Server, answer.value));
        }
    }
  }

  lemma ArrivingKeeps(net: Net, f: Flight)
    requires f.Mail?
    ensures var m := Arriving(net, f);
            m.recipient == f.msg.recipient && m.flags == f.msg.flags
  {
    hide Address.RouteName;
  }

  // A card lookup asks the server and needs no card itself, so lookups do not nest.
  lemma LookupIsPlain(c: Rpc.Crypto, me: Rpc.Node, cards: Rpc.Cards, hash: Bytes, id: Bytes)
    requires |id| == ID_LEN
    ensures Rpc.QueryCard(cards, IDCARD_FIND) == Ok(None)
    ensures var request := Rpc.Request(c, me, cards, IDCARD_FIND, hash, id);
            request.Ok? ==> ForServer(request.value) && IsReplyPath(request.value.sender)
  {
    hide Uuid.UuidString;
    var request := Rpc.Request(c, me, cards, IDCARD_FIND, hash, id);
    assert request.Ok? ==> request.value.sender == [SLASH] + Uuid.UuidString(id);
  }

  lemma TaskStepDecreases(net: Net, s: State, l: Label)
    requires Inv(net, s) && Enabled(net, s, l) && !MovesMail(l)
    ensures Inv(net, TaskStep(net, s, l)) && Weight(net, TaskStep(net, s, l)) < Weight(net, s)
    ensures Asked(net, TaskStep(net, s, l)) <= Asked(net, s)
  {
    hide FlightWeight, RequestsDue, TasksWeight, RepliesDue, Has, IsReplyPath;
    hide Address.RouteName, Rpc.Request, Rpc.Reply;
    var s' := TaskStep(net, s, l);
    TasksUpdate(s.tasks, l.t, s'.tasks[l.t]);
    if |s'.flight| > |s.flight| {
      var node := s.tasks[l.t].node;
      FlightPush(net, s.flight, s'.flight[|s.flight|]);
      if l.LookUp? {
        LookupIsPlain(net.c, net.nodes[node], _ => None, l.hash, l.id);
      } else {
        Rpc.ReplyShape(net.c, net.nodes[node], l.cards, s.tasks[l.t].msg, l.h);
      }
    }
  }

  lemma StepDecreases(net: Net, s: State, l: Label)
    requires NamesApart(net) && Inv(net, s) && Enabled(net, s, l)
    ensures Inv(net, Step(net, s, l)) && Weight(net, Step(net, s, l)) < Weight(net, s)
    ensures Asked(net, Step(net, s, l)) <= Asked(net, s)
  {
    hide Weight, Asked, Inv, MailStep, TaskStep;
    if MovesMail(l) {
      MailStepDecreases(net, s, l);
    } else {
      TaskStepDecreases(net, s, l);
    }
  }

  // Every exchange ends: a run from s has at most Weight(s) steps. It produces at
  // most one reply per request given to a handler, and no new requests.
  lemma {:induction false} ExchangeEnds(net: Net, s: State, ls: seq<Label>)
    requires NamesApart(net) && Inv(net, s) && After(net, s, ls).Some?
    ensures var s' := After(net, s, ls).value;
            && Inv(net, s') && |ls| + Weight(net, s') <= Weight(net, s)
            && s'.replies <= s'.requests && Asked(net, s') <= Asked(net, s)
  {
    hide Step, Enabled, Weight, Asked, NamesApart;
    if ls != [] {
      var front := ls[..|ls| - 1];
      ExchangeEnds(net, s, front);
      StepDecreases(net, After(net, s, front).value, ls[|ls| - 1]);
    }
  }

  // One message of a client or of the server, once sent, is followed by at most
  // twelve steps and one reply, or by six steps and none if it is itself a response.
  lemma OneMessage(net: Net, origin: Origin, m: Message, ls: seq<Label>)
    requires NamesApart(net) && (origin.Client? ==> origin.node < |net.nodes|) && !ForServer(m)
    requires After(net, State([Mail(origin, m)], [], 0, 0), ls).Some?
    ensures |ls| <= (if IsResponse(m) then 6 else 12)
    ensures After(net, State([Mail(origin, m)], [], 0, 0), ls).value.replies <= if IsResponse(m) then 0 else 1
  {
    hide Step, Enabled, Has, Address.RouteName, NamesApart;
    var s := State([Mail(origin, m)], [], 0, 0);
    FlightPush(net, [], Mail(origin, m));
    assert [] + [Mail(origin, m)] == s.flight;
    hide After;
    ExchangeEnds(net, s, ls);
  }

  // ----- What an exchange does ----------------------------------------------

  lemma Extend(net: Net, s: State, ls: seq<Label>, l: Label)
    requires After(net, s, ls).Some? && Enabled(net, After(net, s, ls).value, l)
    ensures After(net, s, ls + [l]) == Some(Step(net, After(net, s, ls).value, l))
  {
    hide Step, Enabled;
    assert (ls + [l])[..|ls|] == ls;
  }

  lemma FromStart(net: Net, s: State)
    ensures After(net, s, []) == Some(s)
  {
  }

  // Whatever the state, the network may lose any message, and any handler task
  // may fail before its handler runs; nothing else changes.
  lemma AnythingMayFail(net: Net, s: State, i: nat, t: nat)
    ensures IsMail(s, i) ==> After(net, s, [Lose(i)]) == Some(s.(flight := s.flight[i := Gone]))
    ensures t < |s.tasks| && (s.tasks[t].stage.Start? || s.tasks[t].stage.Waiting?) ==>
              After(net, s, [Abandon(t)]) == Some(s.(tasks := s.tasks[t := s.tasks[t].(stage := Ended)]))
  {
    FromStart(net, s);
    assert [] + [Lose(i)] == [Lose(i)] && [] + [Abandon(t)] == [Abandon(t)];
    if IsMail(s, i) {
      Extend(net, s, [], Lose(i));
    }
    if t < |s.tasks| && (s.tasks[t].stage.Start? || s.tasks[t].stage.Waiting?) {
      Extend(net, s, [], Abandon(t));
    }
  }

  // A message for a handler, delivered to it, is answered as the client answers:
  // with its reply, if any, in flight from that client.
  lemma HandledIsAnswered(net: Net, s: State, i: nat, to: nat, cards: Rpc.Cards, h: Rpc.Handler)
    requires IsMail(s, i) && !ForServer(s.flight[i].msg) && Handled(net, s.flight[i].msg) && to < |net.nodes|
    ensures var m := Arriving(net, s.flight[i]);
            var reply := Rpc.Reply(net.c, net.nodes[to], cards, m, h);
            var s' := After(net, s, [Deliver(i, to, false), Proceed(|s.tasks|), Finish(|s.tasks|, cards, h)]);
            && s'.Some? && s'.value.tasks == s.tasks + [Task(to, m, Ended)]
            && s'.value.flight
            == s.flight[i := Gone] + (if reply.Some? then [Mail(Client(to), reply.value)] else [])
            && s'.value.requests == s.requests + (if IsResponse(m) then 0 else 1)
            && s'.value.replies == s.replies + if reply.Some? then 1 else 0
  {
    hide After, Rpc.Reply, Rpc.Request, Has, Address.RouteName, Rpc.FromRelay;
    var t, m := |s.tasks|, Arriving(net, s.flight[i]);
    ArrivingKeeps(net, s.flight[i]);
    FromStart(net, s);
    var a := [] + [Deliver(i, to, false)];
    Extend(net, s, [], Deliver(i, to, false));
    var b := a + [Proceed(t)];
    Extend(net, s, a, Proceed(t));
    Extend(net, s, b, Finish(t, cards, h));
    assert [Deliver(i, to, false), Proceed(t), Finish(t, cards, h)] == b + [Finish(t, cards, h)];
    assert (s.tasks + [Task(to, m, Start)])[t := Task(to, m, Running)] == s.tasks + [Task(to, m, Running)];
    assert (s.tasks + [Task(to, m, Running)])[t := Task(to, m, Ended)] == s.tasks + [Task(to, m, Ended)];
    assert s.flight[i := Gone] + [] == s.flight[i := Gone];
  }

  // A task that needs a card asks the server for it; the server's answer comes
  // back to the asking client and its handler can run, with nothing left in flight.
  lemma LookupCompletes(net: Net, s: State, t: nat, hash: Bytes, id: Bytes, answer: Message)
    requires NamesApart(net) && OnNode(net, s, t) && s.tasks[t].stage.Start? && |id| == ID_LEN
    requires var me := net.nodes[s.tasks[t].node];
             && Rpc.Request(net.c, me, _ => None, IDCARD_FIND, hash, id).Ok?
             && answer.recipient == Rpc.ReplyAddress(me, id)
    ensures var k := |s.flight|;
            var run := [LookUp(t, hash, id), Serve(k, Some(answer)), Deliver(k + 1, s.tasks[t].node, true), Proceed(t)];
            After(net, s, run)
            == Some(s.(flight := s.flight + [Gone, Gone], tasks := s.tasks[t := s.tasks[t].(stage := Running)]))
  {
    hide After, Rpc.Request, Has, Address.RouteName, Address.TargetId, Uuid.UuidString;
    var k, node := |s.flight|, s.tasks[t].node;
    var me := net.nodes[node];
    var request := Rpc.Request(net.c, me, _ => None, IDCARD_FIND, hash, id).value;
    LookupSends(net, me, hash, id);
    FromStart(net, s);
    var a := [] + [LookUp(t, hash, id)];
    Extend(net, s, [], LookUp(t, hash, id));
    var asked := After(net, s, a).value;
    assert asked.flight == s.flight + [Mail(Client(node), request)];
    var b := a + [Serve(k, Some(answer))];
    AnswerIsPrivate(net, asked.flight[k], answer);
    Extend(net, s, a, Serve(k, Some(answer)));
    var answered := After(net, s, b).value;
    assert answered.flight == s.flight + [Gone] + [Mail(Server, answer)];
    var c := b + [Deliver(k + 1, node, true)];
    Extend(net, s, b, Deliver(k + 1, node, true));
    assert After(net, s, c).value.flight == s.flight + [Gone, Gone];
    Extend(net, s, c, Proceed(t));
    assert s.tasks[t := s.tasks[t].(stage := Waiting)][t := s.tasks[t].(stage := Running)]
        == s.tasks[t := s.tasks[t].(stage := Running)];
    assert [LookUp(t, hash, id), Serve(k, Some(answer)), Deliver(k + 1, node, true), Proceed(t)] == c + [Proceed(t)];
  }

  // The lookup is a request to the server that is to be answered to its own queue.
  lemma LookupSends(net: Net, me: Rpc.Node, hash: Bytes, id: Bytes)
    requires |id| == ID_LEN && Rpc.Request(net.c, me, _ => None, IDCARD_FIND, hash, id).Ok?
    ensures var request := Rpc.Request(net.c, me, _ => None, IDCARD_FIND, hash, id).value;
            && ForServer(request) && !IsResponse(request) && IsReplyPath(request.sender)
            && Rpc.FromRelay(request, me.hash).sender == Rpc.ReplyAddress(me, id)
  {
    hide Uuid.UuidString, Address.TargetId;
    LookupIsPlain(net.c, me, _ => None, hash, id);
    Rpc.SenderPrefixed(me, id);
    Rpc.NoFlags();
  }
}
