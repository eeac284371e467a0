/** The browser client's outgoing queue and shared sink, as a labelled step system.
    There is one event loop, so a step runs from one await to the next: what
    interleaves are the sends awaited by any number of `flush_out` calls. The
    browser client reads from a connection, and so lets it go, only after the flush
    that installed its sink returned. `GoOffline` does not wait for that, which adds
    runs to the lemmas about all of them; the runs given here keep the order. */
module WasmOut {
  import opened Common
  import opened Wire
  import Outgoing

  type Item = Outgoing.Item

  // A `flush_out` call: awaiting a send on some connection's sink, or returned.
  datatype Flush = Sending(sink: nat, item: Item) | Returned

  datatype State = State(
    outq: seq<Item>,
    sink: Option<nat>,
    flushes: seq<Flush>,
    // Which connections are online, and the client's count of them.
    online: seq<bool>,
    onlineCnt: int,
    // History: all pushes, what was sent and in which order, and the largest
    // number of sends awaited at once.
    pushed: seq<Message>,
    sent: seq<Item>,
    peak: nat)

  datatype Label =
    | Push(msg: Message)
    | GoOnline
    | GoOffline(c: nat)
    | SendDone(f: nat, ok: bool)

  function Init(): State { State([], None, [], [], 0, [], [], 0) }

  predicate Enabled(s: State, l: Label) {
    match l
    case Push(_) => true
    case GoOnline => true
    case GoOffline(c) => c < |s.online| && s.online[c]
    case SendDone(f, _) => f < |s.flushes| && s.flushes[f].Sending?
  }

  // The messages whose sends are awaited.
  function Awaited(fs: seq<Flush>): seq<Item> {
    if fs == [] then []
    else Awaited(fs[..|fs| - 1]) + if fs[|fs| - 1].Sending? then [fs[|fs| - 1].item] else []
  }

  lemma AwaitedSnoc(fs: seq<Flush>, x: Flush)
    ensures Awaited(fs + [x]) == Awaited(fs) + if x.Sending? then [x.item] else []
  {
    assert (fs + [x])[..|fs|] == fs;
  }

  // One round of `flush_out`: up to the next send, or its return.
  function Round(s: State, f: nat): State
    requires f < |s.flushes|
  {
    if s.sink.None? || s.outq == [] then s.(flushes := s.flushes[f := Returned])
    else
      var fs := s.flushes[f := Sending(s.sink.value, s.outq[0])];
      s.(outq := s.outq[1..], flushes := fs, peak := if |Awaited(fs)| > s.peak then |Awaited(fs)| else s.peak)
  }

  function StartFlush(s: State): State { Round(s.(flushes := s.flushes + [Returned]), |s.flushes|) }

  function Step(s: State, l: Label): State
    requires Enabled(s, l)
  {
    match l
    case Push(m) =>
      StartFlush(s.(outq := s.outq + [Outgoing.Item(|s.pushed|, m)], pushed := s.pushed + [m]))
    case GoOnline =>
      StartFlush(s.(online := s.online + [true], onlineCnt := s.onlineCnt + 1, sink := Some(|s.online|)))
    case GoOffline(c) => s.(online := s.online[c := false], onlineCnt := s.onlineCnt - 1, sink := None)
    case SendDone(f, ok) =>
      var item := s.flushes[f].item;
      if ok then Round(s.(sent := s.sent + [item]), f)
      else s.(outq := [item] + s.outq, sink := None, flushes := s.flushes[f := Returned])
  }

  function After(ls: seq<Label>): Option<State> {
    if ls == [] then Some(Init())
    else
      var s := After(ls[..|ls| - 1]);
      if s.Some? && Enabled(s.value, ls[|ls| - 1]) then Some(Step(s.value, ls[|ls| - 1])) else None
  }

  function Count(online: seq<bool>): nat {
    if online == [] then 0 else Count(online[..|online| - 1]) + if online[|online| - 1] then 1 else 0
  }

  lemma {:induction false} CountUpdate(online: seq<bool>, c: nat, b: bool)
    requires c < |online|
    ensures Count(online[c := b]) + (if online[c] then 1 else 0) == Count(online) + (if b then 1 else 0)
  {
    var n := |online| - 1;
    if c < n {
      CountUpdate(online[..n], c, b);
      assert online[c := b][..n] == online[..n][c := b];
    } else {
      assert online[c := b][..n] == online[..n];
    }
  }

  lemma CountPush(online: seq<bool>, b: bool)
    ensures Count(online + [b]) == Count(online) + if b then 1 else 0
  {
    assert (online + [b])[..|online|] == online;
  }

  lemma CountMember(online: seq<bool>, c: nat)
    requires c < |online| && online[c]
    ensures Count(online) >= 1
  {
    CountUpdate(online, c, false);
  }

  // ----- Messages held by flushes -------------------------------------------

  function HeldBy(f: Flush): multiset<Item> { if f.Sending? then multiset{f.item} else multiset{} }

  function Held(fs: seq<Flush>): multiset<Item> {
    if fs == [] then multiset{} else Held(fs[..|fs| - 1]) + HeldBy(fs[|fs| - 1])
  }

  lemma AddToBoth(a: multiset<Item>, b: multiset<Item>, c: multiset<Item>, d: multiset<Item>, x: multiset<Item>)
    requires a + b == c + d
    ensures a + x + b == c + x + d
  {
    forall i ensures (a + x + b)[i] == (c + x + d)[i] {
      assert (a + b)[i] == (c + d)[i];
    }
  }

  lemma {:induction false} HeldUpdate(fs: seq<Flush>, f: nat, x: Flush)
    requires f < |fs|
    ensures Held(fs[f := x]) + HeldBy(fs[f]) == Held(fs) + HeldBy(x)
  {
    hide HeldBy;
    var n := |fs| - 1;
    if f < n {
      HeldUpdate(fs[..n], f, x);
      assert fs[f := x][..n] == fs[..n][f := x];
      AddToBoth(Held(fs[..n][f := x]), HeldBy(fs[f]), Held(fs[..n]), HeldBy(x), HeldBy(fs[n]));
    } else {
      assert fs[f := x][..n] == fs[..n];
    }
  }

  lemma HeldPush(fs: seq<Flush>)
    ensures Held(fs + [Returned]) == Held(fs)
  {
    assert (fs + [Returned])[..|fs|] == fs;
  }

  // ----- Invariant ----------------------------------------------------------

  // Every pushed message is queued, in flight or sent, exactly once.
  ghost predicate Conserved(s: State) {
    multiset(s.outq) + Held(s.flushes) + multiset(s.sent) == multiset(Outgoing.All(s.pushed))
  }

  ghost predicate OnlineInv(s: State) {
    && s.onlineCnt == Count(s.online)
    && (s.sink.Some? ==> s.sink.value < |s.online| && s.online[s.sink.value])
  }

  // Nothing is left queued beside an installed sink unless a flush is at work.
  ghost predicate NotStranded(s: State) {
    s.sink.Some? && s.outq != [] ==> exists f :: 0 <= f < |s.flushes| && s.flushes[f].Sending?
  }

  ghost predicate Inv(s: State) { Conserved(s) && OnlineInv(s) && NotStranded(s) }

  lemma ItemTaken(q: seq<Item>, before: multiset<Item>, held: multiset<Item>)
    requires q != [] && held + multiset{} == before + multiset{q[0]}
    ensures multiset(q[1..]) + held == multiset(q) + before
  {
    assert q == [q[0]] + q[1..];
    assert multiset(q) == multiset{q[0]} + multiset(q[1..]);
    assert held == before + multiset{q[0]};
  }

  lemma RoundKeeps(s: State, f: nat)
    requires f < |s.flushes| && s.flushes[f].Returned?
    ensures multiset(Round(s, f).outq) + Held(Round(s, f).flushes) == multiset(s.outq) + Held(s.flushes)
    ensures NotStranded(Round(s, f))
  {
    hide Held;
    var s' := Round(s, f);
    HeldUpdate(s.flushes, f, s'.flushes[f]);
    if s.sink.Some? && s.outq != [] {
      ItemTaken(s.outq, Held(s.flushes), Held(s'.flushes));
      assert s'.flushes[f].Sending?;
    } else {
      assert s'.flushes == s.flushes;
    }
  }

  // Overwriting the flush makes its previous state irrelevant.
  lemma RoundFrom(s: State, f: nat)
    requires f < |s.flushes|
    ensures Round(s, f) == Round(s.(flushes := s.flushes[f := Returned]), f)
  {
    var x := Round(s, f).flushes[f];
    assert s.flushes[f := Returned][f := x] == s.flushes[f := x];
  }

  lemma PushKeepsInv(s: State, m: Message)
    requires Inv(s)
    ensures Inv(Step(s, Push(m)))
  {
    hide Held, Round, Count;
    var item := Outgoing.Item(|s.pushed|, m);
    var queued := s.(outq := s.outq + [item], pushed := s.pushed + [m], flushes := s.flushes + [Returned]);
    HeldPush(s.flushes);
    RoundKeeps(queued, |s.flushes|);
    RoundFrame(queued, |s.flushes|);
    assert Outgoing.All(queued.pushed) == Outgoing.All(s.pushed) + [item];
  }

  lemma RoundFrame(s: State, f: nat)
    requires f < |s.flushes|
    ensures Round(s, f) == s.(outq := Round(s, f).outq, flushes := Round(s, f).flushes, peak := Round(s, f).peak)
  {
  }

  lemma OnlineKeepsInv(s: State)
    requires Inv(s)
    ensures Inv(Step(s, GoOnline))
  {
    hide Held, Round, Count;
    CountPush(s.online, true);
    HeldPush(s.flushes);
    var installed := s.(online := s.online + [true], onlineCnt := s.onlineCnt + 1, sink := Some(|s.online|),
                        flushes := s.flushes + [Returned]);
    RoundKeeps(installed, |s.flushes|);
    RoundFrame(installed, |s.flushes|);
  }

  lemma OfflineKeepsInv(s: State, c: nat)
    requires Inv(s) && Enabled(s, GoOffline(c))
    ensures Inv(Step(s, GoOffline(c)))
  {
    hide Held, Count;
    CountUpdate(s.online, c, false);
  }

  // An item leaving a flush is sent, or put back in front.
  lemma ItemMoves(q: seq<Item>, before: multiset<Item>, held: multiset<Item>, sent: seq<Item>, item: Item)
    requires held + multiset{item} == before + multiset{}
    ensures multiset(q) + held + multiset(sent + [item]) == multiset(q) + before + multiset(sent)
    ensures multiset([item] + q) + held + multiset(sent) == multiset(q) + before + multiset(sent)
  {
    assert multiset(sent + [item]) == multiset(sent) + multiset{item};
    assert multiset([item] + q) == multiset{item} + multiset(q);
    assert before == held + multiset{item};
  }

  lemma SendKeepsInv(s: State, f: nat, ok: bool)
    requires Inv(s) && Enabled(s, SendDone(f, ok))
    ensures Inv(Step(s, SendDone(f, ok)))
  {
    hide Held, Round, Count;
    var item := s.flushes[f].item;
    HeldUpdate(s.flushes, f, Returned);
    ItemMoves(s.outq, Held(s.flushes), Held(s.flushes[f := Returned]), s.sent, item);
    var sent := s.(sent := s.sent + [item]);
    var free := sent.(flushes := s.flushes[f := Returned]);
    RoundFrom(sent, f);
    RoundKeeps(free, f);
    RoundFrame(free, f);
  }

  // In every interleaving: no message is lost or duplicated, an installed sink
  // belongs to a connection that is online, and no message waits beside it idle.
  lemma {:induction false} Invariant(ls: seq<Label>)
    requires After(ls).Some?
    ensures Inv(After(ls).value)
  {
    hide Enabled, Step;
    if ls != [] {
      hide Inv;
      var s, l := After(ls[..|ls| - 1]).value, ls[|ls| - 1];
      Invariant(ls[..|ls| - 1]);
      match l {
        case Push(m) => PushKeepsInv(s, m);
        case GoOnline => OnlineKeepsInv(s);
        case GoOffline(c) => OfflineKeepsInv(s, c);
        case SendDone(f, ok) => SendKeepsInv(s, f, ok);
      }
    }
  }

  // Each push is in exactly one place: queued, awaited by a flush, or sent.
  lemma ExactlyOnePlace(ls: seq<Label>, ticket: nat)
    requires After(ls).Some? && ticket < |After(ls).value.pushed|
    ensures var s := After(ls).value;
            var item := Outgoing.Item(ticket, s.pushed[ticket]);
            multiset(s.outq)[item] + Held(s.flushes)[item] + multiset(s.sent)[item] == 1
  {
    hide After, OnlineInv, NotStranded, Held;
    Invariant(ls);
    var s := After(ls).value;
    var item := Outgoing.Item(ticket, s.pushed[ticket]);
    Outgoing.OccursOnce(s.pushed, item);
    assert Outgoing.All(s.pushed)[ticket] == item;
    assert item in multiset(Outgoing.All(s.pushed));
  }

  lemma SinkMeansOnline(ls: seq<Label>)
    requires After(ls).Some?
    ensures After(ls).value.onlineCnt >= 0
    ensures After(ls).value.sink.Some? ==> After(ls).value.onlineCnt >= 1
  {
    hide After, Conserved, NotStranded, Count;
    Invariant(ls);
    var s := After(ls).value;
    if s.sink.Some? {
      CountMember(s.online, s.sink.value);
    }
  }

  // ----- When a sink is installed -------------------------------------------

  // What takes the installed sink away, whichever connection it belongs to.
  predicate Clears(l: Label) { l.GoOffline? || (l.SendDone? && !l.ok) }

  // A connection came online at step i and nothing has cleared a sink since.
  predicate KeptSince(ls: seq<Label>, i: nat) {
    i < |ls| && ls[i].GoOnline? && forall j :: i <= j < |ls| ==> !Clears(ls[j])
  }

  lemma StepSink(s: State, l: Label)
    requires Enabled(s, l)
    ensures Step(s, l).sink == if l.GoOnline? then Some(|s.online|) else if Clears(l) then None else s.sink
    ensures |Step(s, l).online| == |s.online| + if l.GoOnline? then 1 else 0
  {
  }

  // In every run a sink is installed if and only if, since some connection came
  // online, no connection went offline and no send failed, on any connection.
  lemma {:induction false} SinkExactly(ls: seq<Label>)
    requires After(ls).Some?
    ensures After(ls).value.sink.Some? <==> exists i :: KeptSince(ls, i)
  {
    hide Enabled, Step;
    if ls != [] {
      var front, l := ls[..|ls| - 1], ls[|ls| - 1];
      assert ls == front + [l];
      SinkExactly(front);
      StepSink(After(front).value, l);
      if l.GoOnline? {
        assert KeptSince(ls, |front|);
      } else if Clears(l) {
        NoneKept(front, l);
      } else {
        forall i ensures KeptSince(ls, i) <==> KeptSince(front, i) {
          KeptExtends(front, l, i);
        }
      }
    }
  }

  lemma NoneKept(front: seq<Label>, l: Label)
    requires Clears(l)
    ensures forall i :: !KeptSince(front + [l], i)
  {
    assert (front + [l])[|front|] == l;
  }

  lemma KeptExtends(front: seq<Label>, l: Label, i: nat)
    requires !l.GoOnline? && !Clears(l)
    ensures KeptSince(front + [l], i) <==> KeptSince(front, i)
  {
    var ls := front + [l];
    assert forall j :: 0 <= j < |front| ==> ls[j] == front[j];
    if KeptSince(ls, i) {
      assert ls[i] == front[i];
      forall j | i <= j < |front| ensures !Clears(front[j]) {
        assert !Clears(ls[j]);
      }
    }
  }

  lemma Extend(ls: seq<Label>, l: Label)
    requires After(ls).Some? && Enabled(After(ls).value, l)
    ensures After(ls + [l]) == Some(Step(After(ls).value, l))
  {
    hide Step, Enabled;
    assert (ls + [l])[..|ls|] == ls;
  }

  // No sink, and no send awaited.
  predicate Idle(s: State) { s.sink.None? && forall f :: 0 <= f < |s.flushes| ==> s.flushes[f].Returned? }

  // Then nothing is sent, and the queue only grows, until a connection comes online.
  lemma {:induction false} IdleUntilOnline(ls: seq<Label>, more: seq<Label>)
    requires After(ls).Some? && Idle(After(ls).value) && After(ls + more).Some?
    requires forall i :: 0 <= i < |more| ==> !more[i].GoOnline?
    ensures var s, s' := After(ls).value, After(ls + more).value;
            Idle(s') && s'.sent == s.sent && s.outq <= s'.outq
  {
    if more == [] {
      assert ls + more == ls;
    } else {
      hide Step, Enabled;
      var front, l := more[..|more| - 1], more[|more| - 1];
      assert (ls + more)[..|ls + more| - 1] == ls + front;
      IdleUntilOnline(ls, front);
      IdleStep(After(ls + front).value, l);
    }
  }

  lemma IdleStep(s: State, l: Label)
    requires Idle(s) && Enabled(s, l) && !l.GoOnline?
    ensures Idle(Step(s, l)) && Step(s, l).sent == s.sent && s.outq <= Step(s, l).outq
  {
  }

  // One connection online, a message queued, and nothing that would send it.
  predicate Stranded(s: State, m: Message) { s.onlineCnt == 1 && s.outq == [Outgoing.Item(0, m)] && Idle(s) }

  // Of two connections the first leaves and clears the other's sink; a message
  // pushed afterwards stays queued although a connection is online.
  lemma OnlineWithoutSink(m: Message) returns (ls: seq<Label>)
    ensures ls == [GoOnline, GoOnline, GoOffline(0), Push(m)]
    ensures After(ls).Some? && Stranded(After(ls).value, m)
  {
    assert After([]) == Some(Init());
    hide After;
    var a := [] + [GoOnline];
    Extend([], GoOnline);
    var b := a + [GoOnline];
    Extend(a, GoOnline);
    var c := b + [GoOffline(0)];
    Extend(b, GoOffline(0));
    ls := c + [Push(m)];
    Extend(c, Push(m));
  }

  // The states of the next run, by which step they follow.
  function SendingOn0(m: Message): State {
    State([], Some(0), [Returned, Sending(0, Outgoing.Item(0, m))], [true], 1, [m], [], 1)
  }

  function Replaced(m: Message): State {
    State([], Some(1), [Returned, Sending(0, Outgoing.Item(0, m)), Returned], [false, true], 1, [m], [], 1)
  }

  lemma FirstOnline()
    ensures Step(Init(), GoOnline) == State([], Some(0), [Returned], [true], 1, [], [], 0)
  {
    hide Awaited;
    var s := Step(Init(), GoOnline);
    assert s.flushes == [Returned] && s.online == [true] && s.outq == [];
  }

  lemma StartsSending(m: Message)
    ensures Step(Step(Init(), GoOnline), Push(m)) == SendingOn0(m)
  {
    FirstOnline();
    hide Awaited;
    var fs := [Returned, Sending(0, Outgoing.Item(0, m))];
    OneAwaited(Sending(0, Outgoing.Item(0, m)));
    assert ([Returned] + [Returned])[1 := fs[1]] == fs;
    assert [] + [Outgoing.Item(0, m)] == [Outgoing.Item(0, m)] && [] + [m] == [m];
  }

  lemma OneAwaited(x: Flush)
    requires x.Sending?
    ensures Awaited([Returned, x]) == [x.item]
  {
    assert Awaited([]) == [];
    hide Awaited;
    AwaitedSnoc([], Returned);
    AwaitedSnoc([Returned], x);
    assert [] + [Returned] == [Returned] && [Returned] + [x] == [Returned, x];
  }

  lemma NextComesOnline(m: Message)
    ensures Step(Step(SendingOn0(m), GoOffline(0)), GoOnline) == Replaced(m)
  {
    var s := Step(SendingOn0(m), GoOffline(0));
    assert s.online == [false];
  }

  // It takes no second connection: a send still awaited on a connection that has
  // left fails after the next one came online, and clears the new one's sink.
  lemma StaleSendStrands(m: Message) returns (ls: seq<Label>)
    ensures ls == [GoOnline, Push(m), GoOffline(0), GoOnline, SendDone(1, false)]
    ensures After(ls).Some? && Stranded(After(ls).value, m) && After(ls).value.online == [false, true]
  {
    assert After([]) == Some(Init());
    hide After, Step;
    StartsSending(m);
    NextComesOnline(m);
    var a := [] + [GoOnline];
    Extend([], GoOnline);
    var b := a + [Push(m)];
    Extend(a, Push(m));
    var c := b + [GoOffline(0)];
    Extend(b, GoOffline(0));
    var d := c + [GoOnline];
    Extend(c, GoOnline);
    ls := d + [SendDone(1, false)];
    Extend(d, SendDone(1, false));
    StaleFails(m);
  }

  lemma StaleFails(m: Message)
    ensures Stranded(Step(Replaced(m), SendDone(1, false)), m)
    ensures Step(Replaced(m), SendDone(1, false)).online == [false, true]
  {
  }

  // ----- In which order messages are sent -----------------------------------

  // Flushes are writers: a run of this system is one of `Outgoing`, where a flush
  // that takes a message is a writer spawned for it, which dies when the flush
  // returns. `wr[f]` is the writer of flush f.

  lemma {:induction false} AwaitedUpdate(fs: seq<Flush>, f: nat, x: Flush)
    requires f < |fs|
    ensures |Awaited(fs[f := x])| + (if fs[f].Sending? then 1 else 0) == |Awaited(fs)| + if x.Sending? then 1 else 0
  {
    var n := |fs| - 1;
    if f < n {
      AwaitedUpdate(fs[..n], f, x);
      assert fs[f := x][..n] == fs[..n][f := x];
    } else {
      assert fs[f := x][..n] == fs[..n];
    }
  }

  lemma {:induction false} AwaitedHeld(fs: seq<Flush>)
    ensures multiset(Awaited(fs)) == Held(fs)
  {
    if fs != [] {
      AwaitedHeld(fs[..|fs| - 1]);
    }
  }

  // Flush f (if there is one) has just sent its message; all others hold theirs.
  ghost predicate MirrorsBut(s: State, o: Outgoing.State, wr: seq<nat>, f: nat) {
    && o.queue == s.outq && o.pushed == s.pushed && o.sent == s.sent
    && |wr| == |s.flushes|
    && (forall g :: 0 <= g < |s.flushes| && s.flushes[g].Sending? ==>
          wr[g] < |o.writers|
          && o.writers[wr[g]] == if g == f then Outgoing.Idle else Outgoing.Holding(s.flushes[g].item))
    && (forall g, h :: 0 <= g < h < |s.flushes| && s.flushes[g].Sending? && s.flushes[h].Sending? ==> wr[g] != wr[h])
    && Outgoing.Live(o.writers) == |Awaited(s.flushes)|
    && o.peak <= s.peak && |Awaited(s.flushes)| <= s.peak
  }

  ghost predicate Mirrors(s: State, o: Outgoing.State, wr: seq<nat>) { MirrorsBut(s, o, wr, |s.flushes|) }

  // A new flush that finds a message is a writer spawned to take it.
  lemma StartMirrors(s: State, o: Outgoing.State, wr: seq<nat>, ols: seq<Outgoing.Label>)
    returns (more: seq<Outgoing.Label>, wr': seq<nat>)
    requires Mirrors(s, o, wr) && Outgoing.After(ols) == Some(o)
    ensures Outgoing.After(ols + more).Some? && Mirrors(StartFlush(s), Outgoing.After(ols + more).value, wr')
  {
    hide Outgoing.After, Outgoing.Live, Awaited;
    var f, w := |s.flushes|, |o.writers|;
    wr' := wr + [w];
    AwaitedSnoc(s.flushes, Returned);
    assert Awaited(s.flushes) + [] == Awaited(s.flushes);
    if s.sink.None? || s.outq == [] {
      more := [];
      assert ols + [] == ols;
      assert (s.flushes + [Returned])[f := Returned] == s.flushes + [Returned];
    } else {
      more := [Outgoing.Spawn, Outgoing.Pop(w)];
      Outgoing.AfterSnoc(ols, Outgoing.Spawn);
      Outgoing.AfterSnoc(ols + [Outgoing.Spawn], Outgoing.Pop(w));
      assert ols + more == ols + [Outgoing.Spawn] + [Outgoing.Pop(w)];
      Outgoing.HeldPush(o.writers, Outgoing.Idle);
      Outgoing.LiveUpdate(o.writers + [Outgoing.Idle], w, Outgoing.Holding(s.outq[0]));
      AwaitedUpdate(s.flushes + [Returned], f, Sending(s.sink.value, s.outq[0]));
    }
  }

  // A flush that has sent takes the next message, or returns and its writer dies.
  lemma RoundMirrors(s: State, o: Outgoing.State, wr: seq<nat>, f: nat, ols: seq<Outgoing.Label>)
    returns (more: seq<Outgoing.Label>)
    requires f < |s.flushes| && s.flushes[f].Sending?
    requires MirrorsBut(s, o, wr, f) && Outgoing.After(ols) == Some(o)
    ensures Outgoing.After(ols + more).Some? && Mirrors(Round(s, f), Outgoing.After(ols + more).value, wr)
  {
    hide Outgoing.After, Outgoing.Live, Awaited;
    var w := wr[f];
    AwaitedUpdate(s.flushes, f, Round(s, f).flushes[f]);
    forall g | 0 <= g < |s.flushes| && g != f && s.flushes[g].Sending? ensures wr[g] != w {
      assert g < f || f < g;
    }
    if s.sink.None? || s.outq == [] {
      more := [Outgoing.Exit(w)];
      Outgoing.AfterSnoc(ols, Outgoing.Exit(w));
      Outgoing.LiveUpdate(o.writers, w, Outgoing.Dead);
    } else {
      more := [Outgoing.Pop(w)];
      Outgoing.AfterSnoc(ols, Outgoing.Pop(w));
      Outgoing.LiveUpdate(o.writers, w, Outgoing.Holding(s.outq[0]));
    }
  }

  // A failed send puts the message back in front, and the flush returns.
  lemma FailMirrors(s: State, o: Outgoing.State, wr: seq<nat>, f: nat, ols: seq<Outgoing.Label>)
    returns (more: seq<Outgoing.Label>)
    requires Enabled(s, SendDone(f, false)) && Mirrors(s, o, wr) && Outgoing.After(ols) == Some(o)
    ensures Outgoing.After(ols + more).Some?
    ensures Mirrors(Step(s, SendDone(f, false)), Outgoing.After(ols + more).value, wr)
  {
    hide Outgoing.After, Outgoing.Live, Awaited;
    var w, item := wr[f], s.flushes[f].item;
    more := [Outgoing.SendFail(w), Outgoing.Requeue(w)];
    Outgoing.AfterSnoc(ols, Outgoing.SendFail(w));
    Outgoing.AfterSnoc(ols + [Outgoing.SendFail(w)], Outgoing.Requeue(w));
    assert ols + more == ols + [Outgoing.SendFail(w)] + [Outgoing.Requeue(w)];
    Outgoing.LiveUpdate(o.writers, w, Outgoing.Failing(item));
    Outgoing.LiveUpdate(o.writers[w := Outgoing.Failing(item)], w, Outgoing.Dead);
    AwaitedUpdate(s.flushes, f, Returned);
  }

  // The send went through: the writer is idle again.
  lemma SentMirrors(s: State, o: Outgoing.State, wr: seq<nat>, f: nat)
    requires Enabled(s, SendDone(f, true)) && Mirrors(s, o, wr)
    ensures Outgoing.Enabled(o, Outgoing.SendOk(wr[f]))
    ensures MirrorsBut(s.(sent := s.sent + [s.flushes[f].item]), Outgoing.Step(o, Outgoing.SendOk(wr[f])), wr, f)
  {
    hide Outgoing.Live, Awaited;
    Outgoing.LiveUpdate(o.writers, wr[f], Outgoing.Idle);
  }

  lemma StepMirrors(s: State, l: Label, o: Outgoing.State, wr: seq<nat>, ols: seq<Outgoing.Label>)
    returns (more: seq<Outgoing.Label>, wr': seq<nat>)
    requires Enabled(s, l) && Mirrors(s, o, wr) && Outgoing.After(ols) == Some(o)
    ensures Outgoing.After(ols + more).Some? && Mirrors(Step(s, l), Outgoing.After(ols + more).value, wr')
  {
    hide Outgoing.After, Outgoing.Live, Awaited, Round;
    wr' := wr;
    match l {
      case Push(m) =>
        Outgoing.AfterSnoc(ols, Outgoing.Push(m));
        var queued := s.(outq := s.outq + [Outgoing.Item(|s.pushed|, m)], pushed := s.pushed + [m]);
        var others;
        others, wr' := StartMirrors(queued, Outgoing.Step(o, Outgoing.Push(m)), wr, ols + [Outgoing.Push(m)]);
        more := [Outgoing.Push(m)] + others;
        assert ols + more == ols + [Outgoing.Push(m)] + others;
      case GoOnline =>
        var installed := s.(online := s.online + [true], onlineCnt := s.onlineCnt + 1, sink := Some(|s.online|));
        more, wr' := StartMirrors(installed, o, wr, ols);
      case GoOffline(_) =>
        more := [];
        assert ols + [] == ols;
      case SendDone(f, ok) =>
        if ok {
          var w := wr[f];
          SentMirrors(s, o, wr, f);
          Outgoing.AfterSnoc(ols, Outgoing.SendOk(w));
          var sent := s.(sent := s.sent + [s.flushes[f].item]);
          var others := RoundMirrors(sent, Outgoing.Step(o, Outgoing.SendOk(w)), wr, f, ols + [Outgoing.SendOk(w)]);
          more := [Outgoing.SendOk(w)] + others;
          assert ols + more == ols + [Outgoing.SendOk(w)] + others;
        } else {
          more := FailMirrors(s, o, wr, f, ols);
        }
    }
  }

  lemma {:induction false} RefinesOutgoing(ls: seq<Label>) returns (ols: seq<Outgoing.Label>, wr: seq<nat>)
    requires After(ls).Some?
    ensures Outgoing.After(ols).Some? && Mirrors(After(ls).value, Outgoing.After(ols).value, wr)
  {
    hide Step, Enabled, Mirrors, Outgoing.After;
    if ls == [] {
      ols, wr := [], [];
      NothingMirrors();
    } else {
      ols, wr := RefinesOutgoing(ls[..|ls| - 1]);
      var more;
      more, wr := StepMirrors(After(ls[..|ls| - 1]).value, ls[|ls| - 1], Outgoing.After(ols).value, wr, ols);
      ols := ols + more;
    }
  }

  lemma NothingMirrors()
    ensures Outgoing.After([]) == Some(Outgoing.Init()) && Mirrors(Init(), Outgoing.Init(), [])
  {
  }

  // No message overtakes as many earlier ones as there were sends awaited at once.
  lemma BoundedReordering(ls: seq<Label>)
    requires After(ls).Some?
    ensures var s := After(ls).value; forall k :: 0 <= k < |s.sent| ==> s.sent[k].ticket < k + s.peak
  {
    hide After, Outgoing.After, Outgoing.Live, Awaited;
    var ols, wr := RefinesOutgoing(ls);
    Outgoing.BoundedReordering(ols);
  }

  // As long as no two sends are awaited at once, sent, awaited and queued together
  // are the pushes in order.
  lemma SingleSendFifo(ls: seq<Label>)
    requires After(ls).Some? && After(ls).value.peak <= 1
    ensures var s := After(ls).value; s.sent + Awaited(s.flushes) + s.outq == Outgoing.All(s.pushed)
  {
    hide After, Outgoing.After, Outgoing.Live, Outgoing.Held, Awaited, Held;
    var ols, wr := RefinesOutgoing(ls);
    var s, o := After(ls).value, Outgoing.After(ols).value;
    Outgoing.SingleWriterFifo(ols);
    Outgoing.HeldAtMostLive(o.writers);
    Invariant(ls);
    AwaitedHeld(s.flushes);
    var held := Outgoing.Held(o.writers);
    assert multiset(s.sent + held + s.outq) == multiset(s.sent) + multiset(held) + multiset(s.outq);
    SameSingle(held, Awaited(s.flushes), multiset(s.sent), multiset(s.outq));
  }

  lemma SameSingle(a: seq<Item>, b: seq<Item>, x: multiset<Item>, y: multiset<Item>)
    requires |a| <= 1 && |b| <= 1 && x + multiset(a) + y == y + multiset(b) + x
    ensures a == b
  {
    assert multiset(a) == x + multiset(a) + y - x - y;
    assert multiset(b) == y + multiset(b) + x - x - y;
    assert |a| == |multiset(a)| == |multiset(b)| == |b|;
    if |a| == 1 {
      assert a == [a[0]] && b == [b[0]];
      assert a[0] in multiset(b);
    }
  }

  // With two awaited at once the later can go first.
  lemma Overtakes(a: Message, b: Message) returns (ls: seq<Label>)
    ensures ls == [GoOnline, Push(a), Push(b), SendDone(2, true)]
    ensures After(ls).Some? && After(ls).value.peak == 2 && After(ls).value.sent == [Outgoing.Item(1, b)]
  {
    assert After([]) == Some(Init());
    hide After, Step;
    StartsSending(a);
    PushBehind(a, b);
    var w := [] + [GoOnline];
    Extend([], GoOnline);
    var x := w + [Push(a)];
    Extend(w, Push(a));
    var y := x + [Push(b)];
    Extend(x, Push(b));
    ls := y + [SendDone(2, true)];
    Extend(y, SendDone(2, true));
  }

  // The state with both sends awaited.
  function BothAwaited(a: Message, b: Message): State {
    State([], Some(0), [Returned, Sending(0, Outgoing.Item(0, a)), Sending(0, Outgoing.Item(1, b))], [true], 1,
          [a, b], [], 2)
  }

  lemma TwoAwaited(x: Flush, y: Flush)
    requires x.Sending? && y.Sending?
    ensures Awaited([Returned, x, y]) == [x.item, y.item]
  {
    hide Awaited;
    OneAwaited(x);
    AwaitedSnoc([Returned, x], y);
    assert [Returned, x] + [y] == [Returned, x, y];
  }

  lemma PushBehind(a: Message, b: Message)
    ensures Step(SendingOn0(a), Push(b)) == BothAwaited(a, b)
    ensures Enabled(BothAwaited(a, b), SendDone(2, true))
    ensures Step(BothAwaited(a, b), SendDone(2, true)).sent == [Outgoing.Item(1, b)]
    ensures Step(BothAwaited(a, b), SendDone(2, true)).peak == 2
  {
    hide Awaited;
    var first, second := Sending(0, Outgoing.Item(0, a)), Sending(0, Outgoing.Item(1, b));
    TwoAwaited(first, second);
    assert ([Returned, first] + [Returned])[2 := second] == [Returned, first, second];
    assert [] + [Outgoing.Item(1, b)] == [Outgoing.Item(1, b)] && [a] + [b] == [a, b];
  }

  // ----- One flush, undisturbed ---------------------------------------------

  class Output {
    var outq: seq<Message>
    var sink: Option<nat>

    constructor ()
      ensures outq == [] && sink.None?
    {
      outq, sink := [], None;
    }

    // `accepts(i)` says whether the i-th send goes through.
    method FlushOut(accepts: nat -> bool) returns (sent: seq<Message>)
      modifies this
      ensures sent + outq == old(outq)
      ensures old(sink.None?) ==> sent == [] && sink.None?
      ensures forall i :: 0 <= i < |sent| ==> accepts(i)
      ensures old(sink.Some?) ==>
                if outq == [] then sink == old(sink) else sink.None? && !accepts(|sent|)
    {
      sent := [];
      while sink.Some? && outq != []
        invariant sink == old(sink) && sent + outq == old(outq)
        invariant old(sink.None?) ==> sent == []
        invariant forall i :: 0 <= i < |sent| ==> accepts(i)
        decreases |outq|
      {
        var msg := outq[0];
        outq := outq[1..];
        if !accepts(|sent|) {
          outq := [msg] + outq;
          sink := None;
          break;
        }
        sent := sent + [msg];
      }
    }

    method PushOut(msg: Message, accepts: nat -> bool) returns (sent: seq<Message>)
      modifies this
      ensures sent + outq == old(outq) + [msg]
      ensures old(sink.None?) ==> sent == [] && sink.None?
      ensures forall i :: 0 <= i < |sent| ==> accepts(i)
      ensures old(sink.Some?) ==>
                if outq == [] then sink == old(sink) else sink.None? && !accepts(|sent|)
    {
      outq := outq + [msg];
      sent := FlushOut(accepts);
    }
  }
}
