/** The outgoing queue shared by any number of connection writers, as a labelled
    step system: one step per lock-protected section of the queue, and one per
    send outcome. A writer whose send fails puts its message back in front and
    dies. Messages carry the number of their push as a history variable. */
module Outgoing {
  import opened Common
  import opened Wire

  datatype Item = Item(ticket: nat, msg: Message)

  datatype Writer = Idle | Holding(item: Item) | Failing(item: Item) | Dead

  datatype State = State(
    queue: seq<Item>,
    writers: seq<Writer>,
    // History: all pushes, what was ever popped, what was sent and in which
    // order, and the largest number of writers alive at once.
    pushed: seq<Message>,
    popped: set<nat>,
    sent: seq<Item>,
    peak: nat)

  datatype Label =
    | Push(msg: Message)
    | Spawn
    | Pop(w: nat)
    | SendOk(w: nat)
    | SendFail(w: nat)
    | Requeue(w: nat)
    | Exit(w: nat)

  function Init(): State { State([], [], [], {}, [], 0) }

  predicate Enabled(s: State, l: Label) {
    match l
    case Push(_) => true
    case Spawn => true
    case Pop(w) => w < |s.writers| && s.writers[w].Idle? && s.queue != []
    case SendOk(w) => w < |s.writers| && s.writers[w].Holding?
    case SendFail(w) => w < |s.writers| && s.writers[w].Holding?
    case Requeue(w) => w < |s.writers| && s.writers[w].Failing?
    case Exit(w) => w < |s.writers| && s.writers[w].Idle?
  }

  function Step(s: State, l: Label): State
    requires Enabled(s, l)
  {
    match l
    case Push(m) => s.(queue := s.queue + [Item(|s.pushed|, m)], pushed := s.pushed + [m])
    case Spawn =>
      var ws := s.writers + [Idle];
      s.(writers := ws, peak := if Live(ws) > s.peak then Live(ws) else s.peak)
    case Pop(w) =>
      s.(queue := s.queue[1..], writers := s.writers[w := Holding(s.queue[0])],
         popped := s.popped + {s.queue[0].ticket})
    case SendOk(w) => s.(writers := s.writers[w := Idle], sent := s.sent + [s.writers[w].item])
    case SendFail(w) => s.(writers := s.writers[w := Failing(s.writers[w].item)])
    case Requeue(w) => s.(writers := s.writers[w := Dead], queue := [s.writers[w].item] + s.queue)
    case Exit(w) => s.(writers := s.writers[w := Dead])
  }

  // The state after a sequence of steps, if each was enabled.
  function After(ls: seq<Label>): Option<State> {
    if ls == [] then Some(Init())
    else
      var s := After(ls[..|ls| - 1]);
      if s.Some? && Enabled(s.value, ls[|ls| - 1]) then Some(Step(s.value, ls[|ls| - 1])) else None
  }

  // ----- Messages held by writers -------------------------------------------

  function HeldBy(w: Writer): seq<Item> {
    if w.Holding? || w.Failing? then [w.item] else []
  }

  function Held(ws: seq<Writer>): seq<Item> {
    if ws == [] then [] else Held(ws[..|ws| - 1]) + HeldBy(ws[|ws| - 1])
  }

  function Live(ws: seq<Writer>): nat {
    if ws == [] then 0 else Live(ws[..|ws| - 1]) + if ws[|ws| - 1].Dead? then 0 else 1
  }

  lemma {:induction false} HeldSplit(ws: seq<Writer>, i: nat)
    requires i < |ws|
    ensures Held(ws) == Held(ws[..i]) + HeldBy(ws[i]) + Held(ws[i + 1..])
  {
    hide HeldBy;
    var n := |ws| - 1;
    if i < n {
      var front := ws[..n];
      HeldSplit(front, i);
      assert front[..i] == ws[..i] && front[i + 1..] == ws[i + 1..][..n - i - 1];
      assert Held(ws[i + 1..]) == Held(front[i + 1..]) + HeldBy(ws[n]);
    } else {
      assert ws[i + 1..] == [];
    }
  }

  lemma HeldUpdate(ws: seq<Writer>, i: nat, w: Writer)
    requires i < |ws|
    ensures Held(ws[i := w]) == Held(ws[..i]) + HeldBy(w) + Held(ws[i + 1..])
  {
    hide Held, HeldBy;
    HeldSplit(ws[i := w], i);
    assert ws[i := w][..i] == ws[..i] && ws[i := w][i + 1..] == ws[i + 1..];
  }

  lemma {:induction false} LiveUpdate(ws: seq<Writer>, i: nat, w: Writer)
    requires i < |ws|
    ensures Live(ws[i := w]) + (if ws[i].Dead? then 0 else 1) == Live(ws) + (if w.Dead? then 0 else 1)
  {
    var n := |ws| - 1;
    var front, updated := ws[..n], ws[i := w];
    if i < n {
      LiveUpdate(front, i, w);
      assert updated[..n] == front[i := w];
    } else {
      assert updated[..n] == front;
    }
  }

  lemma {:induction false} HeldPush(ws: seq<Writer>, w: Writer)
    ensures Held(ws + [w]) == Held(ws) + HeldBy(w)
    ensures Live(ws + [w]) == Live(ws) + if w.Dead? then 0 else 1
  {
    assert (ws + [w])[..|ws|] == ws;
  }

  // Each live writer holds at most one message, and an idle one holds none.
  lemma {:induction false} HeldAtMostLive(ws: seq<Writer>)
    ensures |Held(ws)| <= Live(ws)
    ensures (exists i :: 0 <= i < |ws| && ws[i].Idle?) ==> |Held(ws)| < Live(ws)
  {
    if ws != [] {
      var front := ws[..|ws| - 1];
      HeldAtMostLive(front);
      if i :| 0 <= i < |ws| && ws[i].Idle? && i < |ws| - 1 {
        assert front[i].Idle?;
      }
    }
  }

  // ----- Invariant ----------------------------------------------------------

  // All pushed messages, in push order.
  function All(pushed: seq<Message>): (items: seq<Item>)
    ensures |items| == |pushed|
  {
    seq(|pushed|, i requires 0 <= i < |pushed| => Item(i, pushed[i]))
  }

  // How many queued messages were put back after a failed send, when the first
  // p pushes have ever been popped.
  function Requeued(s: State, p: nat): int { |s.queue| - (|s.pushed| - p) }

  predicate Below(items: seq<Item>, p: nat) {
    forall i :: 0 <= i < |items| ==> items[i].ticket < p
  }

  // The queue is what was put back, then the pushes never popped, in push order.
  ghost predicate Shape(s: State, p: nat) {
    && p <= |s.pushed| && Requeued(s, p) >= 0
    && (forall t :: t in s.popped <==> 0 <= t < p)
    && s.queue[Requeued(s, p)..] == All(s.pushed)[p..]
    && Below(s.queue[..Requeued(s, p)], p)
  }

  // Every push is in exactly one place: queued, held by a writer, or sent.
  ghost predicate Conserved(s: State) {
    multiset(s.queue) + multiset(Held(s.writers)) + multiset(s.sent) == multiset(All(s.pushed))
  }

  // What was popped and not sent is limited by the writers alive at once, and
  // with it how far ahead of its turn a message can be sent.
  ghost predicate Bounded(s: State, p: nat) {
    && Requeued(s, p) + |Held(s.writers)| <= s.peak
    && Live(s.writers) <= s.peak
    && Below(Held(s.writers), p)
    && forall k :: 0 <= k < |s.sent| ==> s.sent[k].ticket < k + s.peak
  }

  ghost predicate InvAt(s: State, p: nat) { Shape(s, p) && Conserved(s) && Bounded(s, p) }

  // ----- Every step keeps the invariant -------------------------------------

  lemma PushKeepsInv(s: State, m: Message, p: nat)
    requires InvAt(s, p)
    ensures InvAt(Step(s, Push(m)), p)
  {
    hide Held, Live;
    var s' := Step(s, Push(m));
    var item := Item(|s.pushed|, m);
    var r := Requeued(s, p);
    assert All(s'.pushed) == All(s.pushed) + [item];
    assert s'.queue[r..] == s.queue[r..] + [item];
    assert All(s'.pushed)[p..] == All(s.pushed)[p..] + [item];
    assert s'.queue[..r] == s.queue[..r];
  }

  lemma SpawnKeepsInv(s: State, p: nat)
    requires InvAt(s, p)
    ensures InvAt(Step(s, Spawn), p)
  {
    hide Held, Live;
    HeldPush(s.writers, Idle);
    assert Held(s.writers) + HeldBy(Idle) == Held(s.writers);
  }

  lemma ExitKeepsInv(s: State, w: nat, p: nat)
    requires InvAt(s, p) && Enabled(s, Exit(w))
    ensures InvAt(Step(s, Exit(w)), p)
  {
    hide Held, Live;
    HeldSplit(s.writers, w);
    HeldUpdate(s.writers, w, Dead);
    LiveUpdate(s.writers, w, Dead);
  }

  lemma SendFailKeepsInv(s: State, w: nat, p: nat)
    requires InvAt(s, p) && Enabled(s, SendFail(w))
    ensures InvAt(Step(s, SendFail(w)), p)
  {
    hide Held, Live;
    HeldSplit(s.writers, w);
    HeldUpdate(s.writers, w, Failing(s.writers[w].item));
    LiveUpdate(s.writers, w, Failing(s.writers[w].item));
  }

  // Pushes that were popped are either put back, held, or sent.
  lemma Counted(s: State, p: nat)
    requires InvAt(s, p)
    ensures Requeued(s, p) + |Held(s.writers)| + |s.sent| == p
  {
    assert |multiset(s.queue) + multiset(Held(s.writers)) + multiset(s.sent)|
        == |s.queue| + |Held(s.writers)| + |s.sent|;
    assert |multiset(All(s.pushed))| == |s.pushed|;
  }

  lemma SendOkConserves(s: State, w: nat)
    requires Conserved(s) && Enabled(s, SendOk(w))
    ensures Conserved(Step(s, SendOk(w)))
  {
    hide Held;
    var item := s.writers[w].item;
    var a, b := HeldMove(s.writers, w, Idle);
    assert multiset(a + [item] + b) + multiset(s.sent) == multiset(a + b) + multiset(s.sent + [item]);
  }

  lemma SendOkKeepsInv(s: State, w: nat, p: nat)
    requires InvAt(s, p) && Enabled(s, SendOk(w))
    ensures InvAt(Step(s, SendOk(w)), p)
  {
    hide Held, Live;
    SendOkConserves(s, w);
    var item := s.writers[w].item;
    var a, b := HeldMove(s.writers, w, Idle);
    LiveUpdate(s.writers, w, Idle);
    Counted(s, p);
    hide Conserved;
    BelowSplice(a, item, b, p);
  }

  // A writer's message sits in the middle of all that is held.
  lemma HeldMove(ws: seq<Writer>, i: nat, w: Writer) returns (a: seq<Item>, b: seq<Item>)
    requires i < |ws|
    ensures Held(ws) == a + HeldBy(ws[i]) + b && Held(ws[i := w]) == a + HeldBy(w) + b
    ensures HeldBy(w) == [] ==> Held(ws[i := w]) == a + b
    ensures HeldBy(ws[i]) == [] ==> Held(ws) == a + b
  {
    a, b := Held(ws[..i]), Held(ws[i + 1..]);
    HeldSplit(ws, i);
    HeldUpdate(ws, i, w);
  }

  lemma BelowSplice(a: seq<Item>, item: Item, b: seq<Item>, p: nat)
    ensures Below(a + [item] + b, p) <==> Below(a + b, p) && item.ticket < p
  {
    BelowCat(a + [item], b, p);
    BelowCat(a, [item], p);
    BelowCat(a, b, p);
    assert [item][0] == item;
  }

  lemma BelowCat(a: seq<Item>, b: seq<Item>, p: nat)
    ensures Below(a + b, p) <==> Below(a, p) && Below(b, p)
  {
    assert forall i :: 0 <= i < |a| ==> (a + b)[i] == a[i];
    assert forall i :: 0 <= i < |b| ==> (a + b)[|a| + i] == b[i];
  }

  lemma RequeueKeepsInv(s: State, w: nat, p: nat)
    requires InvAt(s, p) && Enabled(s, Requeue(w))
    ensures InvAt(Step(s, Requeue(w)), p)
  {
    hide Held, Live;
    var s' := Step(s, Requeue(w));
    var item, r := s.writers[w].item, Requeued(s, p);
    var a, b := HeldMove(s.writers, w, Dead);
    LiveUpdate(s.writers, w, Dead);
    BelowSplice(a, item, b, p);
    assert Conserved(s') by {
      assert multiset(s.queue) + multiset(a + [item] + b) == multiset([item] + s.queue) + multiset(a + b);
    }
    assert s'.queue[r + 1..] == s.queue[r..];
    assert s'.queue[..r + 1] == [item] + s.queue[..r];
  }

  // Popping a message that was put back keeps p; popping a fresh one, which
  // happens only when none is put back, advances it.
  lemma PopKeepsInv(s: State, w: nat, p: nat)
    requires InvAt(s, p) && Enabled(s, Pop(w))
    ensures InvAt(Step(s, Pop(w)), if Requeued(s, p) > 0 then p else p + 1)
  {
    hide Held, Live;
    var item, s' := s.queue[0], Step(s, Pop(w));
    PopKeepsShape(s, w, p);
    var a, b := HeldMove(s.writers, w, Holding(item));
    LiveUpdate(s.writers, w, Holding(item));
    HeldAtMostLive(s.writers);
    assert s.queue == [item] + s'.queue;
    assert Conserved(s') by {
      assert multiset([item] + s'.queue) + multiset(a + b) == multiset(s'.queue) + multiset(a + [item] + b);
    }
    assert Bounded(s', if Requeued(s, p) > 0 then p else p + 1) by {
      BelowSplice(a, item, b, if Requeued(s, p) > 0 then p else p + 1);
    }
  }

  lemma PopKeepsShape(s: State, w: nat, p: nat)
    requires Shape(s, p) && Enabled(s, Pop(w))
    ensures var p' := if Requeued(s, p) > 0 then p else p + 1;
            Shape(Step(s, Pop(w)), p') && s.queue[0].ticket < p'
  {
    var s', r := Step(s, Pop(w)), Requeued(s, p);
    if r > 0 {
      assert s.queue[0] == s.queue[..r][0];
      assert s'.queue[r - 1..] == s.queue[r..];
      assert s'.queue[..r - 1] == s.queue[..r][1..];
    } else {
      assert s.queue == All(s.pushed)[p..];
      assert s.queue[0] == All(s.pushed)[p];
      assert s'.queue == All(s.pushed)[p + 1..];
    }
  }

  lemma StepKeepsInv(s: State, l: Label, p: nat) returns (p': nat)
    requires InvAt(s, p) && Enabled(s, l)
    ensures InvAt(Step(s, l), p')
  {
    hide InvAt, Step;
    p' := p;
    match l {
      case Push(m) => PushKeepsInv(s, m, p);
      case Spawn => SpawnKeepsInv(s, p);
      case Pop(w) =>
        PopKeepsInv(s, w, p);
        p' := if Requeued(s, p) > 0 then p else p + 1;
      case SendOk(w) => SendOkKeepsInv(s, w, p);
      case SendFail(w) => SendFailKeepsInv(s, w, p);
      case Requeue(w) => RequeueKeepsInv(s, w, p);
      case Exit(w) => ExitKeepsInv(s, w, p);
    }
  }

  // In every interleaving: the messages ever popped are a prefix of the pushes;
  // the queue is what was put back followed by the rest in push order; nothing
  // is lost or duplicated; and what was popped but not sent is bounded by the
  // largest number of writers alive at once.
  lemma {:induction false} Invariant(ls: seq<Label>) returns (p: nat)
    requires After(ls).Some?
    ensures InvAt(After(ls).value, p)
  {
    hide Enabled, Step, InvAt;
    if ls == [] {
      p := 0;
      InitInv();
    } else {
      p := Invariant(ls[..|ls| - 1]);
      p := StepKeepsInv(After(ls[..|ls| - 1]).value, ls[|ls| - 1], p);
    }
  }

  lemma InitInv()
    ensures InvAt(Init(), 0)
  {
  }

  // ----- Order of sending ---------------------------------------------------

  // No message overtakes as many earlier ones as there were writers at once.
  lemma BoundedReordering(ls: seq<Label>)
    requires After(ls).Some?
    ensures var s := After(ls).value;
            && (forall k :: 0 <= k < |s.sent| ==> s.sent[k].ticket < k + s.peak)
            && (forall j, k :: 0 <= j < k < |s.sent| ==> s.sent[j].ticket != s.sent[k].ticket)
  {
    hide Enabled, Step;
    var p := Invariant(ls);
    SentDistinct(After(ls).value, p);
  }

  lemma SentDistinct(s: State, p: nat)
    requires InvAt(s, p)
    ensures forall k :: 0 <= k < |s.sent| ==>
              s.sent[k].ticket < |s.pushed| && s.sent[k] == All(s.pushed)[s.sent[k].ticket]
    ensures forall j, k :: 0 <= j < k < |s.sent| ==> s.sent[j].ticket != s.sent[k].ticket
  {
    forall k | 0 <= k < |s.sent|
      ensures s.sent[k].ticket < |s.pushed| && s.sent[k] == All(s.pushed)[s.sent[k].ticket]
    {
      AllContains(s.pushed, s.sent[k]);
    }
    forall j, k | 0 <= j < k < |s.sent| ensures s.sent[j].ticket != s.sent[k].ticket {
      OccursOnce(s.pushed, s.sent[j]);
      TwiceInMultiset(s.sent, j, k);
    }
  }

  lemma AllContains(pushed: seq<Message>, item: Item)
    requires item in multiset(All(pushed))
    ensures item.ticket < |pushed| && item == All(pushed)[item.ticket]
  {
    var i :| 0 <= i < |pushed| && All(pushed)[i] == item;
  }

  lemma {:induction false} OccursOnce(pushed: seq<Message>, item: Item)
    ensures multiset(All(pushed))[item] <= 1
  {
    if pushed != [] {
      var front := pushed[..|pushed| - 1];
      var last := Item(|front|, pushed[|front|]);
      OccursOnce(front, item);
      assert All(pushed) == All(front) + [last];
      if item == last && item in multiset(All(front)) {
        AllContains(front, item);
      }
    }
  }

  lemma TwiceInMultiset(items: seq<Item>, j: nat, k: nat)
    requires j < k < |items|
    ensures items[j] == items[k] ==> multiset(items)[items[j]] >= 2
  {
    assert items == items[..j] + [items[j]] + items[j + 1..k] + [items[k]] + items[k + 1..];
  }

  // ----- One writer at a time -----------------------------------------------

  lemma {:induction false} SentInOrder(s: State, n: nat)
    requires n <= |s.sent|
    requires forall k :: 0 <= k < |s.sent| ==> s.sent[k].ticket <= k
    requires forall j, k :: 0 <= j < k < |s.sent| ==> s.sent[j].ticket != s.sent[k].ticket
    ensures forall k :: 0 <= k < n ==> s.sent[k].ticket == k
  {
    if n > 0 {
      SentInOrder(s, n - 1);
      // a smaller ticket would already have been sent at its own position
      var other := s.sent[s.sent[n - 1].ticket];
    }
  }

  lemma OnlyItem(x: seq<Item>, front: seq<Item>, item: Item, back: seq<Item>)
    requires |x| == 1
    requires multiset(x) + multiset(back) + multiset(front) == multiset(front + [item] + back)
    ensures x == [item]
  {
    var f, b := multiset(front), multiset(back);
    assert multiset(front + [item] + back) == f + multiset{item} + b;
    assert multiset(x) == multiset(x) + b + f - b - f;
    assert multiset{item} == f + multiset{item} + b - b - f;
    assert x == [x[0]] && multiset(x) == multiset{x[0]};
    assert x[0] in multiset{item};
  }

  // What was popped and not sent: put back or held.
  function Unsent(s: State, p: nat): seq<Item>
    requires 0 <= Requeued(s, p) <= |s.queue|
  {
    s.queue[..Requeued(s, p)] + Held(s.writers)
  }

  lemma QueueSplit(s: State, p: nat)
    requires Shape(s, p)
    ensures p <= |s.pushed| && 0 <= Requeued(s, p) <= |s.queue|
    ensures s.queue == s.queue[..Requeued(s, p)] + All(s.pushed)[p..]
  {
  }

  lemma UnsentIsNext(s: State, p: nat)
    requires InvAt(s, p) && |s.sent| + 1 == p
    requires s.sent == All(s.pushed)[..|s.sent|]
    ensures Unsent(s, p) == [All(s.pushed)[|s.sent|]]
  {
    hide Held, Bounded, Shape, All, Below, Requeued;
    Counted(s, p);
    QueueSplit(s, p);
    var all, n, r := All(s.pushed), |s.sent|, Requeued(s, p);
    assert multiset(s.queue) == multiset(s.queue[..r]) + multiset(all[p..]);
    assert all == all[..n] + [all[n]] + all[p..];
    OnlyItem(Unsent(s, p), all[..n], all[n], all[p..]);
  }

  lemma Reorder(a: seq<Item>, b: seq<Item>, c: seq<Item>)
    requires a == [] || b == []
    ensures b + (a + c) == a + b + c
  {
  }

  lemma RestInOrder(s: State, p: nat)
    requires InvAt(s, p) && s.peak <= 1
    requires |s.sent| <= p && s.sent == All(s.pushed)[..|s.sent|]
    ensures Held(s.writers) + s.queue == All(s.pushed)[|s.sent|..]
  {
    hide Held, Live, Conserved, Shape, All, Below;
    Counted(s, p);
    QueueSplit(s, p);
    var all, n, r := All(s.pushed), |s.sent|, Requeued(s, p);
    Reorder(s.queue[..r], Held(s.writers), all[p..]);
    if n < p {
      UnsentIsNext(s, p);
      assert all[n..] == [all[n]] + all[p..];
    } else {
      assert Unsent(s, p) + all[p..] == all[n..];
    }
  }

  // With at most one writer alive at any time, across any number of failures
  // and reconnections, messages leave in exactly the order they were pushed.
  lemma SingleWriterFifo(ls: seq<Label>)
    requires After(ls).Some? && After(ls).value.peak <= 1
    ensures var s := After(ls).value;
            s.sent + Held(s.writers) + s.queue == All(s.pushed)
  {
    hide Enabled, Step, After, Held, Live;
    var s := After(ls).value;
    var p := Invariant(ls);
    SentDistinct(s, p);
    SentInOrder(s, |s.sent|);
    Counted(s, p);
    assert s.sent == All(s.pushed)[..|s.sent|];
    RestInOrder(s, p);
  }

  // An idle writer can send all that is queued, in order, and is idle again.
  lemma {:induction false} Drains(ls: seq<Label>, w: nat) returns (more: seq<Label>)
    requires After(ls).Some? && w < |After(ls).value.writers| && After(ls).value.writers[w].Idle?
    ensures After(ls + more).Some?
    ensures var s, s' := After(ls).value, After(ls + more).value;
            s'.queue == [] && s'.sent == s.sent + s.queue && s'.writers == s.writers && s'.pushed == s.pushed
    ensures Spawn !in more
    decreases |After(ls).value.queue|
  {
    hide After, Held, Live;
    var s := After(ls).value;
    if s.queue == [] {
      more := [];
      assert ls + [] == ls && s.sent + [] == s.sent;
    } else {
      AfterSnoc(ls, Pop(w));
      AfterSnoc(ls + [Pop(w)], SendOk(w));
      var first := [Pop(w), SendOk(w)];
      assert ls + first == ls + [Pop(w)] + [SendOk(w)];
      assert s.writers[w := Holding(s.queue[0])][w := Idle] == s.writers;
      assert s.queue == [s.queue[0]] + s.queue[1..];
      var others := Drains(ls + first, w);
      more := first + others;
      assert ls + more == ls + first + others;
    }
  }

  // ----- Several writers ----------------------------------------------------

  lemma AfterSnoc(ls: seq<Label>, l: Label)
    requires After(ls).Some? && Enabled(After(ls).value, l)
    ensures After(ls + [l]) == Some(Step(After(ls).value, l))
  {
    hide Step, Enabled;
    assert (ls + [l])[..|ls|] == ls;
  }

  function UpTo(n: nat): set<nat> {
    if n == 0 then {} else UpTo(n - 1) + {n - 1}
  }

  // n writers, each having popped one of n messages.
  function AllHolding(n: nat, m: Message): State {
    State([], seq(n, i requires 0 <= i < n => Holding(Item(i, m))), seq(n, _ => m),
          UpTo(n), [], n)
  }

  function Fill(n: nat, m: Message): seq<Label> {
    if n == 0 then [] else Fill(n - 1, m) + [Push(m)] + [Spawn] + [Pop(n - 1)]
  }

  lemma {:induction false} LiveHolding(n: nat, m: Message)
    ensures Live(AllHolding(n, m).writers) == n
  {
    if n > 0 {
      LiveHolding(n - 1, m);
      assert AllHolding(n, m).writers[..n - 1] == AllHolding(n - 1, m).writers;
    }
  }

  lemma FillStep(n: nat, m: Message)
    ensures var s := AllHolding(n, m);
            var t := Step(Step(s, Push(m)), Spawn);
            Enabled(s, Push(m)) && Enabled(Step(s, Push(m)), Spawn) && Enabled(t, Pop(n))
            && Step(t, Pop(n)) == AllHolding(n + 1, m)
  {
    hide Held, Live;
    var s := AllHolding(n, m);
    LiveHolding(n, m);
    HeldPush(s.writers, Idle);
    var t := Step(Step(s, Push(m)), Spawn);
    var u, end := Step(t, Pop(n)), AllHolding(n + 1, m);
    assert u.writers == end.writers;
    assert u.pushed == end.pushed && u.popped == end.popped && u.queue == [];
  }

  lemma FillNone(m: Message)
    ensures After([]) == Some(AllHolding(0, m))
  {
    assert AllHolding(0, m) == Init();
  }

  lemma {:induction false} FillReaches(n: nat, m: Message)
    ensures After(Fill(n, m)) == Some(AllHolding(n, m))
  {
    hide Step, AllHolding, Enabled, After;
    if n == 0 {
      FillNone(m);
    } else {
      FillReaches(n - 1, m);
      FillStep(n - 1, m);
      var a := Fill(n - 1, m);
      var b := a + [Push(m)];
      var c := b + [Spawn];
      AfterSnoc(a, Push(m));
      AfterSnoc(b, Spawn);
      AfterSnoc(c, Pop(n - 1));
    }
  }

  // The bound on reordering is tight: with n writers, message n - 1 can go first.
  lemma BoundIsTight(n: nat, m: Message) returns (ls: seq<Label>)
    requires n > 0
    ensures After(ls).Some?
    ensures var s := After(ls).value; s.peak == n && s.sent == [Item(n - 1, m)]
  {
    FillReaches(n, m);
    ls := Fill(n, m) + [SendOk(n - 1)];
    AfterSnoc(Fill(n, m), SendOk(n - 1));
  }

  predicate SentInPushOrder(s: State) {
    forall k :: 0 <= k < |s.sent| ==> s.sent[k].ticket == k
  }

  ghost predicate FifoWith(writers: nat) {
    forall ls :: After(ls).Some? && After(ls).value.peak <= writers ==> SentInPushOrder(After(ls).value)
  }

  // Sending in push order is guaranteed exactly when no two writers coexist.
  lemma FifoExactly(writers: nat, m: Message)
    ensures FifoWith(writers) <==> writers <= 1
  {
    hide After, Enabled, Step;
    if writers <= 1 {
      forall ls | After(ls).Some? && After(ls).value.peak <= writers
        ensures SentInPushOrder(After(ls).value)
      {
        BoundedReordering(ls);
        SentInOrder(After(ls).value, |After(ls).value.sent|);
      }
    } else {
      var ls := BoundIsTight(2, m);
      assert After(ls).value.sent[0].ticket == 1;
    }
  }

  // Two failed sends put their messages back in swapped order.
  lemma TwoFailuresSwap(m: Message) returns (ls: seq<Label>)
    ensures After(ls).Some?
    ensures After(ls).value.queue == [Item(1, m), Item(0, m)] && Live(After(ls).value.writers) == 0
  {
    hide After, Fill;
    FillReaches(2, m);
    var ws := AllHolding(2, m).writers;
    assert ws == [Holding(Item(0, m)), Holding(Item(1, m))];
    var a := Fill(2, m);
    var b := a + [SendFail(0)];
    var c := b + [SendFail(1)];
    var d := c + [Requeue(0)];
    ls := d + [Requeue(1)];
    AfterSnoc(a, SendFail(0));
    AfterSnoc(b, SendFail(1));
    AfterSnoc(c, Requeue(0));
    AfterSnoc(d, Requeue(1));
    var end := After(ls).value.writers;
    HeldPush([], Dead);
    HeldPush([Dead], Dead);
    assert end == [Dead] + [Dead] && [Dead] == [] + [Dead];
  }

  // ----- The queue object and one writer's loop -----------------------------

  // The queue of a state, as the object holds it.
  function Msgs(items: seq<Item>): (msgs: seq<Message>)
    ensures |msgs| == |items| && forall i :: 0 <= i < |items| ==> msgs[i] == items[i].msg
  {
    seq(|items|, i requires 0 <= i < |items| => items[i].msg)
  }

  // Each operation takes the queue of any state to the queue after its step.
  class WriteQueue {
    var q: seq<Message>

    constructor ()
      ensures q == [] == Msgs(Init().queue)
    {
      q := [];
    }

    method Push(msg: Message)
      modifies this
      ensures q == old(q) + [msg]
      ensures forall s: State :: Msgs(s.queue) == old(q) ==> Msgs(Step(s, Label.Push(msg)).queue) == q
    {
      q := q + [msg];
    }

    method PushFront(msg: Message)
      modifies this
      ensures q == [msg] + old(q)
      ensures forall s: State, w: nat ::
                Msgs(s.queue) == old(q) && Enabled(s, Requeue(w)) && s.writers[w].item.msg == msg ==>
                  Msgs(Step(s, Requeue(w)).queue) == q
    {
      q := [msg] + q;
    }

    // One pass of the waiting loop under the lock.
    method TryPop() returns (r: Option<Message>)
      modifies this
      ensures if old(q) == [] then r.None? && q == [] else r == Some(old(q)[0]) && q == old(q)[1..]
      ensures forall s: State, w: nat ::
                Msgs(s.queue) == old(q) && w < |s.writers| && s.writers[w].Idle? ==>
                  && (r.Some? <==> Enabled(s, Pop(w)))
                  && (r.Some? ==>
                        Msgs(Step(s, Pop(w)).queue) == q && Step(s, Pop(w)).writers[w].item.msg == r.value)
    {
      hide Held, Live, Msgs;
      if q == [] {
        return None;
      }
      r := Some(q[0]);
      q := q[1..];
    }
  }

  // The writer thread over a run of send outcomes, with nobody else at the
  // queue: what it sent followed by what is queued is what was queued, and it
  // stops at the first send that fails.
  method WriterLoop(wrq: WriteQueue, outcomes: seq<bool>) returns (sent: seq<Message>, failed: bool)
    modifies wrq
    ensures sent + wrq.q == old(wrq.q)
    ensures forall i :: 0 <= i < |sent| ==> i < |outcomes| && outcomes[i]
    ensures failed ==> |sent| < |outcomes| && !outcomes[|sent|] && wrq.q != []
    ensures !failed ==> |sent| == if |old(wrq.q)| < |outcomes| then |old(wrq.q)| else |outcomes|
  {
    sent := [];
    for i := 0 to |outcomes|
      invariant sent + wrq.q == old(wrq.q)
      invariant |sent| == if |old(wrq.q)| < i then |old(wrq.q)| else i
      invariant forall j :: 0 <= j < |sent| ==> j < |outcomes| && outcomes[j]
    {
      var msg := wrq.TryPop();
      if msg.Some? {
        if !outcomes[i] {
          wrq.PushFront(msg.value);
          return sent, true;
        }
        sent := sent + [msg.value];
      }
    }
    failed := false;
  }
}
