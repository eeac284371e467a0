/** Connection threads and their writers together: each online session starts one
    writer on the shared outgoing queue and joins it before it ends. The steps are
    those of `Supervision` and of `Outgoing`, with writers starting and sessions
    ending only as that allows. */
module Sessions {
  import opened Common
  import S = Supervision
  import Q = Outgoing

  // `owner[w]` is the thread whose session started writer w.
  datatype State = State(sup: S.State, out: Q.State, owner: seq<nat>)

  datatype Label =
    | Supervise(s: S.Label)
    | Queue(q: Q.Label)
    | StartWriter(t: nat)

  function Init(): State { State(S.Init(), Q.Init(), []) }

  // No writer of this thread is alive.
  predicate Joined(s: State, t: nat) {
    forall w :: 0 <= w < |s.owner| && w < |s.out.writers| && s.owner[w] == t ==> s.out.writers[w].Dead?
  }

  predicate Enabled(s: State, l: Label) {
    match l
    case Supervise(l) => S.Enabled(s.sup, l) && (l.SessionEnd? ==> Joined(s, l.t))
    case Queue(l) => !l.Spawn? && Q.Enabled(s.out, l)
    case StartWriter(t) => S.At(s.sup, t, S.Online) && Joined(s, t)
  }

  function Step(s: State, l: Label): State
    requires Enabled(s, l)
  {
    match l
    case Supervise(l) => s.(sup := S.Step(s.sup, l))
    case Queue(l) => s.(out := Q.Step(s.out, l))
    case StartWriter(t) => s.(out := Q.Step(s.out, Q.Spawn), owner := s.owner + [t])
  }

  function After(ls: seq<Label>): Option<State> {
    if ls == [] then Some(Init())
    else
      var s := After(ls[..|ls| - 1]);
      if s.Some? && Enabled(s.value, ls[|ls| - 1]) then Some(Step(s.value, ls[|ls| - 1])) else None
  }

  // ----- Each half is a run of its own system -------------------------------

  function SupPart(ls: seq<Label>): seq<S.Label> {
    if ls == [] then []
    else
      var last := ls[|ls| - 1];
      SupPart(ls[..|ls| - 1]) + if last.Supervise? then [last.s] else []
  }

  function OutPart(ls: seq<Label>): seq<Q.Label> {
    if ls == [] then []
    else
      OutPart(ls[..|ls| - 1]) +
      match ls[|ls| - 1]
      case Supervise(_) => []
      case Queue(l) => [l]
      case StartWriter(_) => [Q.Spawn]
  }

  lemma {:induction false} Projects(ls: seq<Label>)
    requires After(ls).Some?
    ensures S.After(SupPart(ls)) == Some(After(ls).value.sup)
    ensures Q.After(OutPart(ls)) == Some(After(ls).value.out)
  {
    hide S.Step, S.Enabled, Q.Step, Joined;
    if ls != [] {
      hide S.After, Q.After;
      var front := ls[..|ls| - 1];
      Projects(front);
      match ls[|ls| - 1] {
        case Supervise(l) =>
          S.Extend(SupPart(front), l);
          assert OutPart(front) + [] == OutPart(front);
        case Queue(l) =>
          Q.AfterSnoc(OutPart(front), l);
          assert SupPart(front) + [] == SupPart(front);
        case StartWriter(_) =>
          Q.AfterSnoc(OutPart(front), Q.Spawn);
          assert SupPart(front) + [] == SupPart(front);
      }
    }
  }

  // ----- A live writer has an online session of its own ----------------------

  predicate Alive(s: State, w: nat) { w < |s.out.writers| && !s.out.writers[w].Dead? }

  ghost predicate OwnersInv(s: State) {
    && |s.owner| == |s.out.writers|
    && (forall w :: 0 <= w < |s.owner| && Alive(s, w) ==> S.At(s.sup, s.owner[w], S.Online))
    && (forall v, w :: 0 <= v < w < |s.owner| && Alive(s, v) && Alive(s, w) ==> s.owner[v] != s.owner[w])
  }

  // Only the end of its session takes a thread out of it.
  lemma OnlineStays(sup: S.State, l: S.Label, t: nat)
    requires S.Enabled(sup, l) && S.At(sup, t, S.Online) && !(l.SessionEnd? && l.t == t)
    ensures S.At(S.Step(sup, l), t, S.Online)
  {
    hide S.Tally, S.Elements;
  }

  lemma LagGrows(sup: S.State, l: S.Label)
    requires S.Enabled(sup, l)
    ensures S.Step(sup, l).lag >= sup.lag
  {
    hide S.Tally, S.Elements;
  }

  // Dead writers stay dead, and no step but starting one adds to the peak.
  lemma QueueKeeps(out: Q.State, l: Q.Label)
    requires Q.Enabled(out, l) && !l.Spawn?
    ensures var out' := Q.Step(out, l);
            && |out'.writers| == |out.writers| && out'.peak == out.peak
            && forall w :: 0 <= w < |out.writers| && out.writers[w].Dead? ==> out'.writers[w].Dead?
  {
    hide Q.Live;
  }

  lemma OwnersStep(s: State, l: Label)
    requires OwnersInv(s) && Enabled(s, l)
    ensures OwnersInv(Step(s, l))
  {
    hide S.Step, Q.Live;
    match l {
      case Supervise(l) =>
        forall w | 0 <= w < |s.owner| && Alive(s, w) ensures S.At(S.Step(s.sup, l), s.owner[w], S.Online) {
          OnlineStays(s.sup, l, s.owner[w]);
        }
      case Queue(l) =>
        hide Q.Step;
        QueueKeeps(s.out, l);
        var s' := Step(s, Queue(l));
        assert forall w :: 0 <= w < |s.owner| && Alive(s', w) ==> Alive(s, w);
      case StartWriter(t) =>
        assert forall w :: 0 <= w < |s.owner| && Alive(s, w) ==> s.owner[w] != t;
    }
  }

  function OwnersOf(ws: seq<Q.Writer>, owner: seq<nat>, n: nat): set<nat>
    requires n <= |ws| == |owner|
  {
    if n == 0 then {}
    else OwnersOf(ws, owner, n - 1) + if ws[n - 1].Dead? then {} else {owner[n - 1]}
  }

  lemma {:induction false} OwnersCount(ws: seq<Q.Writer>, owner: seq<nat>, n: nat)
    requires n <= |ws| == |owner|
    requires forall v, w :: 0 <= v < w < |owner| && !ws[v].Dead? && !ws[w].Dead? ==> owner[v] != owner[w]
    ensures |OwnersOf(ws, owner, n)| == Q.Live(ws[..n])
    ensures forall t :: t in OwnersOf(ws, owner, n) ==> exists w :: 0 <= w < n && !ws[w].Dead? && owner[w] == t
  {
    if n > 0 {
      OwnersCount(ws, owner, n - 1);
      assert ws[..n] == ws[..n - 1] + [ws[n - 1]];
      Q.HeldPush(ws[..n - 1], ws[n - 1]);
      hide Q.Live, Q.Held;
      if !ws[n - 1].Dead? {
        assert owner[n - 1] !in OwnersOf(ws, owner, n - 1);
      }
    }
  }

  function OnlineThreads(threads: seq<S.Thread>, n: nat): set<nat>
    requires n <= |threads|
  {
    if n == 0 then {}
    else OnlineThreads(threads, n - 1) + if threads[n - 1].phase.Online? then {n - 1} else {}
  }

  lemma {:induction false} OnlineMember(threads: seq<S.Thread>, n: nat, t: nat)
    requires n <= |threads|
    ensures t in OnlineThreads(threads, n) <==> t < n && threads[t].phase.Online?
  {
    if n > 0 {
      OnlineMember(threads, n - 1, t);
    }
  }

  lemma {:induction false} OnlineCount(threads: seq<S.Thread>, n: nat)
    requires n <= |threads|
    ensures |OnlineThreads(threads, n)| == S.Tally(threads[..n], S.ByOnline)
  {
    if n > 0 {
      OnlineCount(threads, n - 1);
      OnlineMember(threads, n - 1, n - 1);
      assert threads[..n][..n - 1] == threads[..n - 1];
    }
  }

  // So writers alive at once never outnumber online sessions.
  lemma WritersWithinSessions(s: State)
    requires OwnersInv(s)
    ensures Q.Live(s.out.writers) <= S.Tally(s.sup.threads, S.ByOnline)
  {
    hide Q.Live, S.Tally, OwnersOf, OnlineThreads;
    var ws, threads := s.out.writers, s.sup.threads;
    assert forall w :: 0 <= w < |ws| && !ws[w].Dead? ==> Alive(s, w);
    OwnersCount(ws, s.owner, |ws|);
    OnlineCount(threads, |threads|);
    assert ws[..|ws|] == ws && threads[..|threads|] == threads;
    forall t | t in OwnersOf(ws, s.owner, |ws|) ensures t in OnlineThreads(threads, |threads|) {
      OnlineMember(threads, |threads|, t);
    }
    S.SubsetSize(OwnersOf(ws, s.owner, |ws|), OnlineThreads(threads, |threads|));
  }

  // ----- How far a message can be sent out of turn ----------------------------

  lemma {:induction false} Invariant(ls: seq<Label>)
    requires After(ls).Some?
    ensures OwnersInv(After(ls).value)
    ensures After(ls).value.out.peak <= 19 + After(ls).value.sup.lag
  {
    hide Step, Enabled, OwnersInv;
    if ls == [] {
      Nothing();
    } else {
      var s, l := After(ls[..|ls| - 1]).value, ls[|ls| - 1];
      Invariant(ls[..|ls| - 1]);
      OwnersStep(s, l);
      WritersWithinSessions(Step(s, l));
      Projects(ls);
      S.Supervised(SupPart(ls));
      S.ConnectionCap(SupPart(ls));
      PeakStep(s, l);
    }
  }

  lemma Nothing()
    ensures OwnersInv(Init())
  {
  }

  lemma PeakStep(s: State, l: Label)
    requires Enabled(s, l)
    ensures var s' := Step(s, l);
            && s'.sup.lag >= s.sup.lag
            && (s'.out.peak == s.out.peak || s'.out.peak == Q.Live(s'.out.writers))
  {
    hide S.Step, Joined, Q.Live;
    match l {
      case Supervise(l) => LagGrows(s.sup, l);
      case Queue(l) =>
        hide Q.Step;
        QueueKeeps(s.out, l);
      case StartWriter(_) =>
    }
  }

  // In every interleaving of connection threads, sessions, writers and pushes:
  // the k-th message sent was among the first k + 19 pushes, plus one for each
  // thread spawned but uncounted when the main thread compared counts.
  lemma ReorderingCap(ls: seq<Label>)
    requires After(ls).Some?
    ensures var s := After(ls).value;
            forall k :: 0 <= k < |s.out.sent| ==> s.out.sent[k].ticket < k + 19 + s.sup.lag
  {
    hide After, S.After, Q.After, OwnersInv;
    Invariant(ls);
    Projects(ls);
    Q.BoundedReordering(OutPart(ls));
  }

  // ----- What can happen ----------------------------------------------------

  function Supervises(ls: seq<S.Label>): seq<Label> {
    if ls == [] then [] else Supervises(ls[..|ls| - 1]) + [Supervise(ls[|ls| - 1])]
  }

  function Queues(ls: seq<Q.Label>): seq<Label> {
    if ls == [] then [] else Queues(ls[..|ls| - 1]) + [Queue(ls[|ls| - 1])]
  }

  lemma Extend(ls: seq<Label>, l: Label)
    requires After(ls).Some? && Enabled(After(ls).value, l)
    ensures After(ls + [l]) == Some(Step(After(ls).value, l))
  {
    hide Step, Enabled;
    assert (ls + [l])[..|ls|] == ls;
  }

  // As long as nothing is pushed and no writer started, every run of the
  // connection threads is possible.
  lemma {:induction false} AnySupervision(ls: seq<S.Label>)
    requires S.After(ls).Some?
    ensures After(Supervises(ls)) == Some(State(S.After(ls).value, Q.Init(), []))
  {
    hide S.Step, S.Enabled;
    if ls != [] {
      var front, l := ls[..|ls| - 1], ls[|ls| - 1];
      AnySupervision(front);
      hide After, S.After;
      Extend(Supervises(front), Supervise(l));
    }
  }

  // Queue steps go on beside the sessions as they do alone.
  lemma {:induction false} QueuesGoOn(ls: seq<Label>, qs: seq<Q.Label>)
    requires After(ls).Some? && Q.After(OutPart(ls) + qs).Some? && Q.Spawn !in qs
    ensures var s := After(ls).value;
            After(ls + Queues(qs)) == Some(s.(out := Q.After(OutPart(ls) + qs).value))
  {
    hide After, OutPart, Q.Step, Q.Enabled;
    if qs == [] {
      assert ls + [] == ls && OutPart(ls) + [] == OutPart(ls);
      Projects(ls);
    } else {
      var front, l := qs[..|qs| - 1], qs[|qs| - 1];
      assert (OutPart(ls) + qs)[..|OutPart(ls) + qs| - 1] == OutPart(ls) + front;
      QueuesGoOn(ls, front);
      hide Q.After;
      Extend(ls + Queues(front), Queue(l));
      assert ls + Queues(front) + [Queue(l)] == ls + Queues(qs);
    }
  }

  // From every reachable state, an online session without a live writer can
  // start one and send all that is queued, in order; no other thread moves.
  lemma SessionSends(ls: seq<Label>, t: nat) returns (more: seq<Label>)
    requires After(ls).Some? && S.At(After(ls).value.sup, t, S.Online) && Joined(After(ls).value, t)
    ensures After(ls + more).Some?
    ensures var s, s' := After(ls).value, After(ls + more).value;
            && s'.sup == s.sup && s'.owner == s.owner + [t]
            && s'.out.queue == [] && s'.out.sent == s.out.sent + s.out.queue
  {
    hide After, Joined, Q.After;
    var s, started := After(ls).value, ls + [StartWriter(t)];
    Extend(ls, StartWriter(t));
    Projects(started);
    var w := |s.out.writers|;
    var qs := Q.Drains(OutPart(started), w);
    QueuesGoOn(started, qs);
    more := [StartWriter(t)] + Queues(qs);
    assert ls + more == started + Queues(qs);
  }
}
