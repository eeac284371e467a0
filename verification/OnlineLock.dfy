/** Everything that happens under the online-count lock, as a labelled step
    system with any number of threads: sessions going online and offline, callers
    of `wait_online`, the main thread moving the threshold, `close`, and event
    subscribers. Each step is one atomic action of one thread. */
module OnlineLock {
  import opened Common
  import opened Events

  datatype Outcome = Enough | Closed | TimedOut

  // Where a thread stands.
  datatype Pc =
    // online_incr, then online_decr
    | SessionOff
    | IncrLocked
    | IncrStatus
    | IncrOnline
    | IncrNotify
    | IncrUnlock
    | SessionOn
    | DecrLocked
    | DecrStatus
    | DecrOffline
    | DecrUnlock
    // wait_online
    | WaitStart
    | WaitLocked
    | WaitLoaded(want: nat)
    | WaitUnclosed(want: nat)
    | Parked(signalled: bool)
    | WaitDone(outcome: Outcome)
    // run_connect
    | MainIdle
    | MainLocked(min: nat)
    | MainStored
    | MainUnlocked
    // close
    | CloseStart
    | CloseStored
    | CloseDone

  predicate Entry(pc: Pc) { pc.SessionOff? || pc.WaitStart? || pc.MainIdle? || pc.CloseStart? }

  predicate Holds(pc: Pc) {
    || pc.IncrLocked? || pc.IncrStatus? || pc.IncrOnline? || pc.IncrNotify? || pc.IncrUnlock?
    || pc.DecrLocked? || pc.DecrStatus? || pc.DecrOffline? || pc.DecrUnlock?
    || pc.WaitLocked? || pc.WaitLoaded? || pc.WaitUnclosed?
    || pc.MainLocked? || pc.MainStored?
  }

  // Steps that begin by taking the lock.
  predicate Locks(pc: Pc) { pc.SessionOff? || pc.SessionOn? || pc.WaitStart? || pc.MainIdle? }

  datatype Sub = Sub(start: nat, stream: seq<ClientEvent>, live: bool)

  datatype State = State(
    threads: seq<Pc>,
    lock: Option<nat>,
    online: int,
    min: nat,
    closed: bool,
    // History: all events, and what each subscriber received since it subscribed.
    log: seq<ClientEvent>,
    subs: seq<Sub>)

  // `n` is the value a step reads from outside (a host count or a fetched
  // threshold); `giveUp` is a waiter's deadline having passed.
  datatype Label =
    | Spawn(pc: Pc)
    | Go(t: nat, n: nat, giveUp: bool)
    | Subscribe
    | Unsubscribe(i: nat)

  function Init(): State { State([], None, 0, 1, false, [], []) }

  predicate Enabled(s: State, l: Label) {
    match l
    case Spawn(pc) => Entry(pc)
    case Go(t, _, _) =>
      && t < |s.threads|
      && !s.threads[t].WaitDone? && !s.threads[t].CloseDone?
      && (Locks(s.threads[t]) ==> s.lock.None?)
    case Subscribe => true
    case Unsubscribe(i) => i < |s.subs|
  }

  function Want(min: nat): nat { if min == 0 then 1 else min }

  // What `wait_online` asks for: the threshold, and never less than one.
  predicate EnoughOnline(s: State) { s.online >= s.min && s.online >= 1 }

  lemma WantMeansEnough(s: State)
    ensures s.online >= Want(s.min) <==> EnoughOnline(s)
  {
  }

  function Signal(threads: seq<Pc>): (r: seq<Pc>)
    ensures |r| == |threads|
    ensures forall i :: 0 <= i < |r| ==>
              r[i] == if threads[i].Parked? then Parked(true) else threads[i]
  {
    seq(|threads|, i requires 0 <= i < |threads| =>
      if threads[i].Parked? then Parked(true) else threads[i])
  }

  function Delivered(subs: seq<Sub>, ev: ClientEvent): (r: seq<Sub>)
    ensures |r| == |subs|
    ensures forall i :: 0 <= i < |r| ==>
              r[i] == if subs[i].live then subs[i].(stream := subs[i].stream + [ev]) else subs[i]
  {
    seq(|subs|, i requires 0 <= i < |subs| =>
      if subs[i].live then subs[i].(stream := subs[i].stream + [ev]) else subs[i])
  }

  function Emit(s: State, ev: ClientEvent): (r: State)
    ensures r == s.(log := s.log + [ev], subs := Delivered(s.subs, ev))
  {
    s.(log := s.log + [ev], subs := Delivered(s.subs, ev))
  }

  function Move(s: State, t: nat, pc: Pc): State
    requires t < |s.threads|
  {
    s.(threads := s.threads[t := pc])
  }

  // online_incr
  function RunIncr(s: State, t: nat, n: nat): State
    requires t < |s.threads|
  {
    match s.threads[t]
    case SessionOff => Move(s, t, IncrLocked).(lock := Some(t))
    case IncrLocked => Move(s, t, if s.online + 1 == 1 then IncrStatus else IncrNotify).(online := s.online + 1)
    case IncrStatus => Emit(Move(s, t, IncrOnline), Status(1, n))
    case IncrOnline => Emit(Move(s, t, IncrNotify), Online)
    case IncrNotify => Move(s, t, IncrUnlock).(threads := Signal(s.threads[t := IncrUnlock]))
    case IncrUnlock => Move(s, t, SessionOn).(lock := None)
    case _ => s
  }

  // online_decr
  function RunDecr(s: State, t: nat, n: nat): State
    requires t < |s.threads|
  {
    match s.threads[t]
    case SessionOn => Move(s, t, DecrLocked).(lock := Some(t))
    case DecrLocked => Move(s, t, if s.online - 1 == 0 then DecrStatus else DecrUnlock).(online := s.online - 1)
    case DecrStatus => Emit(Move(s, t, DecrOffline), Status(0, n))
    case DecrOffline => Emit(Move(s, t, DecrUnlock), Offline)
    case DecrUnlock => Move(s, t, SessionOff).(lock := None)
    case _ => s
  }

  // wait_online
  function RunWait(s: State, t: nat, giveUp: bool): State
    requires t < |s.threads|
  {
    match s.threads[t]
    case WaitStart => Move(s, t, WaitLocked).(lock := Some(t))
    case WaitLocked => Move(s, t, WaitLoaded(Want(s.min)))
    case WaitLoaded(want) =>
      if s.online >= want then Move(s, t, WaitDone(Enough)).(lock := None)
      else if s.closed then Move(s, t, WaitDone(Closed)).(lock := None)
      else Move(s, t, WaitUnclosed(want))
    case WaitUnclosed(want) =>
      if giveUp then Move(s, t, WaitDone(TimedOut)).(lock := None)
      else Move(s, t, Parked(false)).(lock := None)
    case Parked(_) => Move(s, t, WaitStart)
    case _ => s
  }

  // The threshold update of run_connect.
  function RunMain(s: State, t: nat, n: nat): State
    requires t < |s.threads|
  {
    match s.threads[t]
    case MainIdle => Move(s, t, MainLocked(n)).(lock := Some(t))
    case MainLocked(min) => Move(s, t, MainStored).(min := min)
    case MainStored => Move(s, t, MainUnlocked).(lock := None)
    case MainUnlocked => Move(s, t, MainIdle).(threads := Signal(s.threads[t := MainIdle]))
    case _ => s
  }

  // close, which takes no lock
  function RunClose(s: State, t: nat): State
    requires t < |s.threads|
  {
    match s.threads[t]
    case CloseStart => Move(s, t, CloseStored).(closed := true)
    case CloseStored =>
      Move(s, t, CloseDone).(threads := Signal(s.threads[t := CloseDone]))
    case _ => s
  }

  datatype Part = Incr | Decr | Wait | Main | Close

  function PartOf(pc: Pc): Part {
    match pc
    case SessionOff => Incr case IncrLocked => Incr case IncrStatus => Incr case IncrOnline => Incr
    case IncrNotify => Incr case IncrUnlock => Incr
    case SessionOn => Decr case DecrLocked => Decr case DecrStatus => Decr case DecrOffline => Decr
    case DecrUnlock => Decr
    case WaitStart => Wait case WaitLocked => Wait case WaitLoaded(_) => Wait case WaitUnclosed(_) => Wait
    case Parked(_) => Wait case WaitDone(_) => Wait
    case MainIdle => Main case MainLocked(_) => Main case MainStored => Main case MainUnlocked => Main
    case CloseStart => Close case CloseStored => Close case CloseDone => Close
  }

  function Run(s: State, t: nat, n: nat, giveUp: bool): State
    requires t < |s.threads|
  {
    match PartOf(s.threads[t])
    case Incr => RunIncr(s, t, n)
    case Decr => RunDecr(s, t, n)
    case Wait => RunWait(s, t, giveUp)
    case Main => RunMain(s, t, n)
    case Close => RunClose(s, t)
  }

  function Step(s: State, l: Label): State
    requires Enabled(s, l)
  {
    match l
    case Spawn(pc) => s.(threads := s.threads + [pc])
    case Go(t, n, giveUp) => Run(s, t, n, giveUp)
    case Subscribe => s.(subs := s.subs + [Sub(|s.log|, [], true)])
    case Unsubscribe(i) => s.(subs := s.subs[i := s.subs[i].(live := false)])
  }

  function After(ls: seq<Label>): Option<State> {
    if ls == [] then Some(Init())
    else
      var s := After(ls[..|ls| - 1]);
      if s.Some? && Enabled(s.value, ls[|ls| - 1]) then Some(Step(s.value, ls[|ls| - 1])) else None
  }

  // ----- Mutual exclusion and what a lock holder knows ----------------------

  ghost predicate LockInv(s: State) {
    && (s.lock.Some? ==> s.lock.value < |s.threads|)
    && forall i :: 0 <= i < |s.threads| ==> (Holds(s.threads[i]) <==> s.lock == Some(i))
  }

  // The threshold cannot move while a waiter decides, nor can the count.
  ghost predicate WantInv(s: State) {
    forall i :: 0 <= i < |s.threads| ==>
      match s.threads[i]
      case WaitLoaded(want) => want == Want(s.min)
      case WaitUnclosed(want) => want == Want(s.min) && s.online < want
      case _ => true
  }

  predicate SameButSignal(before: Pc, after: Pc) {
    before == after || (before.Parked? && after == Parked(true))
  }

  // A thread that is about to wake every waiter.
  predicate Notifying(pc: Pc) {
    pc.IncrStatus? || pc.IncrOnline? || pc.IncrNotify? || pc.MainStored? || pc.MainUnlocked?
  }

  predicate AllSignalled(s: State) {
    forall i :: 0 <= i < |s.threads| && s.threads[i].Parked? ==> s.threads[i].signalled
  }

  // Sessions between the increment and the decrement of the count.
  function Counted(pc: Pc): nat {
    if pc.IncrStatus? || pc.IncrOnline? || pc.IncrNotify? || pc.IncrUnlock? || pc.SessionOn? || pc.DecrLocked?
    then 1 else 0
  }

  // What one step of thread t does: it changes its own position, may signal
  // parked waiters, and touches the count and threshold only under the lock.
  ghost predicate Transition(s: State, s': State, t: nat)
    requires t < |s.threads|
  {
    var pc := s.threads[t];
    && |s'.threads| == |s.threads|
    && (forall i :: 0 <= i < |s.threads| && i != t ==> SameButSignal(s.threads[i], s'.threads[i]))
    && (Holds(s'.threads[t]) ==> s'.lock == Some(t) && (Holds(pc) || s.lock.None?))
    && (!Holds(s'.threads[t]) ==> s'.lock == if Holds(pc) then None else s.lock)
    && (!Holds(pc) ==> s'.online == s.online && s'.min == s.min)
    && (s'.threads[t].WaitLoaded? ==> s'.threads[t].want == Want(s'.min))
    && (s'.threads[t].WaitUnclosed? ==>
          pc == WaitLoaded(s'.threads[t].want) && s.online < pc.want && s'.online == s.online && s'.min == s.min)
    && s'.online - s.online == Counted(s'.threads[t]) - Counted(pc)
    // a step leaves a notification pending, or every waiter signalled, or the
    // condition false; or it makes the condition no truer and parks nobody
    && (|| Notifying(s'.threads[t]) || AllSignalled(s') || s'.online < Want(s'.min)
        || (s'.online <= s.online && s'.min == s.min && !Notifying(pc) && !s'.threads[t].Parked?))
  }

  lemma IncrTransition(s: State, t: nat, n: nat)
    requires LockInv(s) && Enabled(s, Go(t, n, false)) && PartOf(s.threads[t]).Incr?
    ensures Transition(s, RunIncr(s, t, n), t)
  {
    hide Want, WantInv, Signal, Emit;
  }

  lemma DecrTransition(s: State, t: nat, n: nat)
    requires LockInv(s) && Enabled(s, Go(t, n, false)) && PartOf(s.threads[t]).Decr?
    ensures Transition(s, RunDecr(s, t, n), t)
  {
    assert Holds(s.threads[t]) <==> s.lock == Some(t);
    hide AllSignalled, LockInv, Want, WantInv, Signal, Emit, Delivered;
  }

  lemma WaitTransition(s: State, t: nat, giveUp: bool)
    requires LockInv(s) && WantInv(s) && Enabled(s, Go(t, 0, giveUp)) && PartOf(s.threads[t]).Wait?
    ensures Transition(s, RunWait(s, t, giveUp), t)
  {
    assert Holds(s.threads[t]) <==> s.lock == Some(t);
    hide AllSignalled, LockInv, Want, Signal, Emit;
  }

  lemma MainTransition(s: State, t: nat, n: nat)
    requires LockInv(s) && Enabled(s, Go(t, n, false)) && PartOf(s.threads[t]).Main?
    ensures Transition(s, RunMain(s, t, n), t)
  {
    hide Want, WantInv, Emit, Signal;
  }

  lemma CloseTransition(s: State, t: nat)
    requires LockInv(s) && Enabled(s, Go(t, 0, false)) && PartOf(s.threads[t]).Close?
    ensures Transition(s, RunClose(s, t), t)
  {
    hide Want, WantInv, Emit, Signal;
  }

  lemma RunTransition(s: State, t: nat, n: nat, giveUp: bool)
    requires LockInv(s) && WantInv(s) && Enabled(s, Go(t, n, giveUp))
    ensures Transition(s, Run(s, t, n, giveUp), t)
  {
    hide LockInv, WantInv, Transition, RunIncr, RunDecr, RunWait, RunMain, RunClose;
    match PartOf(s.threads[t]) {
      case Incr => IncrTransition(s, t, n);
      case Decr => DecrTransition(s, t, n);
      case Wait => WaitTransition(s, t, giveUp);
      case Main => MainTransition(s, t, n);
      case Close => CloseTransition(s, t);
    }
  }

  lemma LockStep(s: State, l: Label)
    requires LockInv(s) && WantInv(s) && Enabled(s, l)
    ensures LockInv(Step(s, l)) && WantInv(Step(s, l))
  {
    hide Run, Want;
    if l.Go? {
      var s' := Run(s, l.t, l.n, l.giveUp);
      RunTransition(s, l.t, l.n, l.giveUp);
      forall i | 0 <= i < |s.threads|
        ensures Holds(s'.threads[i]) <==> s'.lock == Some(i)
      {
        assert i == l.t || SameButSignal(s.threads[i], s'.threads[i]);
      }
    }
  }

  // ----- The count ----------------------------------------------------------

  function CountedIn(threads: seq<Pc>): nat {
    if threads == [] then 0 else CountedIn(threads[..|threads| - 1]) + Counted(threads[|threads| - 1])
  }

  ghost predicate CountInv(s: State) { s.online == CountedIn(s.threads) }

  lemma {:induction false} CountedUpdate(a: seq<Pc>, b: seq<Pc>, t: nat)
    requires t < |a| == |b|
    requires forall i :: 0 <= i < |a| && i != t ==> SameButSignal(a[i], b[i])
    ensures CountedIn(b) - CountedIn(a) == Counted(b[t]) - Counted(a[t])
  {
    hide Counted;
    var n := |a| - 1;
    if t < n {
      assert SameButSignal(a[n], b[n]);
      assert Counted(a[n]) == Counted(b[n]) by { SignalKeepsCounted(a[n], b[n]); }
      CountedUpdate(a[..n], b[..n], t);
    } else {
      CountedSame(a[..n], b[..n]);
    }
  }

  lemma SignalKeepsCounted(a: Pc, b: Pc)
    requires SameButSignal(a, b)
    ensures Counted(a) == Counted(b)
  {
  }

  lemma {:induction false} CountedSame(a: seq<Pc>, b: seq<Pc>)
    requires |a| == |b| && forall i :: 0 <= i < |a| ==> SameButSignal(a[i], b[i])
    ensures CountedIn(a) == CountedIn(b)
  {
    if a != [] {
      CountedSame(a[..|a| - 1], b[..|a| - 1]);
      SignalKeepsCounted(a[|a| - 1], b[|a| - 1]);
    }
  }

  lemma {:induction false} CountedMember(threads: seq<Pc>, t: nat)
    requires t < |threads|
    ensures CountedIn(threads) >= Counted(threads[t])
  {
    hide Counted;
    if t < |threads| - 1 {
      CountedMember(threads[..|threads| - 1], t);
    }
  }

  // ----- No lost wake-up ----------------------------------------------------

  ghost predicate Pending(s: State) {
    exists i :: 0 <= i < |s.threads| && Notifying(s.threads[i])
  }

  // While the awaited condition holds, either every parked waiter has been
  // signalled or some thread is on its way to signal them all.
  ghost predicate WakeInv(s: State) {
    AllSignalled(s) || Pending(s) || s.online < Want(s.min)
  }

  lemma WakeStep(s: State, s': State, t: nat)
    requires t < |s.threads| && WakeInv(s) && Transition(s, s', t)
    ensures WakeInv(s')
  {
    hide Holds, Want, Counted;
    if Notifying(s'.threads[t]) {
      assert Pending(s');
    } else if !AllSignalled(s') && s'.online >= Want(s'.min) && !AllSignalled(s) {
      var i :| 0 <= i < |s.threads| && Notifying(s.threads[i]);
      assert i != t && SameButSignal(s.threads[i], s'.threads[i]);
      assert Notifying(s'.threads[i]);
    }
  }

  // ----- Invariant ----------------------------------------------------------

  ghost predicate Inv(s: State) {
    LockInv(s) && WantInv(s) && CountInv(s) && WakeInv(s)
  }

  lemma GoKeepsInv(s: State, t: nat, n: nat, giveUp: bool)
    requires Inv(s) && Enabled(s, Go(t, n, giveUp))
    ensures Inv(Run(s, t, n, giveUp))
  {
    hide Run, Holds, Counted, LockInv, WantInv, WakeInv, CountedIn;
    LockStep(s, Go(t, n, giveUp));
    RunTransition(s, t, n, giveUp);
    var s' := Run(s, t, n, giveUp);
    CountedUpdate(s.threads, s'.threads, t);
    WakeStep(s, s', t);
  }

  lemma SpawnKeepsInv(s: State, pc: Pc)
    requires Inv(s) && Entry(pc)
    ensures Inv(Step(s, Spawn(pc)))
  {
    hide Want;
    LockStep(s, Spawn(pc));
    var s' := Step(s, Spawn(pc));
    assert s'.threads[..|s.threads|] == s.threads;
    if Pending(s) {
      var i :| 0 <= i < |s.threads| && Notifying(s.threads[i]);
      assert Notifying(s'.threads[i]);
    }
  }

  lemma {:induction false} Invariant(ls: seq<Label>)
    requires After(ls).Some?
    ensures Inv(After(ls).value)
  {
    hide Run, Entry;
    if ls != [] {
      Invariant(ls[..|ls| - 1]);
      var s, l := After(ls[..|ls| - 1]).value, ls[|ls| - 1];
      match l {
        case Go(t, n, giveUp) => GoKeepsInv(s, t, n, giveUp);
        case Spawn(pc) => SpawnKeepsInv(s, pc);
        case _ => FrameKeepsInv(s, Step(s, l));
      }
    }
  }

  lemma FrameKeepsInv(s: State, s': State)
    requires Inv(s) && s' == s.(subs := s'.subs)
    ensures Inv(s')
  {
  }

  // In every interleaving: a waiter parked while enough connections are online
  // has been signalled, unless a thread is still on its way to notify; and with
  // the lock free that can only be the main thread between releasing the lock
  // after moving the threshold and notifying.
  lemma NoLostWakeup(ls: seq<Label>, waiter: nat)
    requires After(ls).Some? && waiter < |After(ls).value.threads|
    requires var s := After(ls).value; s.threads[waiter].Parked? && EnoughOnline(s)
    ensures var s := After(ls).value;
            && (s.threads[waiter].signalled || Pending(s))
            && (s.threads[waiter].signalled || s.lock.Some?
                || exists i :: 0 <= i < |s.threads| && s.threads[i].MainUnlocked?)
  {
    hide Run, Entry, After, Want, EnoughOnline;
    Invariant(ls);
    var s := After(ls).value;
    WantMeansEnough(s);
    if !s.threads[waiter].signalled && s.lock.None? {
      var i :| 0 <= i < |s.threads| && Notifying(s.threads[i]);
      assert !Holds(s.threads[i]);
    }
  }

  ghost predicate Answers(s: State, s': State, t: nat, giveUp: bool) {
    && t < |s.threads| && t < |s'.threads|
    && (s'.threads[t] == WaitDone(Enough) <==> s.threads[t].WaitLoaded? && EnoughOnline(s))
    && (s'.threads[t] == WaitDone(Closed) <==> s.threads[t].WaitLoaded? && !EnoughOnline(s) && s.closed)
    && (s'.threads[t] == WaitDone(TimedOut) <==> s.threads[t].WaitUnclosed? && giveUp)
    && (s'.threads[t] == Parked(false) <==> s.threads[t].WaitUnclosed? && !giveUp)
    && (s.threads[t].WaitUnclosed? ==> !EnoughOnline(s))
    && (s'.threads[t].WaitDone? ==> s.lock == Some(t) && s'.lock.None? && s'.online == s.online && s'.min == s.min)
  }

  lemma WaitStepAnswers(s: State, t: nat, giveUp: bool)
    requires LockInv(s) && WantInv(s) && Enabled(s, Go(t, 0, giveUp)) && PartOf(s.threads[t]).Wait?
    ensures Answers(s, RunWait(s, t, giveUp), t, giveUp)
  {
    assert Holds(s.threads[t]) <==> s.lock == Some(t);
    WantMeansEnough(s);
    hide LockInv, Want, EnoughOnline;
  }

  predicate NotWaiting(s: State, t: nat) { t < |s.threads| && !PartOf(s.threads[t]).Wait? }

  lemma OthersNeverAnswer(s: State, t: nat, n: nat)
    requires t < |s.threads| && !PartOf(s.threads[t]).Wait?
    ensures NotWaiting(RunIncr(s, t, n), t) && NotWaiting(RunDecr(s, t, n), t)
    ensures NotWaiting(RunMain(s, t, n), t) && NotWaiting(RunClose(s, t), t)
  {
    hide Signal, Emit;
  }

  // `wait_online` returns exactly what holds, under the lock, when it returns:
  // success if and only if the check finds enough connections online for the
  // threshold of that moment, even when closed; closed or timed out only if not.
  lemma WaitAnswers(ls: seq<Label>, t: nat, n: nat, giveUp: bool)
    requires After(ls).Some? && Enabled(After(ls).value, Go(t, n, giveUp))
    ensures Answers(After(ls).value, Step(After(ls).value, Go(t, n, giveUp)), t, giveUp)
  {
    hide After, LockInv, WantInv, WakeInv, CountInv, RunIncr, RunDecr, RunMain, RunClose, RunWait;
    Invariant(ls);
    var s := After(ls).value;
    if PartOf(s.threads[t]).Wait? {
      hide Answers;
      WaitStepAnswers(s, t, giveUp);
    } else {
      OthersNeverAnswer(s, t, n);
    }
  }

  // ----- What close can miss ------------------------------------------------

  // The flag stays set; a waiter passes the check only before it is set, and
  // parks only after passing it.
  ghost predicate CloseFacts(s: State, s': State, u: nat) {
    && u < |s.threads| == |s'.threads|
    && (forall i :: 0 <= i < |s.threads| && i != u ==> SameButSignal(s.threads[i], s'.threads[i]))
    && (s.closed ==> s'.closed)
    && (s'.threads[u].CloseStored? ==> s'.closed)
    && (s'.threads[u].WaitUnclosed? ==> !s.closed)
    && (s'.threads[u].Parked? ==> s.threads[u].WaitUnclosed?)
  }

  lemma SessionCloseFacts(s: State, u: nat, n: nat)
    requires Enabled(s, Go(u, n, false))
    ensures PartOf(s.threads[u]).Incr? ==> CloseFacts(s, RunIncr(s, u, n), u)
    ensures PartOf(s.threads[u]).Decr? ==> CloseFacts(s, RunDecr(s, u, n), u)
  {
    hide Signal, Emit;
  }

  lemma WaitCloseFacts(s: State, u: nat, giveUp: bool)
    requires Enabled(s, Go(u, 0, giveUp)) && PartOf(s.threads[u]).Wait?
    ensures CloseFacts(s, RunWait(s, u, giveUp), u)
  {
    hide Want;
  }

  lemma MainCloseFacts(s: State, u: nat, n: nat)
    requires Enabled(s, Go(u, n, false))
    ensures PartOf(s.threads[u]).Main? ==> CloseFacts(s, RunMain(s, u, n), u)
    ensures PartOf(s.threads[u]).Close? ==> CloseFacts(s, RunClose(s, u), u)
  {
    hide Signal;
  }

  lemma RunCloseFacts(s: State, u: nat, n: nat, giveUp: bool)
    requires Enabled(s, Go(u, n, giveUp))
    ensures CloseFacts(s, Run(s, u, n, giveUp), u)
  {
    hide CloseFacts, RunIncr, RunDecr, RunWait, RunMain, RunClose;
    SessionCloseFacts(s, u, n);
    if PartOf(s.threads[u]).Wait? {
      WaitCloseFacts(s, u, giveUp);
    }
    MainCloseFacts(s, u, n);
  }

  // A thread that has stored the flag finds it set.
  lemma {:induction false} StoredIsClosed(ls: seq<Label>, c: nat)
    requires After(ls).Some? && c < |After(ls).value.threads| && After(ls).value.threads[c].CloseStored?
    ensures After(ls).value.closed
  {
    hide Run;
    if ls != [] {
      var front, l := ls[..|ls| - 1], ls[|ls| - 1];
      var s := After(front).value;
      if l.Go? {
        RunCloseFacts(s, l.t, l.n, l.giveUp);
      }
      if !(l.Go? && l.t == c) {
        assert l.Go? ==> SameButSignal(s.threads[c], After(ls).value.threads[c]);
        StoredIsClosed(front, c);
      }
    }
  }

  // Thread t can no longer park unsignalled.
  predicate Barred(s: State, t: nat) {
    s.closed && (t < |s.threads| ==> !s.threads[t].WaitUnclosed? && (s.threads[t].Parked? ==> s.threads[t].signalled))
  }

  lemma BarredStep(s: State, l: Label, t: nat)
    requires Barred(s, t) && Enabled(s, l)
    ensures Barred(Step(s, l), t)
  {
    hide Run;
    if l.Go? {
      RunCloseFacts(s, l.t, l.n, l.giveUp);
      assert t < |s.threads| && t != l.t ==> SameButSignal(s.threads[t], Step(s, l).threads[t]);
    }
  }

  lemma LastStep(ls: seq<Label>, more: seq<Label>)
    requires more != [] && After(ls + more).Some?
    ensures var s, l := After(ls + more[..|more| - 1]), more[|more| - 1];
            s.Some? && Enabled(s.value, l) && After(ls + more) == Some(Step(s.value, l))
  {
    hide Step, Enabled;
    assert (ls + more)[..|ls + more| - 1] == ls + more[..|more| - 1];
  }

  lemma {:induction false} BarredForGood(ls: seq<Label>, more: seq<Label>, t: nat)
    requires After(ls).Some? && Barred(After(ls).value, t) && After(ls + more).Some?
    ensures Barred(After(ls + more).value, t)
  {
    if more == [] {
      assert ls + more == ls;
    } else {
      hide After, Step, Enabled, Barred;
      var front := more[..|more| - 1];
      LastStep(ls, more);
      BarredForGood(ls, front, t);
      BarredStep(After(ls + front).value, more[|more| - 1], t);
    }
  }

  // The last step of close.
  lemma Notifies(s: State, c: nat)
    requires c < |s.threads| && s.threads[c].CloseStored?
    ensures Enabled(s, Go(c, 0, false))
    ensures Step(s, Go(c, 0, false)) == s.(threads := Signal(s.threads[c := CloseDone]))
  {
    hide Signal, RunIncr, RunDecr, RunWait, RunMain;
  }

  lemma Parks(s: State, t: nat)
    requires t < |s.threads| && s.threads[t].WaitUnclosed?
    ensures Enabled(s, Go(t, 0, false))
    ensures Step(s, Go(t, 0, false)) == s.(threads := s.threads[t := Parked(false)], lock := None)
  {
    hide RunIncr, RunDecr, RunMain, RunClose;
  }

  // Thread t can be parked, unsignalled, after thread c's notification in close.
  ghost predicate CanMiss(ls: seq<Label>, c: nat, t: nat) {
    exists more :: ParkedAfter(ls + [Go(c, 0, false)] + more, t)
  }

  predicate ParkedAfter(ls: seq<Label>, t: nat) {
    var s := After(ls);
    s.Some? && t < |s.value.threads| && s.value.threads[t] == Parked(false)
  }

  // The notification of close is missed by exactly the waiters that, when it is
  // given, have found the client open and not parked yet.
  lemma CloseMissedExactly(ls: seq<Label>, c: nat, t: nat)
    requires After(ls).Some? && c < |After(ls).value.threads| && After(ls).value.threads[c].CloseStored?
    ensures CanMiss(ls, c, t) <==> t < |After(ls).value.threads| && After(ls).value.threads[t].WaitUnclosed?
  {
    hide After, Step, Enabled;
    var s := After(ls).value;
    var notified := ls + [Go(c, 0, false)];
    Notifies(s, c);
    Extend(ls, s, Go(c, 0, false), Step(s, Go(c, 0, false)));
    if t < |s.threads| && s.threads[t].WaitUnclosed? {
      var s' := Step(s, Go(c, 0, false));
      Parks(s', t);
      Extend(notified, s', Go(t, 0, false), Step(s', Go(t, 0, false)));
      assert ParkedAfter(notified + [Go(t, 0, false)], t);
    } else {
      StoredIsClosed(ls, c);
      forall more ensures !ParkedAfter(notified + more, t) {
        if After(notified + more).Some? {
          BarredForGood(notified, more, t);
        }
      }
    }
  }

  ghost predicate Yields(s: State, l: Label, s': State) { Enabled(s, l) && Step(s, l) == s' }

  lemma Extend(ls: seq<Label>, s: State, l: Label, s': State)
    requires After(ls) == Some(s) && Yields(s, l, s')
    ensures After(ls + [l]) == Some(s')
  {
    hide Step, Enabled;
    assert (ls + [l])[..|ls|] == ls;
  }

  // Two threads with nobody online: a waiter and a caller of close.
  function Pair(waiter: Pc, closer: Pc, lock: Option<nat>): State {
    State([waiter, closer], lock, 0, 1, !closer.CloseStart?, [], [])
  }

  lemma PairUp()
    ensures Yields(Init(), Spawn(WaitStart), Init().(threads := [WaitStart]))
    ensures Yields(Init().(threads := [WaitStart]), Spawn(CloseStart), Pair(WaitStart, CloseStart, None))
  {
    hide Run;
  }

  lemma WaiterChecks()
    ensures Yields(Pair(WaitStart, CloseStart, None), Go(0, 0, false), Pair(WaitLocked, CloseStart, Some(0)))
    ensures Yields(Pair(WaitLocked, CloseStart, Some(0)), Go(0, 0, false), Pair(WaitLoaded(1), CloseStart, Some(0)))
    ensures Yields(Pair(WaitLoaded(1), CloseStart, Some(0)), Go(0, 0, false),
                   Pair(WaitUnclosed(1), CloseStart, Some(0)))
  {
    hide RunIncr, RunDecr, RunMain, RunClose;
  }

  lemma CloserNotifies()
    ensures Yields(Pair(WaitUnclosed(1), CloseStart, Some(0)), Go(1, 0, false),
                   Pair(WaitUnclosed(1), CloseStored, Some(0)))
    ensures Yields(Pair(WaitUnclosed(1), CloseStored, Some(0)), Go(1, 0, false),
                   Pair(WaitUnclosed(1), CloseDone, Some(0)))
  {
    hide RunIncr, RunDecr, RunMain, RunWait, Signal;
    var s := Pair(WaitUnclosed(1), CloseStored, Some(0));
    assert s.threads[1 := CloseDone] == [WaitUnclosed(1), CloseDone];
    assert Signal([WaitUnclosed(1), CloseDone]) == [WaitUnclosed(1), CloseDone];
  }

  lemma WaiterParks()
    ensures Yields(Pair(WaitUnclosed(1), CloseDone, Some(0)), Go(0, 0, false),
                   Pair(Parked(false), CloseDone, None))
  {
    hide RunIncr, RunDecr, RunMain, RunClose;
  }

  // It can happen: the waiter checks, close stores and notifies, the waiter parks.
  lemma CloseCanBeMissed() returns (ls: seq<Label>)
    ensures After(ls) == Some(Pair(Parked(false), CloseDone, None))
    ensures After(ls).value.closed
  {
    assert After([]) == Some(Init()) by { AfterNothing(); }
    hide After, Yields;
    var waiter, closer := Go(0, 0, false), Go(1, 0, false);
    PairUp();
    WaiterChecks();
    CloserNotifies();
    WaiterParks();
    var a := [] + [Spawn(WaitStart)];
    Extend([], Init(), Spawn(WaitStart), Init().(threads := [WaitStart]));
    var b := a + [Spawn(CloseStart)];
    Extend(a, Init().(threads := [WaitStart]), Spawn(CloseStart), Pair(WaitStart, CloseStart, None));
    var c := b + [waiter];
    Extend(b, Pair(WaitStart, CloseStart, None), waiter, Pair(WaitLocked, CloseStart, Some(0)));
    var d := c + [waiter];
    Extend(c, Pair(WaitLocked, CloseStart, Some(0)), waiter, Pair(WaitLoaded(1), CloseStart, Some(0)));
    var e := d + [waiter];
    Extend(d, Pair(WaitLoaded(1), CloseStart, Some(0)), waiter, Pair(WaitUnclosed(1), CloseStart, Some(0)));
    var f := e + [closer];
    Extend(e, Pair(WaitUnclosed(1), CloseStart, Some(0)), closer, Pair(WaitUnclosed(1), CloseStored, Some(0)));
    var g := f + [closer];
    Extend(f, Pair(WaitUnclosed(1), CloseStored, Some(0)), closer, Pair(WaitUnclosed(1), CloseDone, Some(0)));
    ls := g + [waiter];
    Extend(g, Pair(WaitUnclosed(1), CloseDone, Some(0)), waiter, Pair(Parked(false), CloseDone, None));
  }

  lemma AfterNothing()
    ensures After([]) == Some(Init())
  {
  }

  // ----- Operations run to their end ----------------------------------------

  // Thread t takes k steps in a row.
  function Gos(t: nat, n: nat, giveUp: bool, k: nat): seq<Label> {
    if k == 0 then [] else Gos(t, n, giveUp, k - 1) + [Go(t, n, giveUp)]
  }

  lemma Once(ls: seq<Label>, t: nat, n: nat, giveUp: bool, k: nat, s: State, s': State)
    requires After(ls + Gos(t, n, giveUp, k)) == Some(s) && Yields(s, Go(t, n, giveUp), s')
    ensures After(ls + Gos(t, n, giveUp, k + 1)) == Some(s')
  {
    hide After, Yields;
    Extend(ls + Gos(t, n, giveUp, k), s, Go(t, n, giveUp), s');
    assert ls + Gos(t, n, giveUp, k) + [Go(t, n, giveUp)] == ls + Gos(t, n, giveUp, k + 1);
  }

  lemma NoGos(ls: seq<Label>, t: nat, n: nat, giveUp: bool)
    ensures ls + Gos(t, n, giveUp, 0) == ls
  {
  }

  // The state with thread t at this position.
  function Put(s: State, t: nat, pc: Pc, lock: Option<nat>): State
    requires t < |s.threads|
  {
    s.(threads := s.threads[t := pc], lock := lock)
  }

  lemma Overwrite(threads: seq<Pc>, t: nat, a: Pc, b: Pc)
    requires t < |threads|
    ensures threads[t := a][t := b] == threads[t := b]
  {
  }

  lemma WaitBegins(s: State, t: nat, giveUp: bool)
    requires t < |s.threads| && s.threads[t].WaitStart? && s.lock.None?
    ensures Yields(s, Go(t, 0, giveUp), Put(s, t, WaitLocked, Some(t)))
    ensures Yields(Put(s, t, WaitLocked, Some(t)), Go(t, 0, giveUp), Put(s, t, WaitLoaded(Want(s.min)), Some(t)))
  {
    hide RunIncr, RunDecr, RunMain, RunClose, Want;
    assert s.threads[t := WaitLocked][t := WaitLoaded(Want(s.min))] == s.threads[t := WaitLoaded(Want(s.min))];
  }

  // What the check under the lock leads to.
  function Checked(s: State): Pc {
    if s.online >= Want(s.min) then WaitDone(Enough)
    else if s.closed then WaitDone(Closed)
    else WaitUnclosed(Want(s.min))
  }

  lemma WaitChecks(s: State, t: nat, giveUp: bool)
    requires t < |s.threads|
    ensures Yields(Put(s, t, WaitLoaded(Want(s.min)), Some(t)), Go(t, 0, giveUp),
                   Put(s, t, Checked(s), if Checked(s).WaitDone? then None else Some(t)))
    ensures Yields(Put(s, t, WaitUnclosed(Want(s.min)), Some(t)), Go(t, 0, giveUp),
                   Put(s, t, if giveUp then WaitDone(TimedOut) else Parked(false), None))
  {
    hide RunIncr, RunDecr, RunMain, RunClose, Want;
    Overwrite(s.threads, t, WaitLoaded(Want(s.min)), Checked(s));
    Overwrite(s.threads, t, WaitUnclosed(Want(s.min)), if giveUp then WaitDone(TimedOut) else Parked(false));
  }

  // A waiter that gets the lock, undisturbed: it succeeds if enough connections
  // are online, else is told of the close, else times out if its deadline has
  // passed and parks if not. It leaves the lock free and all else as it was.
  lemma WaitRuns(ls: seq<Label>, t: nat, giveUp: bool)
    requires After(ls).Some? && t < |After(ls).value.threads|
    requires After(ls).value.threads[t].WaitStart? && After(ls).value.lock.None?
    ensures var s := After(ls).value;
            var outcome := if EnoughOnline(s) then WaitDone(Enough)
                           else if s.closed then WaitDone(Closed)
                           else if giveUp then WaitDone(TimedOut)
                           else Parked(false);
            var steps := if EnoughOnline(s) || s.closed then 3 else 4;
            After(ls + Gos(t, 0, giveUp, steps)) == Some(s.(threads := s.threads[t := outcome]))
  {
    hide After, Yields, Want, Gos, EnoughOnline;
    var s := After(ls).value;
    WantMeansEnough(s);
    NoGos(ls, t, 0, giveUp);
    WaitBegins(s, t, giveUp);
    WaitChecks(s, t, giveUp);
    var locked, loaded := Put(s, t, WaitLocked, Some(t)), Put(s, t, WaitLoaded(Want(s.min)), Some(t));
    var checked := Put(s, t, Checked(s), if Checked(s).WaitDone? then None else Some(t));
    Once(ls, t, 0, giveUp, 0, s, locked);
    Once(ls, t, 0, giveUp, 1, locked, loaded);
    Once(ls, t, 0, giveUp, 2, loaded, checked);
    if Checked(s).WaitUnclosed? {
      Once(ls, t, 0, giveUp, 3, checked, Put(s, t, if giveUp then WaitDone(TimedOut) else Parked(false), None));
    }
  }

  // A parked waiter can always resume, and starts over.
  lemma ParkedResumes(ls: seq<Label>, t: nat)
    requires After(ls).Some? && t < |After(ls).value.threads| && After(ls).value.threads[t].Parked?
    ensures var s := After(ls).value;
            After(ls + Gos(t, 0, true, 1)) == Some(s.(threads := s.threads[t := WaitStart]))
  {
    var s := After(ls).value;
    assert Yields(s, Go(t, 0, true), Move(s, t, WaitStart)) by {
      hide RunIncr, RunDecr, RunMain, RunClose, After;
    }
    hide After, Yields, Gos;
    NoGos(ls, t, 0, true);
    Once(ls, t, 0, true, 0, s, Move(s, t, WaitStart));
  }

  // The state after some events reached the live subscribers.
  function EmitBoth(s: State, a: ClientEvent, b: ClientEvent): State { Emit(Emit(s, a), b) }

  lemma IncrBegins(s: State, t: nat, n: nat)
    requires t < |s.threads| && s.threads[t].SessionOff? && s.lock.None?
    ensures Yields(s, Go(t, n, false), Put(s, t, IncrLocked, Some(t)))
    ensures Yields(Put(s, t, IncrLocked, Some(t)), Go(t, n, false),
                   Put(s, t, if s.online == 0 then IncrStatus else IncrNotify, Some(t)).(online := s.online + 1))
  {
    hide RunDecr, RunWait, RunMain, RunClose, Emit, Signal;
    Overwrite(s.threads, t, IncrLocked, if s.online == 0 then IncrStatus else IncrNotify);
  }

  lemma IncrEmits(s: State, t: nat, n: nat)
    requires t < |s.threads|
    ensures Yields(Put(s, t, IncrStatus, Some(t)), Go(t, n, false), Emit(Put(s, t, IncrOnline, Some(t)), Status(1, n)))
    ensures Yields(Emit(Put(s, t, IncrOnline, Some(t)), Status(1, n)), Go(t, n, false),
                   EmitBoth(Put(s, t, IncrNotify, Some(t)), Status(1, n), Online))
  {
    hide RunDecr, RunWait, RunMain, RunClose, Delivered, Signal;
    Overwrite(s.threads, t, IncrStatus, IncrOnline);
    Overwrite(s.threads, t, IncrOnline, IncrNotify);
  }

  lemma IncrEnds(s: State, t: nat, n: nat)
    requires t < |s.threads|
    ensures Yields(Put(s, t, IncrNotify, Some(t)), Go(t, n, false),
                   Put(s, t, IncrUnlock, Some(t)).(threads := Signal(s.threads[t := IncrUnlock])))
    ensures Yields(Put(s, t, IncrUnlock, Some(t)).(threads := Signal(s.threads[t := IncrUnlock])), Go(t, n, false),
                   s.(threads := Signal(s.threads)[t := SessionOn], lock := None))
  {
    hide RunDecr, RunWait, RunMain, RunClose, Emit, Signal;
    Overwrite(s.threads, t, IncrNotify, IncrUnlock);
    assert Signal(s.threads[t := IncrUnlock])[t := SessionOn] == Signal(s.threads)[t := SessionOn];
  }

  // Going online, undisturbed: the count goes up by one, from zero with Status
  // and Online for every live subscriber, and every parked waiter is signalled.
  lemma IncrRuns(ls: seq<Label>, t: nat, n: nat)
    requires After(ls).Some? && t < |After(ls).value.threads|
    requires After(ls).value.threads[t].SessionOff? && After(ls).value.lock.None?
    ensures var s := After(ls).value;
            var heard := if s.online == 0 then EmitBoth(s, Status(1, n), Online) else s;
            var s' := heard.(online := s.online + 1, threads := Signal(s.threads)[t := SessionOn]);
            After(ls + Gos(t, n, false, if s.online == 0 then 6 else 4)) == Some(s')
  {
    hide After, Yields, Gos, Signal, Delivered;
    var s := After(ls).value;
    var up := s.(online := s.online + 1);
    NoGos(ls, t, n, false);
    IncrBegins(s, t, n);
    IncrEmits(up, t, n);
    var heard := if s.online == 0 then EmitBoth(up, Status(1, n), Online) else up;
    IncrEnds(heard, t, n);
    Once(ls, t, n, false, 0, s, Put(s, t, IncrLocked, Some(t)));
    var next := Put(up, t, if s.online == 0 then IncrStatus else IncrNotify, Some(t));
    Once(ls, t, n, false, 1, Put(s, t, IncrLocked, Some(t)), next);
    var k := 2;
    if s.online == 0 {
      var said := Emit(Put(up, t, IncrOnline, Some(t)), Status(1, n));
      Once(ls, t, n, false, 2, next, said);
      Once(ls, t, n, false, 3, said, EmitBoth(Put(up, t, IncrNotify, Some(t)), Status(1, n), Online));
      k := 4;
    }
    assert Put(heard, t, IncrNotify, Some(t))
        == if s.online == 0 then EmitBoth(Put(up, t, IncrNotify, Some(t)), Status(1, n), Online) else next;
    var notified := Put(heard, t, IncrUnlock, Some(t)).(threads := Signal(heard.threads[t := IncrUnlock]));
    Once(ls, t, n, false, k, Put(heard, t, IncrNotify, Some(t)), notified);
    Once(ls, t, n, false, k + 1, notified, heard.(threads := Signal(heard.threads)[t := SessionOn], lock := None));
  }

  lemma DecrBegins(s: State, t: nat, n: nat)
    requires t < |s.threads| && s.threads[t].SessionOn? && s.lock.None?
    ensures Yields(s, Go(t, n, false), Put(s, t, DecrLocked, Some(t)))
    ensures Yields(Put(s, t, DecrLocked, Some(t)), Go(t, n, false),
                   Put(s, t, if s.online == 1 then DecrStatus else DecrUnlock, Some(t)).(online := s.online - 1))
  {
    hide RunIncr, RunWait, RunMain, RunClose, Emit;
    Overwrite(s.threads, t, DecrLocked, if s.online == 1 then DecrStatus else DecrUnlock);
  }

  lemma DecrEmits(s: State, t: nat, n: nat)
    requires t < |s.threads|
    ensures Yields(Put(s, t, DecrStatus, Some(t)), Go(t, n, false), Emit(Put(s, t, DecrOffline, Some(t)), Status(0, n)))
    ensures Yields(Emit(Put(s, t, DecrOffline, Some(t)), Status(0, n)), Go(t, n, false),
                   EmitBoth(Put(s, t, DecrUnlock, Some(t)), Status(0, n), Offline))
    ensures Yields(Put(s, t, DecrUnlock, Some(t)), Go(t, n, false), Put(s, t, SessionOff, None))
  {
    hide RunIncr, RunWait, RunMain, RunClose, Delivered;
    Overwrite(s.threads, t, DecrStatus, DecrOffline);
    Overwrite(s.threads, t, DecrOffline, DecrUnlock);
    Overwrite(s.threads, t, DecrUnlock, SessionOff);
  }

  // Going offline, undisturbed: the count goes down by one, to zero with Status
  // and Offline, and nobody is signalled.
  lemma DecrRuns(ls: seq<Label>, t: nat, n: nat)
    requires After(ls).Some? && t < |After(ls).value.threads|
    requires After(ls).value.threads[t].SessionOn? && After(ls).value.lock.None?
    ensures var s := After(ls).value;
            var heard := if s.online == 1 then EmitBoth(s, Status(0, n), Offline) else s;
            var s' := heard.(online := s.online - 1, threads := s.threads[t := SessionOff]);
            After(ls + Gos(t, n, false, if s.online == 1 then 5 else 3)) == Some(s')
  {
    hide After, Yields, Gos, Delivered;
    var s := After(ls).value;
    var down := s.(online := s.online - 1);
    NoGos(ls, t, n, false);
    DecrBegins(s, t, n);
    DecrEmits(down, t, n);
    var heard := if s.online == 1 then EmitBoth(down, Status(0, n), Offline) else down;
    DecrEmits(heard, t, n);
    Once(ls, t, n, false, 0, s, Put(s, t, DecrLocked, Some(t)));
    var next := Put(down, t, if s.online == 1 then DecrStatus else DecrUnlock, Some(t));
    Once(ls, t, n, false, 1, Put(s, t, DecrLocked, Some(t)), next);
    var k := 2;
    if s.online == 1 {
      var said := Emit(Put(down, t, DecrOffline, Some(t)), Status(0, n));
      Once(ls, t, n, false, 2, next, said);
      Once(ls, t, n, false, 3, said, EmitBoth(Put(down, t, DecrUnlock, Some(t)), Status(0, n), Offline));
      k := 4;
    }
    assert Put(heard, t, DecrUnlock, Some(t))
        == if s.online == 1 then EmitBoth(Put(down, t, DecrUnlock, Some(t)), Status(0, n), Offline) else next;
    Once(ls, t, n, false, k, Put(heard, t, DecrUnlock, Some(t)), Put(heard, t, SessionOff, None));
  }

  lemma MainBegins(s: State, t: nat, n: nat)
    requires t < |s.threads| && s.threads[t].MainIdle? && s.lock.None?
    ensures Yields(s, Go(t, n, false), Put(s, t, MainLocked(n), Some(t)))
    ensures Yields(Put(s, t, MainLocked(n), Some(t)), Go(t, n, false), Put(s.(min := n), t, MainStored, Some(t)))
  {
    hide RunIncr, RunDecr, RunWait, RunClose, Signal;
    Overwrite(s.threads, t, MainLocked(n), MainStored);
  }

  lemma MainEnds(s: State, t: nat, n: nat)
    requires t < |s.threads| && s.threads[t].MainIdle? && s.lock.None?
    ensures Yields(Put(s, t, MainStored, Some(t)), Go(t, n, false), Put(s, t, MainUnlocked, None))
    ensures Yields(Put(s, t, MainUnlocked, None), Go(t, n, false), s.(threads := Signal(s.threads)))
  {
    hide RunIncr, RunDecr, RunWait, RunClose, Signal;
    Overwrite(s.threads, t, MainStored, MainUnlocked);
    Overwrite(s.threads, t, MainUnlocked, MainIdle);
    assert s.threads[t := MainIdle] == s.threads;
  }

  // Moving the threshold, undisturbed: it is the one given, and every parked
  // waiter is signalled.
  lemma MainRuns(ls: seq<Label>, t: nat, n: nat)
    requires After(ls).Some? && t < |After(ls).value.threads|
    requires After(ls).value.threads[t].MainIdle? && After(ls).value.lock.None?
    ensures var s := After(ls).value;
            After(ls + Gos(t, n, false, 4)) == Some(s.(min := n, threads := Signal(s.threads)))
  {
    hide After, Yields, Gos, Signal;
    var s := After(ls).value;
    NoGos(ls, t, n, false);
    MainBegins(s, t, n);
    MainEnds(s.(min := n), t, n);
    Once(ls, t, n, false, 0, s, Put(s, t, MainLocked(n), Some(t)));
    Once(ls, t, n, false, 1, Put(s, t, MainLocked(n), Some(t)), Put(s.(min := n), t, MainStored, Some(t)));
    Once(ls, t, n, false, 2, Put(s.(min := n), t, MainStored, Some(t)), Put(s.(min := n), t, MainUnlocked, None));
    Once(ls, t, n, false, 3, Put(s.(min := n), t, MainUnlocked, None), s.(min := n, threads := Signal(s.threads)));
  }

  // Closing, whoever holds the lock: the flag is set and every waiter parked at
  // the notification is signalled.
  lemma CloseRuns(ls: seq<Label>, t: nat)
    requires After(ls).Some? && t < |After(ls).value.threads| && After(ls).value.threads[t].CloseStart?
    ensures var s := After(ls).value;
            After(ls + Gos(t, 0, false, 2)) == Some(s.(closed := true, threads := Signal(s.threads)[t := CloseDone]))
  {
    var s := After(ls).value;
    var stored := Move(s, t, CloseStored).(closed := true);
    CloseStores(s, t);
    Notifies(stored, t);
    SignalAround(s.threads, t, CloseStored);
    var done := s.(closed := true, threads := Signal(s.threads)[t := CloseDone]);
    assert Yields(stored, Go(t, 0, false), done) by { hide After; }
    hide After, Yields, Gos, Signal;
    NoGos(ls, t, 0, false);
    Once(ls, t, 0, false, 0, s, stored);
    Once(ls, t, 0, false, 1, stored, done);
  }

  lemma CloseStores(s: State, t: nat)
    requires t < |s.threads| && s.threads[t].CloseStart?
    ensures Yields(s, Go(t, 0, false), Move(s, t, CloseStored).(closed := true))
  {
    hide RunIncr, RunDecr, RunWait, RunMain, Signal;
  }

  lemma SignalAround(threads: seq<Pc>, t: nat, pc: Pc)
    requires t < |threads|
    ensures Signal(threads[t := pc][t := CloseDone]) == Signal(threads)[t := CloseDone]
  {
  }

  // ----- Event history ------------------------------------------------------

  // Going online and offline alternate, each announced by a status event.
  predicate Cyclic(log: seq<ClientEvent>) {
    forall i :: 0 <= i < |log| ==>
      if i % 4 == 0 then log[i].Status? && log[i].online == 1
      else if i % 4 == 1 then log[i].Online?
      else if i % 4 == 2 then log[i].Status? && log[i].online == 0
      else log[i].Offline?
  }

  // How far into the cycle the log stands.
  function Phase(s: State): nat {
    var settled := if s.online > 0 then 2 else 0;
    if s.lock.None? || s.lock.value >= |s.threads| then settled
    else match s.threads[s.lock.value]
      case IncrStatus => 0
      case IncrOnline => 1
      case DecrStatus => 2
      case DecrOffline => 3
      case _ => settled
  }

  ghost predicate LogInv(s: State) {
    && Cyclic(s.log) && |s.log| % 4 == Phase(s)
    && forall i :: 0 <= i < |s.threads| ==>
         match s.threads[i]
         case IncrStatus => s.online == 1
         case IncrOnline => s.online == 1
         case DecrStatus => s.online == 0
         case DecrOffline => s.online == 0
         case _ => true
  }

  lemma IncrKeepsLog(s: State, t: nat, n: nat)
    requires Inv(s) && LogInv(s) && Enabled(s, Go(t, n, false)) && PartOf(s.threads[t]).Incr?
    ensures LogInv(RunIncr(s, t, n))
  {
    hide WantInv, WakeInv, Signal, Delivered, CountedIn;
    CountedMember(s.threads, t);
  }

  lemma DecrKeepsLog(s: State, t: nat, n: nat)
    requires Inv(s) && LogInv(s) && Enabled(s, Go(t, n, false)) && PartOf(s.threads[t]).Decr?
    ensures LogInv(RunDecr(s, t, n))
  {
    hide WantInv, WakeInv, Signal, Delivered, CountedIn;
    CountedMember(s.threads, t);
  }

  lemma WaitKeepsLog(s: State, t: nat, giveUp: bool)
    requires LockInv(s) && LogInv(s) && Enabled(s, Go(t, 0, giveUp)) && PartOf(s.threads[t]).Wait?
    ensures LogInv(RunWait(s, t, giveUp))
  {
    hide Cyclic, Want;
  }

  lemma MainKeepsLog(s: State, t: nat, n: nat)
    requires LockInv(s) && LogInv(s) && Enabled(s, Go(t, n, false)) && PartOf(s.threads[t]).Main?
    ensures LogInv(RunMain(s, t, n))
  {
    hide Cyclic, Signal;
  }

  lemma CloseKeepsLog(s: State, t: nat)
    requires LockInv(s) && LogInv(s) && Enabled(s, Go(t, 0, false)) && PartOf(s.threads[t]).Close?
    ensures LogInv(RunClose(s, t))
  {
    hide Cyclic, Signal;
  }

  lemma GoKeepsLog(s: State, t: nat, n: nat, giveUp: bool)
    requires Inv(s) && LogInv(s) && Enabled(s, Go(t, n, giveUp))
    ensures LogInv(Run(s, t, n, giveUp))
  {
    hide LogInv, LockInv, WantInv, CountInv, WakeInv, RunIncr, RunDecr, RunWait, RunMain, RunClose;
    match PartOf(s.threads[t]) {
      case Incr => IncrKeepsLog(s, t, n);
      case Decr => DecrKeepsLog(s, t, n);
      case Wait => WaitKeepsLog(s, t, giveUp);
      case Main => MainKeepsLog(s, t, n);
      case Close => CloseKeepsLog(s, t);
    }
  }

  // Each stream is the stretch of the log since its subscription; a live one
  // reaches the end of the log.
  ghost predicate SubsInv(log: seq<ClientEvent>, subs: seq<Sub>) {
    forall i :: 0 <= i < |subs| ==>
      && subs[i].start + |subs[i].stream| <= |log|
      && subs[i].stream == log[subs[i].start..subs[i].start + |subs[i].stream|]
      && (subs[i].live ==> subs[i].start + |subs[i].stream| == |log|)
  }

  lemma Extended(log: seq<ClientEvent>, ev: ClientEvent, i: nat, j: nat)
    requires i <= j <= |log|
    ensures (log + [ev])[i..j] == log[i..j]
    ensures (log + [ev])[i..] == log[i..] + [ev]
  {
  }

  lemma DeliveryKeepsSubs(log: seq<ClientEvent>, subs: seq<Sub>, ev: ClientEvent)
    requires SubsInv(log, subs)
    ensures SubsInv(log + [ev], Delivered(subs, ev))
  {
    hide Delivered;
    var log', subs' := log + [ev], Delivered(subs, ev);
    forall i | 0 <= i < |subs|
      ensures subs'[i].start + |subs'[i].stream| <= |log'|
      ensures subs'[i].stream == log'[subs'[i].start..subs'[i].start + |subs'[i].stream|]
    {
      var end := subs[i].start + |subs[i].stream|;
      assert subs'[i].start == subs[i].start;
      Extended(log, ev, subs[i].start, end);
    }
  }

  // A step logs nothing, or one event that reaches the live subscribers.
  ghost predicate Logs(s: State, s': State) {
    || (s'.log == s.log && s'.subs == s.subs)
    || (|s'.log| == |s.log| + 1 && s'.log == s.log + [s'.log[|s.log|]] && s'.subs == Delivered(s.subs, s'.log[|s.log|]))
  }

  lemma SessionLogs(s: State, t: nat, n: nat)
    requires t < |s.threads|
    ensures Logs(s, RunIncr(s, t, n)) && Logs(s, RunDecr(s, t, n))
  {
    hide Delivered, Signal;
  }

  lemma OthersLogNothing(s: State, t: nat, n: nat, giveUp: bool)
    requires t < |s.threads|
    ensures Logs(s, RunWait(s, t, giveUp)) && Logs(s, RunMain(s, t, n)) && Logs(s, RunClose(s, t))
  {
    hide Delivered, Signal;
  }

  lemma GoLogs(s: State, t: nat, n: nat, giveUp: bool)
    requires t < |s.threads|
    ensures Logs(s, Run(s, t, n, giveUp))
  {
    hide Logs, RunIncr, RunDecr, RunWait, RunMain, RunClose;
    SessionLogs(s, t, n);
    OthersLogNothing(s, t, n, giveUp);
  }

  lemma GoKeepsHistory(s: State, t: nat, n: nat, giveUp: bool)
    requires Inv(s) && LogInv(s) && SubsInv(s.log, s.subs) && Enabled(s, Go(t, n, giveUp))
    ensures var s' := Run(s, t, n, giveUp); LogInv(s') && SubsInv(s'.log, s'.subs)
  {
    hide LogInv, SubsInv, Delivered, Run, Inv;
    GoKeepsLog(s, t, n, giveUp);
    GoLogs(s, t, n, giveUp);
    var s' := Run(s, t, n, giveUp);
    if s'.log != s.log {
      DeliveryKeepsSubs(s.log, s.subs, s'.log[|s.log|]);
    }
  }

  lemma SubscribeKeepsHistory(s: State, l: Label)
    requires LogInv(s) && SubsInv(s.log, s.subs) && Enabled(s, l) && (l.Subscribe? || l.Unsubscribe?)
    ensures LogInv(Step(s, l)) && SubsInv(Step(s, l).log, Step(s, l).subs)
  {
    hide Cyclic;
  }

  lemma {:induction false} LogInvariant(ls: seq<Label>)
    requires After(ls).Some?
    ensures LogInv(After(ls).value) && SubsInv(After(ls).value.log, After(ls).value.subs)
  {
    hide Run, Entry, Inv, Cyclic, LogInv, SubsInv;
    if ls == [] {
      NothingLogged();
    } else {
      var before := ls[..|ls| - 1];
      LogInvariant(before);
      Invariant(before);
      var s, l := After(before).value, ls[|ls| - 1];
      match l {
        case Go(t, n, giveUp) => GoKeepsHistory(s, t, n, giveUp);
        case Spawn(pc) => SpawnKeepsLog(s, pc);
        case _ => SubscribeKeepsHistory(s, l);
      }
    }
  }

  lemma NothingLogged()
    ensures LogInv(Init()) && SubsInv([], [])
  {
  }

  lemma SpawnKeepsLog(s: State, pc: Pc)
    requires Inv(s) && LogInv(s) && Entry(pc)
    ensures LogInv(s.(threads := s.threads + [pc]))
  {
    hide Cyclic;
  }

  function Count(log: seq<ClientEvent>, ev: ClientEvent): nat {
    if log == [] then 0 else Count(log[..|log| - 1], ev) + if log[|log| - 1] == ev then 1 else 0
  }

  lemma {:induction false} CountCyclic(log: seq<ClientEvent>)
    requires Cyclic(log)
    ensures Count(log, Online) == (|log| + 2) / 4 && Count(log, Offline) == |log| / 4
  {
    if log != [] {
      CountCyclic(log[..|log| - 1]);
    }
  }

  // In every interleaving: events run through the cycle Status(1, _), Online,
  // Status(0, _), Offline; Online is ahead of Offline by one or level, and with
  // the lock free by one exactly when a connection is online; every live
  // subscriber has the whole log since it subscribed, and one that left a
  // contiguous part of it.
  lemma EventHistory(ls: seq<Label>)
    requires After(ls).Some?
    ensures var s := After(ls).value;
            && Cyclic(s.log) && SubsInv(s.log, s.subs)
            && 0 <= Count(s.log, Online) - Count(s.log, Offline) <= 1
            && (s.lock.None? ==> (Count(s.log, Online) - Count(s.log, Offline) == 1 <==> s.online > 0))
  {
    hide After, Count, Cyclic, SubsInv;
    LogInvariant(ls);
    CountCyclic(After(ls).value.log);
  }

  // Anyone may subscribe at any time, and leave.
  lemma SubscribersComeAndGo(ls: seq<Label>, i: nat)
    requires After(ls).Some? && i < |After(ls).value.subs|
    ensures var s := After(ls).value;
            && After(ls + [Subscribe]) == Some(s.(subs := s.subs + [Sub(|s.log|, [], true)]))
            && After(ls + [Unsubscribe(i)]) == Some(s.(subs := s.subs[i := s.subs[i].(live := false)]))
  {
    var s := After(ls).value;
    assert Yields(s, Subscribe, s.(subs := s.subs + [Sub(|s.log|, [], true)]));
    assert Yields(s, Unsubscribe(i), s.(subs := s.subs[i := s.subs[i].(live := false)]));
    hide After, Yields;
    Extend(ls, s, Subscribe, s.(subs := s.subs + [Sub(|s.log|, [], true)]));
    Extend(ls, s, Unsubscribe(i), s.(subs := s.subs[i := s.subs[i].(live := false)]));
  }

  ghost predicate StillHears(s: State, i: nat, start: nat) {
    i < |s.subs| && s.subs[i].live && s.subs[i].start == start
  }

  lemma StepKeepsHearing(s: State, l: Label, i: nat, start: nat)
    requires StillHears(s, i, start) && Enabled(s, l) && l != Unsubscribe(i)
    ensures StillHears(Step(s, l), i, start)
  {
    hide Run, Delivered;
    if l.Go? {
      GoLogs(s, l.t, l.n, l.giveUp);
    }
  }

  // Whoever subscribes hears exactly the events since then, as long as nobody
  // drops the subscription.
  lemma {:induction false} HearsEverythingSince(ls: seq<Label>, more: seq<Label>)
    requires After(ls).Some? && After(ls + [Subscribe] + more).Some?
    requires Unsubscribe(|After(ls).value.subs|) !in more
    ensures var s, s', i := After(ls).value, After(ls + [Subscribe] + more).value, |After(ls).value.subs|;
            && StillHears(s', i, |s.log|)
            && |s.log| <= |s'.log| && s'.subs[i].stream == s'.log[|s.log|..]
  {
    hide Run, Cyclic, LogInv;
    var i := |After(ls).value.subs|;
    if more == [] {
      assert ls + [Subscribe] + more == ls + [Subscribe];
      assert (ls + [Subscribe])[..|ls|] == ls;
    } else {
      var run, before := ls + [Subscribe] + more, more[..|more| - 1];
      assert run[..|run| - 1] == ls + [Subscribe] + before;
      assert run[|run| - 1] == more[|more| - 1];
      HearsEverythingSince(ls, before);
      StepKeepsHearing(After(ls + [Subscribe] + before).value, more[|more| - 1], i, |After(ls).value.log|);
    }
    LogInvariant(ls + [Subscribe] + more);
  }

  // The count never goes below zero: whoever decrements it is counted in it.
  lemma DecrementIsSafe(ls: seq<Label>, t: nat)
    requires After(ls).Some? && t < |After(ls).value.threads| && After(ls).value.threads[t].DecrLocked?
    ensures After(ls).value.online >= 1
  {
    hide After, LockInv, WantInv, WakeInv, CountedIn;
    Invariant(ls);
    CountedMember(After(ls).value.threads, t);
  }
}
