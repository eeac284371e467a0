/** Connection supervision as a labelled step system: the main thread refreshing
    the host list, and any number of connection threads, one per registered host,
    each counting itself and its sessions. One step per atomic operation or
    lock-protected section. */
module Supervision {
  import opened Common

  const MAX_HOSTS := 10

  // Where a connection thread stands; `Leaving` has left its retry loop.
  datatype Phase = Spawned | Dialing | Connected | Online | Leaving | Removed | Exited

  datatype Thread = Thread(host: Str, phase: Phase)

  datatype Main =
    | Idle
    | Fetching
    | Dealing(rest: seq<Str>)
    | Registered(host: Str, rest: seq<Str>)
    | Stopped

  datatype State = State(
    main: Main,
    hosts: set<Str>,
    min: nat,
    conn: int,
    online: int,
    threads: seq<Thread>,
    closed: bool,
    // History: every host ever offered for dialing, and the largest number of
    // spawned threads not yet counted when the main thread compared counts.
    offered: set<Str>,
    lag: nat)

  datatype Label =
    | Start(t: nat)
    | Dialed(t: nat)
    | Ready(t: nat)
    | SessionEnd(t: nat)
    | Quit(t: nat)
    | Unregister(t: nat)
    | Exit(t: nat)
    | FindTooFew
    | FetchFailed
    | Fetched(list: seq<Str>, reported: nat)
    | Insert
    | SpawnThread
    | Finish
    | Stop
    | Close

  function Init(): State { State(Fetching, {}, 1, 0, 0, [], false, {}, 0) }

  function Truncated(list: seq<Str>): (r: seq<Str>)
    ensures r <= list && |r| <= MAX_HOSTS && (r == list || |r| == MAX_HOSTS)
  {
    if |list| > MAX_HOSTS then list[..MAX_HOSTS] else list
  }

  // The new threshold: all the hosts unless the server reports something possible.
  function Threshold(available: nat, reported: nat): nat {
    if reported == 0 || reported > available then available else reported
  }

  predicate At(s: State, t: nat, phase: Phase) { t < |s.threads| && s.threads[t].phase == phase }

  predicate Enabled(s: State, l: Label) {
    match l
    case Start(t) => At(s, t, Spawned)
    case Dialed(t) => At(s, t, Dialing)
    case Ready(t) => At(s, t, Connected)
    case SessionEnd(t) => At(s, t, Connected) || At(s, t, Online)
    case Quit(t) => At(s, t, Dialing)
    case Unregister(t) => At(s, t, Leaving)
    case Exit(t) => At(s, t, Removed)
    case FindTooFew => s.main.Idle? && s.conn < s.min
    case FetchFailed => s.main.Fetching?
    case Fetched(_, _) => s.main.Fetching?
    case Insert => s.main.Dealing? && s.main.rest != []
    case SpawnThread => s.main.Registered?
    case Finish => s.main.Dealing? && (s.main.rest == [] || s.closed)
    case Stop => s.main.Idle? && s.closed
    case Close => true
  }

  function Move(s: State, t: nat, phase: Phase): State
    requires t < |s.threads|
  {
    s.(threads := s.threads[t := s.threads[t].(phase := phase)])
  }

  function ThreadStep(s: State, l: Label): State
    requires Enabled(s, l)
  {
    match l
    case Start(t) => Move(s, t, Dialing).(conn := s.conn + 1)
    case Dialed(t) => Move(s, t, Connected)
    case Ready(t) => Move(s, t, Online).(online := s.online + 1)
    case SessionEnd(t) =>
      Move(s, t, Dialing).(online := if s.threads[t].phase.Online? then s.online - 1 else s.online)
    case Quit(t) => Move(s, t, Leaving)
    case Unregister(t) => Move(s, t, Removed).(hosts := s.hosts - {s.threads[t].host})
    case Exit(t) => Move(s, t, Exited).(conn := s.conn - 1)
    case _ => s
  }

  function MainStep(s: State, l: Label): State
    requires Enabled(s, l)
  {
    match l
    case FindTooFew =>
      var uncounted := Tally(s.threads, BySpawned);
      s.(main := Fetching, lag := if uncounted > s.lag then uncounted else s.lag)
    case FetchFailed => s.(main := Idle)
    case Fetched(list, reported) =>
      var dealt := Truncated(list);
      s.(main := Dealing(dealt), min := Threshold(|dealt|, reported), offered := s.offered + Elements(dealt))
    case Insert =>
      var h, rest := s.main.rest[0], s.main.rest[1..];
      if h in s.hosts then s.(main := Dealing(rest))
      else s.(main := Registered(h, rest), hosts := s.hosts + {h})
    case SpawnThread =>
      s.(main := Dealing(s.main.rest), threads := s.threads + [Thread(s.main.host, Spawned)])
    case Finish => s.(main := Idle)
    case Stop => s.(main := Stopped)
    case Close => s.(closed := true)
    case _ => s
  }

  predicate ByThread(l: Label) {
    l.Start? || l.Dialed? || l.Ready? || l.SessionEnd? || l.Quit? || l.Unregister? || l.Exit?
  }

  function Step(s: State, l: Label): State
    requires Enabled(s, l)
  {
    if ByThread(l) then ThreadStep(s, l) else MainStep(s, l)
  }

  function After(ls: seq<Label>): Option<State> {
    if ls == [] then Some(Init())
    else
      var s := After(ls[..|ls| - 1]);
      if s.Some? && Enabled(s.value, ls[|ls| - 1]) then Some(Step(s.value, ls[|ls| - 1])) else None
  }

  function Elements(list: seq<Str>): set<Str> { set h | h in list }

  // ----- Tallies over the threads -------------------------------------------

  datatype Kind = ByHost(host: Str) | ByRegistered | BySpawned | ByConn | ByOnline | ByAlive | ByWork

  // Registered: from before the spawn until its own removal.
  predicate Keeps(phase: Phase) { !phase.Removed? && !phase.Exited? }

  // Steps to the end for a thread that dials no more.
  function WorkLeft(phase: Phase): nat {
    match phase
    case Exited => 0
    case Removed => 1
    case Leaving => 2
    case Dialing => 3
    case _ => 4
  }

  function Weight(th: Thread, k: Kind): nat {
    match k
    case ByHost(h) => if Keeps(th.phase) && th.host == h then 1 else 0
    case ByRegistered => if Keeps(th.phase) then 1 else 0
    case BySpawned => if th.phase.Spawned? then 1 else 0
    case ByConn => if th.phase.Spawned? || th.phase.Exited? then 0 else 1
    case ByOnline => if th.phase.Online? then 1 else 0
    case ByAlive => if th.phase.Exited? then 0 else 1
    case ByWork => WorkLeft(th.phase)
  }

  function Tally(threads: seq<Thread>, k: Kind): nat {
    if threads == [] then 0 else Tally(threads[..|threads| - 1], k) + Weight(threads[|threads| - 1], k)
  }

  lemma {:induction false} TallyUpdate(threads: seq<Thread>, t: nat, th: Thread, k: Kind)
    requires t < |threads|
    ensures Tally(threads[t := th], k) - Tally(threads, k) == Weight(th, k) - Weight(threads[t], k)
  {
    hide Weight;
    var n := |threads| - 1;
    if t < n {
      TallyUpdate(threads[..n], t, th, k);
      assert threads[t := th][..n] == threads[..n][t := th];
    } else {
      assert threads[t := th][..n] == threads[..n];
    }
  }

  lemma TallyPush(threads: seq<Thread>, th: Thread, k: Kind)
    ensures Tally(threads + [th], k) == Tally(threads, k) + Weight(th, k)
  {
    hide Weight;
    assert (threads + [th])[..|threads|] == threads;
  }

  lemma {:induction false} TallyOrder(threads: seq<Thread>)
    ensures Tally(threads, ByOnline) <= Tally(threads, ByConn)
    ensures Tally(threads, ByOnline) <= Tally(threads, ByRegistered)
    ensures Tally(threads, ByConn) <= Tally(threads, ByWork)
    ensures Tally(threads, ByConn) + Tally(threads, BySpawned) == Tally(threads, ByAlive)
  {
    if threads != [] {
      TallyOrder(threads[..|threads| - 1]);
    }
  }

  lemma {:induction false} TallyMember(threads: seq<Thread>, t: nat, k: Kind)
    requires t < |threads|
    ensures Tally(threads, k) >= Weight(threads[t], k)
  {
    hide Weight;
    if t < |threads| - 1 {
      TallyMember(threads[..|threads| - 1], t, k);
    }
  }

  lemma {:induction false} TallyTwo(threads: seq<Thread>, i: nat, j: nat, k: Kind)
    requires i < j < |threads|
    ensures Tally(threads, k) >= Weight(threads[i], k) + Weight(threads[j], k)
  {
    hide Weight;
    var front := threads[..|threads| - 1];
    if j < |front| {
      TallyTwo(front, i, j, k);
    } else {
      TallyMember(front, i, k);
    }
  }

  lemma {:induction false} TallyFound(threads: seq<Thread>, k: Kind) returns (t: nat)
    requires Tally(threads, k) > 0
    ensures t < |threads| && Weight(threads[t], k) > 0
  {
    hide Weight;
    var n := |threads| - 1;
    if Weight(threads[n], k) > 0 {
      t := n;
    } else {
      t := TallyFound(threads[..n], k);
    }
  }

  // ----- Invariant ----------------------------------------------------------

  function Pending(main: Main, h: Str): nat { if main.Registered? && main.host == h then 1 else 0 }

  // A host is in the registry exactly while one thread answers for it, or the
  // main thread is about to spawn that thread.
  ghost predicate HostsInv(s: State) {
    forall h :: Tally(s.threads, ByHost(h)) + Pending(s.main, h) == if h in s.hosts then 1 else 0
  }

  ghost predicate CountsInv(s: State) {
    s.conn == Tally(s.threads, ByConn) && s.online == Tally(s.threads, ByOnline)
  }

  // How many threads the main thread may still spawn before comparing again.
  function Room(main: Main): nat {
    match main
    case Idle => 0
    case Fetching => MAX_HOSTS
    case Dealing(rest) => |rest|
    case Registered(_, rest) => 1 + |rest|
    case Stopped => 0
  }

  ghost predicate CapInv(s: State) {
    && s.min <= MAX_HOSTS
    && Tally(s.threads, ByAlive) + Room(s.main) <= 2 * MAX_HOSTS - 1 + s.lag
  }

  ghost predicate OfferedInv(s: State) {
    && s.hosts <= s.offered
    && (s.main.Dealing? || s.main.Registered? ==> Elements(s.main.rest) <= s.offered)
  }

  ghost predicate Inv(s: State) { HostsInv(s) && CountsInv(s) && CapInv(s) && OfferedInv(s) }

  lemma ThreadKeepsHosts(s: State, l: Label)
    requires HostsInv(s) && Enabled(s, l) && ByThread(l)
    ensures HostsInv(ThreadStep(s, l))
  {
    hide Tally;
    var s' := ThreadStep(s, l);
    forall h ensures Tally(s'.threads, ByHost(h)) + Pending(s'.main, h) == if h in s'.hosts then 1 else 0 {
      TallyUpdate(s.threads, l.t, s'.threads[l.t], ByHost(h));
      TallyMember(s.threads, l.t, ByHost(h));
    }
  }

  lemma ThreadKeepsCounts(s: State, l: Label)
    requires CountsInv(s) && CapInv(s) && Enabled(s, l) && ByThread(l)
    ensures CountsInv(ThreadStep(s, l)) && CapInv(ThreadStep(s, l))
  {
    hide Tally;
    var th := ThreadStep(s, l).threads[l.t];
    TallyUpdate(s.threads, l.t, th, ByConn);
    TallyUpdate(s.threads, l.t, th, ByOnline);
    TallyUpdate(s.threads, l.t, th, ByAlive);
  }

  lemma MainKeepsHosts(s: State, l: Label)
    requires HostsInv(s) && Enabled(s, l) && !ByThread(l)
    ensures HostsInv(MainStep(s, l))
  {
    hide Tally, Elements;
    var s' := MainStep(s, l);
    forall h ensures Tally(s'.threads, ByHost(h)) + Pending(s'.main, h) == if h in s'.hosts then 1 else 0 {
      assert Tally(s.threads, ByHost(h)) + Pending(s.main, h) == if h in s.hosts then 1 else 0;
      if l.SpawnThread? {
        TallyPush(s.threads, Thread(s.main.host, Spawned), ByHost(h));
      }
    }
  }

  lemma MainKeepsCounts(s: State, l: Label)
    requires CountsInv(s) && CapInv(s) && Enabled(s, l) && !ByThread(l)
    ensures CountsInv(MainStep(s, l)) && CapInv(MainStep(s, l))
  {
    hide Tally, Elements;
    TallyOrder(s.threads);
    if l.SpawnThread? {
      var th := Thread(s.main.host, Spawned);
      TallyPush(s.threads, th, ByConn);
      TallyPush(s.threads, th, ByOnline);
      TallyPush(s.threads, th, ByAlive);
    }
  }

  lemma StepKeepsInv(s: State, l: Label)
    requires Inv(s) && Enabled(s, l)
    ensures Inv(Step(s, l))
  {
    hide HostsInv, CountsInv, CapInv, Tally;
    if ByThread(l) {
      ThreadKeepsHosts(s, l);
      ThreadKeepsCounts(s, l);
    } else {
      MainKeepsHosts(s, l);
      MainKeepsCounts(s, l);
    }
  }

  lemma {:induction false} Invariant(ls: seq<Label>)
    requires After(ls).Some?
    ensures Inv(After(ls).value)
  {
    hide Enabled, Step;
    if ls != [] {
      hide Inv;
      Invariant(ls[..|ls| - 1]);
      StepKeepsInv(After(ls[..|ls| - 1]).value, ls[|ls| - 1]);
    }
  }

  // ----- What the invariant means -------------------------------------------

  // In every interleaving: the registry is exactly the hosts of registered
  // threads and the one about to be spawned; no two registered threads share a
  // host, so at most one is dialing it; both counters are exact, so neither ever
  // drops below zero, and sessions online never exceed connections.
  lemma Supervised(ls: seq<Label>)
    requires After(ls).Some?
    ensures var s := After(ls).value;
            && (forall h :: h in s.hosts <==>
                  || (s.main.Registered? && s.main.host == h)
                  || exists t :: 0 <= t < |s.threads| && Keeps(s.threads[t].phase) && s.threads[t].host == h)
            && (forall i, j :: 0 <= i < j < |s.threads| && Keeps(s.threads[i].phase) && Keeps(s.threads[j].phase)
                  ==> s.threads[i].host != s.threads[j].host)
            && s.conn == Tally(s.threads, ByConn) && s.online == Tally(s.threads, ByOnline)
            && 0 <= s.online <= s.conn
  {
    hide After, Tally;
    Invariant(ls);
    var s := After(ls).value;
    TallyOrder(s.threads);
    forall h
      ensures h in s.hosts <==>
          || (s.main.Registered? && s.main.host == h)
          || exists t :: 0 <= t < |s.threads| && Keeps(s.threads[t].phase) && s.threads[t].host == h
    {
      assert Tally(s.threads, ByHost(h)) + Pending(s.main, h) == if h in s.hosts then 1 else 0;
      if Tally(s.threads, ByHost(h)) > 0 {
        var t := TallyFound(s.threads, ByHost(h));
      } else {
        NoneFound(s.threads, h);
      }
    }
    forall i, j | 0 <= i < j < |s.threads| && Keeps(s.threads[i].phase) && Keeps(s.threads[j].phase)
      ensures s.threads[i].host != s.threads[j].host
    {
      TallyTwo(s.threads, i, j, ByHost(s.threads[i].host));
      assert Tally(s.threads, ByHost(s.threads[i].host)) <= 1;
    }
  }

  lemma NoneFound(threads: seq<Thread>, h: Str)
    requires Tally(threads, ByHost(h)) == 0
    ensures forall t :: 0 <= t < |threads| && Keeps(threads[t].phase) ==> threads[t].host != h
  {
    hide Tally;
    forall t | 0 <= t < |threads| && Keeps(threads[t].phase) ensures threads[t].host != h {
      TallyMember(threads, t, ByHost(h));
    }
  }

  // Whatever lists the server returns, connections stay within nineteen plus the
  // threads that were spawned but uncounted when the main thread compared counts.
  lemma ConnectionCap(ls: seq<Label>)
    requires After(ls).Some?
    ensures var s := After(ls).value;
            s.min <= MAX_HOSTS && s.conn <= Tally(s.threads, ByAlive) <= 19 + s.lag
  {
    hide After, Tally;
    Invariant(ls);
    TallyOrder(After(ls).value.threads);
  }

  // A refresh asks for no more than it was offered, and for something whenever
  // it was offered anything.
  lemma ThresholdRange(s: State, list: seq<Str>, reported: nat)
    requires Enabled(s, Fetched(list, reported))
    ensures var min := Step(s, Fetched(list, reported)).min;
            && min <= MAX_HOSTS && min <= |list| && (min == 0 <==> list == [])
            && (1 <= reported <= MAX_HOSTS && reported <= |list| ==> min == reported)
            && (reported == 0 || reported > |list| || reported > MAX_HOSTS ==>
                  min == if |list| < MAX_HOSTS then |list| else MAX_HOSTS)
  {
    hide Elements;
  }

  // ----- The empty host list ------------------------------------------------

  predicate Stuck(s: State) {
    s.min == 0 && (s.main.Idle? || s.main.Stopped? || s.main == Dealing([]))
  }

  lemma StuckStep(s: State, l: Label)
    requires Stuck(s) && s.conn >= 0 && Enabled(s, l)
    ensures Stuck(Step(s, l)) && |Step(s, l).threads| == |s.threads|
    ensures !l.FindTooFew? && !l.Fetched? && !l.FetchFailed? && !l.SpawnThread?
  {
    hide Tally, Elements;
  }

  // After an empty host list the client never fetches or spawns again.
  lemma {:induction false} EmptyListIsFinal(ls: seq<Label>, reported: nat, more: seq<Label>)
    requires After(ls).Some? && After(ls).value.main.Fetching? && After(ls + [Fetched([], reported)] + more).Some?
    ensures var s, s' := After(ls).value, After(ls + [Fetched([], reported)] + more).value;
            && Stuck(s') && |s'.threads| == |s.threads|
            && forall i :: 0 <= i < |more| ==>
                 !more[i].FindTooFew? && !more[i].Fetched? && !more[i].FetchFailed? && !more[i].SpawnThread?
  {
    hide Step, Enabled, Inv;
    var all := ls + [Fetched([], reported)] + more;
    if more == [] {
      assert all[..|all| - 1] == ls;
      EmptyListSticks(After(ls).value, reported);
    } else {
      var front := more[..|more| - 1];
      assert all[..|all| - 1] == ls + [Fetched([], reported)] + front;
      EmptyListIsFinal(ls, reported, front);
      NonNegative(all[..|all| - 1]);
      StuckStep(After(all[..|all| - 1]).value, all[|all| - 1]);
    }
  }

  lemma EmptyListSticks(s: State, reported: nat)
    requires Enabled(s, Fetched([], reported))
    ensures Stuck(Step(s, Fetched([], reported))) && Step(s, Fetched([], reported)).threads == s.threads
  {
  }

  lemma NonNegative(ls: seq<Label>)
    requires After(ls).Some?
    ensures After(ls).value.conn >= 0 && After(ls).value.online >= 0
  {
    hide After, Tally, HostsInv, CapInv, OfferedInv;
    Invariant(ls);
  }

  // ----- Whether enough connections can come online -------------------------

  function RegisteredHosts(threads: seq<Thread>): set<Str> {
    if threads == [] then {}
    else
      var last := threads[|threads| - 1];
      RegisteredHosts(threads[..|threads| - 1]) + if Keeps(last.phase) then {last.host} else {}
  }

  lemma {:induction false} RegisteredCount(threads: seq<Thread>)
    requires forall h :: Tally(threads, ByHost(h)) <= 1
    ensures |RegisteredHosts(threads)| == Tally(threads, ByRegistered)
    ensures forall h :: h in RegisteredHosts(threads) ==> Tally(threads, ByHost(h)) == 1
  {
    if threads != [] {
      var front, last := threads[..|threads| - 1], threads[|threads| - 1];
      forall h ensures Tally(front, ByHost(h)) <= 1 {
        assert Tally(threads, ByHost(h)) <= 1;
      }
      RegisteredCount(front);
      assert Tally(threads, ByHost(last.host)) <= 1;
    }
  }

  // No more connections are ever online than hosts were offered.
  lemma OnlineWithinOffered(ls: seq<Label>)
    requires After(ls).Some?
    ensures After(ls).value.online <= |After(ls).value.hosts| <= |After(ls).value.offered|
  {
    hide After, Tally;
    Invariant(ls);
    var s := After(ls).value;
    TallyOrder(s.threads);
    forall h ensures Tally(s.threads, ByHost(h)) <= 1 {
      assert Tally(s.threads, ByHost(h)) + Pending(s.main, h) == if h in s.hosts then 1 else 0;
    }
    RegisteredCount(s.threads);
    assert RegisteredHosts(s.threads) <= s.hosts;
    SubsetSize(RegisteredHosts(s.threads), s.hosts);
    SubsetSize(s.hosts, s.offered);
  }

  lemma SubsetSize<T>(a: set<T>, b: set<T>)
    requires a <= b
    ensures |a| <= |b|
  {
    assert b == a + (b - a);
  }

  predicate Distinct(list: seq<Str>) { forall i, j :: 0 <= i < j < |list| ==> list[i] != list[j] }

  lemma {:induction false} DistinctSize(list: seq<Str>)
    ensures |Elements(list)| <= |list|
    ensures |Elements(list)| == |list| <==> Distinct(list)
  {
    if list != [] {
      var front, last := list[..|list| - 1], list[|list| - 1];
      DistinctSize(front);
      assert list == front + [last];
      assert Elements(list) == Elements(front) + {last};
      if last in front {
        var i :| 0 <= i < |front| && front[i] == last;
        assert list[i] == last;
      } else {
        assert forall i, j :: 0 <= i < j < |front| ==> list[i] == front[i] && list[j] == front[j];
      }
    }
  }

  // What `wait_online` waits for.
  predicate EnoughOnline(s: State) { s.online >= s.min && s.online >= 1 }

  lemma OfferedStep(s: State, l: Label)
    requires Enabled(s, l)
    ensures !l.Fetched? ==> Step(s, l).offered == s.offered && Step(s, l).min == s.min
    ensures l.Fetched? ==>
              && Step(s, l).offered == s.offered + Elements(Truncated(l.list))
              && Step(s, l).min == Threshold(|Truncated(l.list)|, l.reported)
  {
    hide Tally, Elements, Threshold, Truncated;
  }

  predicate Refreshes(ls: seq<Label>) { exists i :: 0 <= i < |ls| && ls[i].Fetched? }

  // Every refresh in the run got this answer.
  predicate Always(ls: seq<Label>, list: seq<Str>, reported: nat) {
    forall i :: 0 <= i < |ls| && ls[i].Fetched? ==> ls[i] == Fetched(list, reported)
  }

  lemma {:induction false} OfferedOnly(ls: seq<Label>, list: seq<Str>, reported: nat)
    requires After(ls).Some? && Always(ls, list, reported)
    ensures After(ls).value.offered <= Elements(Truncated(list))
    ensures Refreshes(ls) ==> After(ls).value.min == Threshold(|Truncated(list)|, reported)
  {
    hide Elements, Threshold, Truncated, Step, Enabled;
    if ls != [] {
      var front, last := ls[..|ls| - 1], ls[|ls| - 1];
      assert ls == front + [last];
      OfferedOnly(front, list, reported);
      OfferedStep(After(front).value, last);
      if !last.Fetched? && Refreshes(ls) {
        var i :| 0 <= i < |ls| && ls[i].Fetched?;
        assert front[i].Fetched?;
      }
    }
  }

  lemma ThresholdWithin(list: seq<Str>, reported: nat)
    ensures var dealt := Truncated(list); var min := Threshold(|dealt|, reported);
            1 <= (if min == 0 then 1 else min) <= |Elements(dealt)|
            <==> list != [] && (Distinct(dealt) || 1 <= reported <= |Elements(dealt)|)
  {
    hide Elements, Distinct;
    var dealt := Truncated(list);
    DistinctSize(dealt);
    if dealt != [] {
      assert dealt[0] in Elements(dealt) by { InElements(dealt, 0); }
      assert |Elements(dealt)| >= 1;
    }
  }

  lemma InElements(list: seq<Str>, i: nat)
    requires i < |list|
    ensures list[i] in Elements(list)
  {
  }

  // ----- Runs that bring connections online ---------------------------------

  lemma Extend(ls: seq<Label>, l: Label)
    requires After(ls).Some? && Enabled(After(ls).value, l)
    ensures After(ls + [l]) == Some(Step(After(ls).value, l))
  {
    hide Step, Enabled;
    assert (ls + [l])[..|ls|] == ls;
  }

  // The labels that take a new thread through dialing and handshake.
  function ComeOnline(t: nat): (ls: seq<Label>)
    ensures !Refreshes(ls)
  {
     [Insert, SpawnThread, Start(t), Dialed(t), Ready(t)]
  }

  lemma OneOnline(ls: seq<Label>)
    requires After(ls).Some?
    requires var s := After(ls).value; s.main.Dealing? && s.main.rest != [] && s.main.rest[0] !in s.hosts
    ensures var s := After(ls).value;
            var t := |s.threads|;
            After(ls + ComeOnline(t)) == Some(s.(main := Dealing(s.main.rest[1..]), hosts := s.hosts + {s.main.rest[0]},
              conn := s.conn + 1, online := s.online + 1, threads := s.threads + [Thread(s.main.rest[0], Online)]))
  {
    hide After, Tally, Elements;
    var s := After(ls).value;
    var t, h := |s.threads|, s.main.rest[0];
    var a := ls + [Insert];
    Extend(ls, Insert);
    var b := a + [SpawnThread];
    Extend(a, SpawnThread);
    var c := b + [Start(t)];
    Extend(b, Start(t));
    assert (s.threads + [Thread(h, Spawned)])[t := Thread(h, Dialing)] == s.threads + [Thread(h, Dialing)];
    var d := c + [Dialed(t)];
    Extend(c, Dialed(t));
    assert (s.threads + [Thread(h, Dialing)])[t := Thread(h, Connected)] == s.threads + [Thread(h, Connected)];
    Extend(d, Ready(t));
    assert (s.threads + [Thread(h, Connected)])[t := Thread(h, Online)] == s.threads + [Thread(h, Online)];
    assert ls + ComeOnline(t) == d + [Ready(t)];
  }

  // From ls, `more` deals with `rest` and brings every new host online.
  ghost predicate Deals(ls: seq<Label>, rest: seq<Str>, more: seq<Label>)
    requires After(ls).Some?
  {
    && After(ls + more).Some? && !Refreshes(more)
    && var s, s' := After(ls).value, After(ls + more).value;
       var added := |Elements(rest) - s.hosts|;
       && s'.main == Dealing([]) && s'.min == s.min && s'.lag == s.lag
       && s'.hosts == s.hosts + Elements(rest)
       && s'.conn == s.conn + added && s'.online == s.online + added
       && s.threads <= s'.threads
       && forall i :: |s.threads| <= i < |s'.threads| ==> s'.threads[i].phase.Online?
  }

  lemma {:induction false} DealAll(ls: seq<Label>, rest: seq<Str>) returns (more: seq<Label>)
    requires After(ls).Some? && After(ls).value.main == Dealing(rest)
    ensures Deals(ls, rest, more)
    decreases |rest|
  {
    hide After, Step, Enabled, Elements, ComeOnline, Refreshes;
    var s := After(ls).value;
    if rest == [] {
      more := [];
      assert !Refreshes([]) by { NothingRefreshes(); }
      assert ls + [] == ls;
      assert Elements([]) == {} by { NoElements(); }
    } else if rest[0] in s.hosts {
      SkipRegistered(ls);
      var others := DealAll(ls + [Insert], rest[1..]);
      more := [Insert] + others;
      NoRefresh([Insert], others);
      assert ls + more == ls + [Insert] + others;
      SplitElements(rest, s.hosts);
    } else {
      OneOnline(ls);
      var first := ComeOnline(|s.threads|);
      var others := DealAll(ls + first, rest[1..]);
      more := first + others;
      NoRefresh(first, others);
      assert ls + more == ls + first + others;
      SplitElements(rest, s.hosts);
    }
  }

  lemma NothingRefreshes()
    ensures !Refreshes([])
  {
  }

  lemma NoRefresh(a: seq<Label>, b: seq<Label>)
    requires (a == [Insert] || !Refreshes(a)) && !Refreshes(b)
    ensures !Refreshes(a + b)
  {
  }

  lemma NoElements()
    ensures Elements([]) == {}
  {
  }

  lemma SkipRegistered(ls: seq<Label>)
    requires After(ls).Some?
    requires var s := After(ls).value; s.main.Dealing? && s.main.rest != [] && s.main.rest[0] in s.hosts
    ensures var s := After(ls).value; After(ls + [Insert]) == Some(s.(main := Dealing(s.main.rest[1..])))
  {
    hide After, Tally, Elements;
    Extend(ls, Insert);
  }

  lemma SplitElements(rest: seq<Str>, hosts: set<Str>)
    requires rest != []
    ensures hosts + {rest[0]} + Elements(rest[1..]) == hosts + Elements(rest)
    ensures rest[0] in hosts ==> Elements(rest[1..]) - hosts == Elements(rest) - hosts
    ensures rest[0] !in hosts ==> |Elements(rest) - hosts| == 1 + |Elements(rest[1..]) - (hosts + {rest[0]})|
  {
    assert rest == [rest[0]] + rest[1..];
    if rest[0] !in hosts {
      assert Elements(rest) - hosts == {rest[0]} + (Elements(rest[1..]) - (hosts + {rest[0]}));
    }
  }

  // The server keeps giving this answer; can the wait for it ever end?
  ghost predicate CanSatisfyWait(list: seq<Str>, reported: nat) {
    exists ls :: After(ls).Some? && Always(ls, list, reported) && Refreshes(ls) && EnoughOnline(After(ls).value)
  }

  lemma FirstRefresh(list: seq<Str>, reported: nat)
    ensures var dealt := Truncated(list);
            var s := Init().(main := Dealing(dealt), min := Threshold(|dealt|, reported), offered := Elements(dealt));
            After([Fetched(list, reported)]) == Some(s)
  {
    hide Elements, Truncated, Threshold, Tally;
    assert After([]) == Some(Init());
    hide After;
    Extend([], Fetched(list, reported));
    assert [] + [Fetched(list, reported)] == [Fetched(list, reported)];
    assert {} + Elements(Truncated(list)) == Elements(Truncated(list));
  }

  lemma WaitEnds(list: seq<Str>, reported: nat) returns (ls: seq<Label>)
    ensures After(ls).Some? && Always(ls, list, reported) && Refreshes(ls)
    ensures var s := After(ls).value;
            && s.main == Dealing([]) && s.lag == 0 && s.min == Threshold(|Truncated(list)|, reported)
            && s.hosts == Elements(Truncated(list)) && s.conn == s.online == |Elements(Truncated(list))|
            && forall i :: 0 <= i < |s.threads| ==> s.threads[i].phase.Online?
  {
    hide Elements, Truncated, Threshold, After, Step, Enabled;
    var first := Fetched(list, reported);
    FirstRefresh(list, reported);
    var more := DealAll([first], Truncated(list));
    ls := [first] + more;
    assert ls[0].Fetched?;
    assert Elements(Truncated(list)) - {} == Elements(Truncated(list));
  }

  // The threshold is capped by the length of the host list so that the wait can
  // be satisfied. It can exactly when a host is listed and either no host is
  // listed twice or the server reports at most the number of different hosts.
  lemma WaitSatisfiable(list: seq<Str>, reported: nat)
    ensures CanSatisfyWait(list, reported)
       <==> list != [] && (Distinct(Truncated(list)) || 1 <= reported <= |Elements(Truncated(list))|)
  {
    hide After, Elements, Truncated, Threshold, Distinct, Always, Refreshes;
    ThresholdWithin(list, reported);
    var ls := WaitEnds(list, reported);
    forall ls | After(ls).Some? && Always(ls, list, reported) && Refreshes(ls) && EnoughOnline(After(ls).value)
      ensures After(ls).value.min <= |Elements(Truncated(list))| && 1 <= |Elements(Truncated(list))|
      ensures After(ls).value.min == Threshold(|Truncated(list)|, reported)
    {
      OfferedOnly(ls, list, reported);
      OnlineWithinOffered(ls);
      SubsetSize(After(ls).value.offered, Elements(Truncated(list)));
    }
  }

  // A host listed twice and no reported number: the wait never ends.
  lemma DuplicateHostDefeatsWait(h: Str)
    ensures !CanSatisfyWait([h, h], 0)
  {
    var list := [h, h];
    assert Truncated(list) == list && list[0] == list[1];
    WaitSatisfiable(list, 0);
  }

  // ----- Whether another refresh can come -----------------------------------

  // The main thread can be brought to fetch (again) by some further steps.
  ghost predicate CanFetch(ls: seq<Label>) {
    exists more :: After(ls + more).Some? && After(ls + more).value.main.Fetching?
  }

  // From ls, `more` neither closes the client nor brings an answer, and keeps the threshold.
  ghost predicate Leads(ls: seq<Label>, more: seq<Label>)
    requires After(ls).Some?
  {
    && After(ls + more).Some?
    && After(ls + more).value.min == After(ls).value.min
    && (forall i :: 0 <= i < |more| ==> !more[i].Close? && !more[i].Fetched?)
  }

  lemma LeadsOn(ls: seq<Label>, a: seq<Label>, b: seq<Label>)
    requires After(ls).Some? && Leads(ls, a) && Leads(ls + a, b)
    ensures Leads(ls, a + b) && After(ls + (a + b)) == After(ls + a + b)
  {
    hide After;
    assert ls + (a + b) == ls + a + b;
  }

  lemma LeadsOne(ls: seq<Label>, l: Label)
    requires After(ls).Some? && Enabled(After(ls).value, l) && !l.Close? && !l.Fetched?
    ensures Leads(ls, [l]) && After(ls + [l]) == Some(Step(After(ls).value, l))
  {
    hide After, Step, Enabled;
    Extend(ls, l);
    OfferedStep(After(ls).value, l);
  }

  function Rest(main: Main): nat {
    match main
    case Dealing(rest) => 2 * |rest| + 1
    case Registered(_, rest) => 2 * |rest| + 2
    case _ => 0
  }

  // What the main thread does next while it deals with a list.
  function NextDeal(main: Main): Label
    requires main.Dealing? || main.Registered?
  {
    if main.Registered? then SpawnThread else if main.rest != [] then Insert else Finish
  }

  lemma DealStep(s: State)
    requires s.main.Dealing? || s.main.Registered?
    ensures Enabled(s, NextDeal(s.main))
    ensures var s' := Step(s, NextDeal(s.main));
            Rest(s'.main) < Rest(s.main) && (s'.main.Dealing? || s'.main.Registered? || s'.main.Idle?)
  {
    hide Tally, Elements;
  }

  // The main thread gets through its list.
  lemma {:induction false} GetsIdle(ls: seq<Label>) returns (more: seq<Label>)
    requires After(ls).Some?
    requires var main := After(ls).value.main; main.Dealing? || main.Registered? || main.Idle?
    ensures Leads(ls, more) && After(ls + more).value.main.Idle?
    decreases Rest(After(ls).value.main)
  {
    hide After, Step, Enabled, Leads;
    var s := After(ls).value;
    if s.main.Idle? {
      more := [];
      LeadsNowhere(ls);
    } else {
      var l := NextDeal(s.main);
      DealStep(s);
      LeadsOne(ls, l);
      var others := GetsIdle(ls + [l]);
      more := [l] + others;
      LeadsOn(ls, [l], others);
    }
  }

  lemma LeadsNowhere(ls: seq<Label>)
    requires After(ls).Some?
    ensures Leads(ls, []) && ls + [] == ls
  {
    hide After;
    assert ls + [] == ls;
  }

  // The next step of thread t on its way out.
  function NextOut(t: nat, phase: Phase): Label
    requires !phase.Exited?
  {
    match phase
    case Spawned => Start(t)
    case Dialing => Quit(t)
    case Connected => SessionEnd(t)
    case Online => SessionEnd(t)
    case Leaving => Unregister(t)
    case Removed => Exit(t)
  }

  lemma OutStep(s: State, t: nat)
    requires t < |s.threads| && !s.threads[t].phase.Exited?
    ensures Enabled(s, NextOut(t, s.threads[t].phase))
    ensures var s' := Step(s, NextOut(t, s.threads[t].phase));
            Tally(s'.threads, ByWork) < Tally(s.threads, ByWork) && s'.main == s.main
  {
    hide Tally;
    var s' := Step(s, NextOut(t, s.threads[t].phase));
    TallyUpdate(s.threads, t, s'.threads[t], ByWork);
  }

  // Every connection thread can fail until it leaves.
  lemma {:induction false} AllLeave(ls: seq<Label>) returns (more: seq<Label>)
    requires After(ls).Some?
    ensures Leads(ls, more) && After(ls + more).value.main == After(ls).value.main
    ensures Tally(After(ls + more).value.threads, ByWork) == 0
    decreases Tally(After(ls).value.threads, ByWork)
  {
    hide After, Step, Enabled, Leads, Tally;
    var s := After(ls).value;
    if Tally(s.threads, ByWork) == 0 {
      more := [];
      LeadsNowhere(ls);
    } else {
      var t := TallyFound(s.threads, ByWork);
      var l := NextOut(t, s.threads[t].phase);
      OutStep(s, t);
      LeadsOne(ls, l);
      var others := AllLeave(ls + [l]);
      more := [l] + others;
      LeadsOn(ls, [l], others);
    }
  }

  // The main thread stops only once the client is closed.
  lemma {:induction false} OpenNotStopped(ls: seq<Label>)
    requires After(ls).Some? && After(ls).value.main.Stopped?
    ensures After(ls).value.closed
  {
    hide Step, Enabled;
    if ls != [] {
      var front := ls[..|ls| - 1];
      if After(front).value.main.Stopped? {
        OpenNotStopped(front);
      }
      StopsOnlyClosed(After(front).value, ls[|ls| - 1]);
    }
  }

  // Unless the client is closed or the threshold is zero, losing connections can
  // always bring the main thread to fetch again.
  lemma Refetches(ls: seq<Label>) returns (more: seq<Label>)
    requires After(ls).Some? && !After(ls).value.closed && After(ls).value.min >= 1
    ensures Leads(ls, more) && After(ls + more).value.main.Fetching?
  {
    hide After, Step, Enabled, Leads, Tally;
    if After(ls).value.main.Fetching? {
      more := [];
      LeadsNowhere(ls);
    } else {
      if After(ls).value.main.Stopped? {
        OpenNotStopped(ls);
      }
      var a := GetsIdle(ls);
      KeepsThreshold(ls, a);
      var b := AllLeave(ls + a);
      LeadsOn(ls, a, b);
      KeepsThreshold(ls, a + b);
      NobodyConnected(ls + a + b);
      LeadsOne(ls + (a + b), FindTooFew);
      LeadsOn(ls, a + b, [FindTooFew]);
      more := a + b + [FindTooFew];
      assert ls + more == ls + (a + b) + [FindTooFew];
    }
  }

  lemma KeepsThreshold(ls: seq<Label>, more: seq<Label>)
    requires After(ls).Some? && Leads(ls, more)
    ensures After(ls + more).Some? && After(ls + more).value.min == After(ls).value.min
  {
    hide After;
  }

  lemma NobodyConnected(ls: seq<Label>)
    requires After(ls).Some? && Tally(After(ls).value.threads, ByWork) == 0
    requires After(ls).value.main.Idle? && After(ls).value.min >= 1
    ensures Enabled(After(ls).value, FindTooFew)
    ensures Step(After(ls).value, FindTooFew).main.Fetching?
  {
    hide After, Tally, HostsInv, CapInv, OfferedInv;
    Invariant(ls);
    TallyOrder(After(ls).value.threads);
  }

  lemma {:induction false} ThresholdSince(ls: seq<Label>, l: Label, more: seq<Label>)
    requires l.Fetched? && !Refreshes(more)
    requires After(ls).Some? && After(ls).value.main.Fetching? && After(ls + [l] + more).Some?
    ensures After(ls + [l] + more).value.min == Threshold(|Truncated(l.list)|, l.reported)
  {
    hide Step, Enabled, Threshold, Truncated;
    var all := ls + [l] + more;
    if more == [] {
      assert all[..|all| - 1] == ls && all[|all| - 1] == l;
      OfferedStep(After(ls).value, l);
    } else {
      var front, last := more[..|more| - 1], more[|more| - 1];
      assert all[..|all| - 1] == ls + [l] + front && all[|all| - 1] == last;
      assert !Refreshes(front) by {
        forall i | 0 <= i < |front| ensures !front[i].Fetched? {
          assert front[i] == more[i];
        }
      }
      ThresholdSince(ls, l, front);
      OfferedStep(After(ls + [l] + front).value, last);
    }
  }

  lemma StopsOnlyClosed(s: State, l: Label)
    requires Enabled(s, l) && (s.main.Stopped? ==> s.closed)
    ensures Step(s, l).main.Stopped? ==> Step(s, l).closed
  {
    hide Tally, Elements, Threshold, Truncated;
  }

  // After a host list has been fetched, and as long as the client stays open,
  // another fetch can come if and only if that list was not empty.
  lemma RefetchExactly(ls: seq<Label>, list: seq<Str>, reported: nat, more: seq<Label>)
    requires After(ls).Some? && After(ls).value.main.Fetching? && !Refreshes(more)
    requires After(ls + [Fetched(list, reported)] + more).Some?
    requires !After(ls + [Fetched(list, reported)] + more).value.closed
    ensures CanFetch(ls + [Fetched(list, reported)] + more) <==> list != []
  {
    hide After, Step, Refreshes, Leads;
    var now := ls + [Fetched(list, reported)] + more;
    ThresholdSince(ls, Fetched(list, reported), more);
    if list != [] {
      var next := Refetches(now);
      KeepsThreshold(now, next);
    } else {
      forall next ensures !(After(now + next).Some? && After(now + next).value.main.Fetching?) {
        if After(now + next).Some? {
          assert now + next == ls + [Fetched([], reported)] + (more + next);
          EmptyListIsFinal(ls, reported, more + next);
        }
      }
    }
  }

  // Until a first answer the threshold is one, so a failed first fetch is retried.
  lemma {:induction false} FirstThreshold(ls: seq<Label>)
    requires After(ls).Some? && !Refreshes(ls)
    ensures After(ls).value.min == 1
  {
    hide Step, Enabled;
    if ls != [] {
      var front, l := ls[..|ls| - 1], ls[|ls| - 1];
      assert !Refreshes(front) by {
        forall i | 0 <= i < |front| ensures !front[i].Fetched? {
          assert ls[i] == front[i];
        }
      }
      FirstThreshold(front);
      OfferedStep(After(front).value, l);
    }
  }

  lemma FirstFetchIsRetried(ls: seq<Label>)
    requires After(ls).Some? && !Refreshes(ls) && !After(ls).value.closed
    ensures CanFetch(ls)
  {
    hide After, Refreshes, Leads;
    FirstThreshold(ls);
    var more := Refetches(ls);
    KeepsThreshold(ls, more);
  }

  // ----- Closing ------------------------------------------------------------

  lemma CloseStep(ls: seq<Label>)
    requires After(ls).Some?
    ensures After(ls + [Close]) == Some(After(ls).value.(closed := true))
  {
    hide After;
    Extend(ls, Close);
  }

  lemma AbandonsFetch(ls: seq<Label>)
    requires After(ls).Some? && After(ls).value.main.Fetching?
    ensures Leads(ls, [FetchFailed]) && After(ls + [FetchFailed]) == Some(After(ls).value.(main := Idle))
  {
    hide After;
    LeadsOne(ls, FetchFailed);
  }

  lemma {:induction false} ClosedStays(ls: seq<Label>, more: seq<Label>)
    requires After(ls).Some? && After(ls).value.closed && After(ls + more).Some?
    ensures After(ls + more).value.closed
  {
    if more == [] {
      assert ls + more == ls;
    } else {
      var front := more[..|more| - 1];
      assert (ls + more)[..|ls + more| - 1] == ls + front;
      ClosedStays(ls, front);
    }
  }

  lemma NobodyLeft(ls: seq<Label>)
    requires After(ls).Some? && Tally(After(ls).value.threads, ByWork) == 0 && !After(ls).value.main.Registered?
    ensures After(ls).value.conn == 0 && After(ls).value.online == 0 && After(ls).value.hosts == {}
  {
    hide After, Tally, CapInv, OfferedInv;
    Invariant(ls);
    var s := After(ls).value;
    TallyOrder(s.threads);
    forall h ensures h !in s.hosts {
      HostWork(s.threads, h);
      assert Tally(s.threads, ByHost(h)) + Pending(s.main, h) == if h in s.hosts then 1 else 0;
    }
  }

  lemma {:induction false} HostWork(threads: seq<Thread>, h: Str)
    ensures Tally(threads, ByHost(h)) <= Tally(threads, ByWork)
  {
    if threads != [] {
      HostWork(threads[..|threads| - 1], h);
    }
  }

  // Whatever is going on, a closed client can come to rest: the main thread
  // stopped, every connection thread gone, both counters zero, no host registered.
  lemma ShutsDown(ls: seq<Label>) returns (more: seq<Label>)
    requires After(ls).Some?
    ensures more != [] && more[0] == Close
    ensures After(ls + more).Some?
    ensures var s' := After(ls + more).value;
            && s'.main.Stopped? && s'.closed && s'.conn == 0 && s'.online == 0 && s'.hosts == {}
            && Tally(s'.threads, ByWork) == 0
  {
    hide After, Leads, Tally;
    CloseStep(ls);
    var a := ls + [Close];
    if After(a).value.main.Stopped? {
      var rest := AllLeave(a);
      KeepsThreshold(a, rest);
      ClosedStays(a, rest);
      NobodyLeft(a + rest);
      more := [Close] + rest;
      assert ls + more == a + rest;
    } else {
      var settle: seq<Label> := [];
      if After(a).value.main.Fetching? {
        settle := [FetchFailed];
        AbandonsFetch(a);
      } else {
        settle := GetsIdle(a);
        KeepsThreshold(a, settle);
      }
      var rest := AllLeave(a + settle);
      KeepsThreshold(a + settle, rest);
      ClosedStays(a, settle);
      ClosedStays(a + settle, rest);
      NobodyLeft(a + settle + rest);
      StopStep(a + settle + rest);
      more := [Close] + settle + rest + [Stop];
      assert ls + more == a + settle + rest + [Stop];
    }
  }

  lemma StopStep(ls: seq<Label>)
    requires After(ls).Some? && After(ls).value.main.Idle? && After(ls).value.closed
    ensures After(ls + [Stop]) == Some(After(ls).value.(main := Stopped))
  {
    hide After;
    Extend(ls, Stop);
  }

  // ----- The cap is reached -------------------------------------------------

  function Numbered(first: nat): (list: seq<Str>)
    requires first + MAX_HOSTS <= 0x100
    ensures |list| == MAX_HOSTS && Distinct(list)
    ensures forall i :: 0 <= i < |list| ==> list[i] == [first + i]
  {
    var list: seq<Str> := seq(MAX_HOSTS, i requires 0 <= i < MAX_HOSTS => [first + i]);
    assert forall i :: 0 <= i < |list| ==> list[i] == [first + i] && list[i][0] == first + i;
    list
  }

  lemma LeaveOne(ls: seq<Label>) returns (more: seq<Label>)
    requires After(ls).Some?
    requires var s := After(ls).value; s.threads != [] && s.threads[0].phase.Online? && s.main == Dealing([])
    ensures After(ls + more).Some?
    ensures var s, s' := After(ls).value, After(ls + more).value;
            && s'.main.Idle? && s'.conn == s.conn - 1 && s'.min == s.min && s'.lag == s.lag
            && s'.hosts == s.hosts - {s.threads[0].host}
            && s'.threads == s.threads[0 := Thread(s.threads[0].host, Exited)]
  {
    hide After, Tally, Elements;
    var s := After(ls).value;
    var a := ls + [SessionEnd(0)];
    Extend(ls, SessionEnd(0));
    var b := a + [Quit(0)];
    Extend(a, Quit(0));
    var c := b + [Unregister(0)];
    Extend(b, Unregister(0));
    var d := c + [Exit(0)];
    Extend(c, Exit(0));
    Extend(d, Finish);
    more := [SessionEnd(0), Quit(0), Unregister(0), Exit(0), Finish];
    assert ls + more == d + [Finish];
  }

  lemma {:induction false} NoneSpawned(threads: seq<Thread>)
    requires forall i :: 0 <= i < |threads| ==> !threads[i].phase.Spawned?
    ensures Tally(threads, BySpawned) == 0
  {
    if threads != [] {
      NoneSpawned(threads[..|threads| - 1]);
    }
  }

  // Nineteen connections do occur, with every thread counted at each comparison.
  lemma CapIsTight() returns (ls: seq<Label>)
    ensures After(ls).Some? && After(ls).value.lag == 0 && After(ls).value.conn == 19
  {
    hide After, Tally, Elements, Step, Enabled, Numbered, Distinct;
    var first, second := Numbered(0), Numbered(MAX_HOSTS);
    DistinctSize(first);
    DistinctSize(second);
    var a := WaitEnds(first, 0);
    var full := After(a).value;
    assert full.threads != [] by { NonEmptyWhenConnected(a); }
    var left := LeaveOne(a);
    var b := a + left;
    var s := After(b).value;
    NoneSpawned(s.threads);
    var c := b + [FindTooFew];
    RefreshSteps(b, second);
    var d := c + [Fetched(second, 0)];
    var more := DealAll(d, second);
    Apart(first, second, s.hosts);
    ls := d + more;
  }

  lemma NonEmptyWhenConnected(ls: seq<Label>)
    requires After(ls).Some? && After(ls).value.conn > 0
    ensures After(ls).value.threads != []
  {
    hide After;
    Invariant(ls);
  }

  lemma RefreshSteps(ls: seq<Label>, list: seq<Str>)
    requires After(ls).Some? && |list| <= MAX_HOSTS
    requires var s := After(ls).value; s.main.Idle? && s.conn < s.min && Tally(s.threads, BySpawned) == 0
    ensures var s := After(ls).value;
            var s' := s.(main := Dealing(list), min := |list|, offered := s.offered + Elements(list));
            After(ls + [FindTooFew] + [Fetched(list, 0)]) == Some(s')
  {
    hide After, Tally, Elements;
    Extend(ls, FindTooFew);
    Extend(ls + [FindTooFew], Fetched(list, 0));
  }

  lemma Apart(first: seq<Str>, second: seq<Str>, hosts: set<Str>)
    requires first == Numbered(0) && second == Numbered(MAX_HOSTS) && hosts <= Elements(first)
    ensures Elements(second) - hosts == Elements(second)
  {
    hide Numbered;
    forall i, j | 0 <= i < |second| && 0 <= j < |first| ensures second[i] != first[j] {
      assert second[i][0] == MAX_HOSTS + i && first[j][0] == j;
    }
  }

  // ----- One refresh, as the main thread runs it ----------------------------

  // The hosts of a list that are not registered yet, each once, in order.
  function Unregistered(hosts: set<Str>, list: seq<Str>): seq<Str> {
    if list == [] then []
    else
      var front, h := list[..|list| - 1], list[|list| - 1];
      Unregistered(hosts, front) + if h in hosts || h in front then [] else [h]
  }

  lemma {:induction false} UnregisteredOnce(hosts: set<Str>, list: seq<Str>)
    ensures Elements(Unregistered(hosts, list)) == Elements(list) - hosts
    ensures Distinct(Unregistered(hosts, list))
  {
    if list != [] {
      var front, h := list[..|list| - 1], list[|list| - 1];
      UnregisteredOnce(hosts, front);
      assert list == front + [h];
      var before := Unregistered(hosts, front);
      assert h in before ==> h in Elements(before);
      assert Elements(list) == Elements(front) + {h};
      assert Elements(before + [h]) == Elements(before) + {h};
      assert before + [] == before;
      if h in front {
        assert h in Elements(front);
      } else {
        assert h !in Elements(front);
      }
    }
  }

  lemma NextHost(hosts: set<Str>, list: seq<Str>, i: nat)
    requires i < |list|
    ensures Elements(list[..i + 1]) == Elements(list[..i]) + {list[i]}
    ensures Unregistered(hosts, list[..i + 1])
         == Unregistered(hosts, list[..i]) + if list[i] in hosts + Elements(list[..i]) then [] else [list[i]]
  {
    assert list[..i + 1] == list[..i] + [list[i]] && list[..i + 1][..i] == list[..i];
  }

  lemma NoHosts(hosts: set<Str>)
    ensures Elements([]) == {} && Unregistered(hosts, []) == []
  {
  }

  class Registry {
    var hosts: set<Str>
    var minConn: nat
    // The hosts connection threads were spawned for, in order.
    var spawned: seq<Str>

    constructor ()
      ensures hosts == {} && minConn == 1 && spawned == []
    {
      hosts, minConn, spawned := {}, 1, [];
    }

    // `answer` is what fetching the host list gave, and `closedAt` the loop pass
    // at which the client is first seen closed.
    method RunConnect(answer: Option<(seq<Str>, nat)>, closedAt: nat) returns (ok: bool)
      modifies this
      ensures ok == answer.Some?
      ensures !ok ==> hosts == old(hosts) && minConn == old(minConn) && spawned == old(spawned)
      ensures ok ==>
                var dealt := Truncated(answer.value.0);
                var seen := if closedAt < |dealt| then dealt[..closedAt] else dealt;
                && minConn == Threshold(|dealt|, answer.value.1)
                && hosts == old(hosts) + Elements(seen)
                && spawned == old(spawned) + Unregistered(old(hosts), seen)
    {
      hide Elements, Unregistered, Truncated;
      NoHosts(hosts);
      if answer.None? {
        return false;
      }
      var (list, min) := answer.value;
      list := Truncated(list);
      if min == 0 || min > |list| {
        min := |list|;
      }
      minConn := min;
      var i := 0;
      assert list[..0] == [];
      while i < |list| && i != closedAt
        invariant 0 <= i <= |list| && i <= closedAt && minConn == min
        invariant hosts == old(hosts) + Elements(list[..i])
        invariant spawned == old(spawned) + Unregistered(old(hosts), list[..i])
      {
        NextHost(old(hosts), list, i);
        if list[i] !in hosts {
          hosts := hosts + {list[i]};
          spawned := spawned + [list[i]];
        }
        i := i + 1;
      }
      assert i == |list| ==> list[..i] == list;
      ok := true;
    }
  }
}
