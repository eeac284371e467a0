/** One connection thread's retry loop: when it gives up on its host. Dialing,
    sessions and the closed flag are parameters, indexed by attempt. */
module GiveUp {
  import opened Common

  const MAX_FAIL := 10

  // Time is in nanoseconds, the clock's resolution.
  const SECOND := 1_000_000_000
  const HEALTHY_AFTER := 30 * SECOND

  // A session spends some time on the handshake and, if `completed`, some more online.
  datatype Attempt = DialFailed | Session(completed: bool, handshake: nat, online: nat)

  // The clock starts before the handshake.
  predicate Healthy(a: Attempt) { a.Session? && a.completed && a.handshake + a.online >= HEALTHY_AFTER }

  // What is documented: online, past the handshake, for that long.
  predicate DocumentedHealthy(a: Attempt) { a.Session? && a.completed && a.online >= HEALTHY_AFTER }

  // How many of the first n attempts came after the last healthy session.
  function Streak(attempt: nat -> Attempt, n: nat): nat {
    if n == 0 || Healthy(attempt(n - 1)) then 0 else 1 + Streak(attempt, n - 1)
  }

  function HealthySessions(attempt: nat -> Attempt, n: nat): nat {
    if n == 0 then 0 else HealthySessions(attempt, n - 1) + if Healthy(attempt(n - 1)) then 1 else 0
  }

  // The thread is still in its loop before attempt n.
  predicate StillTrying(attempt: nat -> Attempt, closed: nat -> bool, n: nat) {
    Streak(attempt, n) <= MAX_FAIL && !closed(n)
  }

  // While it keeps trying, at most eleven attempts go by per healthy session.
  lemma {:induction false} AttemptsBounded(attempt: nat -> Attempt, n: nat)
    requires forall i :: 0 <= i < n ==> Streak(attempt, i) <= MAX_FAIL
    ensures Streak(attempt, n) <= MAX_FAIL + 1
    ensures n <= 11 * HealthySessions(attempt, n) + Streak(attempt, n)
  {
    if n > 0 {
      AttemptsBounded(attempt, n - 1);
    }
  }

  // The streak says how long ago the last healthy session was.
  lemma {:induction false} StreakMeaning(attempt: nat -> Attempt, n: nat)
    ensures var k := Streak(attempt, n);
            && k <= n && (forall i :: n - k <= i < n ==> !Healthy(attempt(i)))
            && (k < n ==> Healthy(attempt(n - k - 1)))
  {
    if n > 0 && !Healthy(attempt(n - 1)) {
      StreakMeaning(attempt, n - 1);
    }
  }

  // Gives up exactly at the eleventh consecutive attempt without a healthy
  // session, unless the client closes first; and it does end, after at most
  // eleven attempts for each of the k healthy sessions and eleven more.
  method ConnThread(attempt: nat -> Attempt, closed: nat -> bool, ghost k: nat)
    returns (attempts: nat, gaveUp: bool)
    requires forall n :: HealthySessions(attempt, n) <= k
    ensures forall i :: 0 <= i < attempts ==> StillTrying(attempt, closed, i)
    ensures gaveUp ==> Streak(attempt, attempts) == MAX_FAIL + 1
    ensures !gaveUp ==> Streak(attempt, attempts) <= MAX_FAIL && closed(attempts)
    ensures attempts <= 11 * (k + 1)
  {
    var fails := 0;
    attempts := 0;
    gaveUp := false;
    while !closed(attempts)
      invariant fails == Streak(attempt, attempts) <= MAX_FAIL
      invariant forall i :: 0 <= i < attempts ==> StillTrying(attempt, closed, i)
      decreases k - HealthySessions(attempt, attempts), MAX_FAIL + 1 - fails
    {
      var outcome := attempt(attempts);
      attempts := attempts + 1;
      match outcome {
        case DialFailed =>
          fails := fails + 1;
          if fails > MAX_FAIL {
            gaveUp := true;
            break;
          }
        case Session(completed, handshake, online) =>
          var elapsed := handshake + online;
          if completed && elapsed >= HEALTHY_AFTER {
            fails := 0;
            continue;
          }
          fails := fails + 1;
          if fails > MAX_FAIL {
            gaveUp := true;
            break;
          }
      }
    }
    forall i | 0 <= i < attempts ensures Streak(attempt, i) <= MAX_FAIL {
      assert StillTrying(attempt, closed, i);
    }
    AttemptsBounded(attempt, attempts);
  }

  // ----- The loop, check by check -------------------------------------------

  // The failure counter when the thread comes to check the flag before attempt n,
  // if it gets there at all.
  function Counter(attempt: nat -> Attempt, closed: nat -> bool, n: nat): Option<nat> {
    if n == 0 then Some(0)
    else
      var before := Counter(attempt, closed, n - 1);
      if before.None? || closed(n - 1) then None
      else if Healthy(attempt(n - 1)) then Some(0)
      else if before.value + 1 > MAX_FAIL then None
      else Some(before.value + 1)
  }

  predicate Unbroken(attempt: nat -> Attempt, n: nat) {
    forall i :: 0 <= i <= n ==> Streak(attempt, i) <= MAX_FAIL
  }

  predicate StaysOpen(closed: nat -> bool, n: nat) { forall i :: 0 <= i < n ==> !closed(i) }

  // Whatever becomes of the attempts: the thread gets to its check before attempt
  // n if and only if no streak has reached eleven by then and no earlier check saw
  // the client closed; and then its counter is the streak.
  lemma {:induction false} GetsThereExactly(attempt: nat -> Attempt, closed: nat -> bool, n: nat)
    ensures Counter(attempt, closed, n).Some? <==> Unbroken(attempt, n) && StaysOpen(closed, n)
    ensures Counter(attempt, closed, n).Some? ==> Counter(attempt, closed, n).value == Streak(attempt, n)
  {
    if n > 0 {
      GetsThereExactly(attempt, closed, n - 1);
      assert Unbroken(attempt, n) <==> Unbroken(attempt, n - 1) && Streak(attempt, n) <= MAX_FAIL;
      assert StaysOpen(closed, n) <==> StaysOpen(closed, n - 1) && !closed(n - 1);
      hide Unbroken, StaysOpen;
    } else {
      assert Streak(attempt, 0) == 0;
    }
  }

  // The method's loop gets to just these checks: it ends where the counter does.
  lemma EndsWhereCounterEnds(attempt: nat -> Attempt, closed: nat -> bool, attempts: nat, gaveUp: bool)
    requires forall i :: 0 <= i < attempts ==> StillTrying(attempt, closed, i)
    requires if gaveUp then Streak(attempt, attempts) == MAX_FAIL + 1
             else Streak(attempt, attempts) <= MAX_FAIL && closed(attempts)
    ensures forall i :: 0 <= i < attempts ==> Counter(attempt, closed, i).Some?
    ensures Counter(attempt, closed, attempts).Some? <==> !gaveUp
    ensures Counter(attempt, closed, attempts + 1).None?
  {
    forall i | 0 <= i <= attempts
      ensures Counter(attempt, closed, i).Some? <==> i < attempts || !gaveUp
    {
      GetsThereExactly(attempt, closed, i);
      forall j | 0 <= j < i ensures Streak(attempt, j) <= MAX_FAIL && !closed(j) {
        assert StillTrying(attempt, closed, j);
      }
      if i < attempts {
        assert StillTrying(attempt, closed, i);
      }
    }
  }

  // A host that never becomes healthy is dropped after exactly eleven attempts.
  lemma {:induction false} NeverHealthy(attempt: nat -> Attempt, n: nat)
    requires forall i :: 0 <= i < n ==> !Healthy(attempt(i))
    ensures Streak(attempt, n) == n && HealthySessions(attempt, n) == 0
  {
    if n > 0 {
      NeverHealthy(attempt, n - 1);
    }
  }

  // The bound is reached: ten bad attempts before each of k healthy sessions,
  // then eleven more.
  function Flapping(k: nat): nat -> Attempt {
    n => if n % 11 == 10 && n < 11 * k then Session(true, 0, HEALTHY_AFTER) else DialFailed
  }

  lemma {:induction false} FlappingStreak(k: nat, n: nat)
    ensures Streak(Flapping(k), n) == if n <= 11 * k then n % 11 else n - 11 * k
    ensures HealthySessions(Flapping(k), n) == if n <= 11 * k then n / 11 else k
  {
    if n > 0 {
      FlappingStreak(k, n - 1);
      NextInCycle(n);
    }
  }

  lemma NextInCycle(n: nat)
    requires n > 0
    ensures (n - 1) % 11 == 10 ==> n % 11 == 0 && n / 11 == (n - 1) / 11 + 1
    ensures (n - 1) % 11 != 10 ==> n % 11 == (n - 1) % 11 + 1 && n / 11 == (n - 1) / 11
  {
  }

  lemma BoundIsTight(k: nat)
    ensures forall n :: 0 <= n < 11 * (k + 1) ==> Streak(Flapping(k), n) <= MAX_FAIL
    ensures Streak(Flapping(k), 11 * (k + 1)) == MAX_FAIL + 1
    ensures forall n :: HealthySessions(Flapping(k), n) <= k
  {
    forall n: nat ensures Streak(Flapping(k), n) == if n <= 11 * k then n % 11 else n - 11 * k
                  ensures HealthySessions(Flapping(k), n) == if n <= 11 * k then n / 11 else k
    {
      FlappingStreak(k, n);
    }
  }

  // ----- The documented rule ------------------------------------------------

  function DocumentedStreak(attempt: nat -> Attempt, n: nat): nat {
    if n == 0 || DocumentedHealthy(attempt(n - 1)) then 0 else 1 + DocumentedStreak(attempt, n - 1)
  }

  // A short session that only a slow handshake makes long enough.
  predicate SlowHandshake(a: Attempt) {
    a.Session? && a.completed && a.online < HEALTHY_AFTER && a.handshake >= HEALTHY_AFTER - a.online
  }

  lemma {:induction false} AgreeUpTo(attempt: nat -> Attempt, n: nat)
    requires forall i :: 0 <= i < n ==> !SlowHandshake(attempt(i))
    ensures DocumentedStreak(attempt, n) == Streak(attempt, n)
  {
    if n > 0 {
      AgreeUpTo(attempt, n - 1);
    }
  }

  lemma SlowDiffers(attempt: nat -> Attempt, i: nat)
    requires SlowHandshake(attempt(i))
    ensures Streak(attempt, i + 1) == 0 && DocumentedStreak(attempt, i + 1) > 0
  {
  }

  // Over any number of attempts the counter follows the documented rule if and
  // only if no session was made long enough by its handshake alone.
  lemma DocumentedExactly(attempt: nat -> Attempt, n: nat)
    ensures (forall i :: 0 <= i <= n ==> Streak(attempt, i) == DocumentedStreak(attempt, i))
       <==> forall i :: 0 <= i < n ==> !SlowHandshake(attempt(i))
  {
    if i :| 0 <= i < n && SlowHandshake(attempt(i)) {
      SlowDiffers(attempt, i);
    } else {
      forall i | 0 <= i <= n ensures Streak(attempt, i) == DocumentedStreak(attempt, i) {
        AgreeUpTo(attempt, i);
      }
    }
  }

  function SlowSessions(): nat -> Attempt { n => Session(true, 29 * SECOND, SECOND) }

  // Twenty-nine seconds of handshake and one second online count as healthy: a
  // host that only does this is retried forever, where the documented rule gives
  // up at the eleventh attempt.
  lemma {:induction false} SlowHandshakeKeepsHost(n: nat)
    ensures Streak(SlowSessions(), n) == 0 && DocumentedStreak(SlowSessions(), n) == n
  {
    if n > 0 {
      SlowHandshakeKeepsHost(n - 1);
    }
  }
}
