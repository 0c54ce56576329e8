/**
 * In-memory authentication limits: sliding windows of attempts and failures, and locks.
 * Times are integers read once per call; one call is one atomic step.
 */
module AuthLockout {
  import opened Basics

  /** The deque after dropping its front while the front is not after the cutoff. */
  function Fresh(events: seq<int>, cutoff: int): seq<int> {
    if events != [] && events[0] <= cutoff then Fresh(events[1..], cutoff) else events
  }

  class AuthWindowCounter {
    var events: seq<int>

    constructor ()
      ensures events == []
    {
      events := [];
    }

    method Prune(now: int, windowSeconds: int)
      modifies this
      ensures events == Fresh(old(events), now - windowSeconds)
    {
      var cutoff := now - windowSeconds;
      while events != [] && events[0] <= cutoff
        invariant Fresh(events, cutoff) == Fresh(old(events), cutoff)
        decreases |events|
      {
        events := events[1..];
      }
    }

    method Count(now: int, windowSeconds: int) returns (n: nat)
      modifies this
      ensures events == Fresh(old(events), now - windowSeconds) && n == |events|
    {
      Prune(now, windowSeconds);
      n := |events|;
    }

    method Add(now: int)
      modifies this
      ensures events == old(events) + [now]
    {
      events := events + [now];
    }
  }

  /** What a lock or a failure window belongs to. */
  datatype Guard = LoginAccount(key: string) | ApiKeyIp(key: string) | AdminIp(key: string)

  /** What a per-minute attempt window belongs to. */
  datatype Gate = LoginIp(key: string) | RegistrationIp(key: string)

  datatype Policy = Policy(threshold: int, windowSeconds: int, lockSeconds: int)

  // ----- the specification of one guard and one gate -----

  /** Retained failures and lock expiry of one guard. */
  datatype Track = Track(events: seq<int>, lock: Option<int>)

  const NEW_TRACK := Track([], None)

  predicate Allows(t: Track, now: int) {
    t.lock.None? || t.lock.value <= now
  }

  function Check(t: Track, now: int): Track {
    if t.lock.Some? && t.lock.value <= now then t.(lock := None) else t
  }

  function Fail(t: Track, now: int, policy: Policy): Track {
    var added := t.events + [now];
    if policy.threshold <= 0 then t.(events := added)
    else
      var kept := Fresh(added, now - policy.windowSeconds);
      Track(kept, if |kept| >= policy.threshold then Some(now + policy.lockSeconds) else t.lock)
  }

  predicate Admits(events: seq<int>, now: int, limit: int) {
    limit <= 0 || |Fresh(events, now - MINUTE_SECONDS)| < limit
  }

  /** A limit of zero or less switches the check off, and the deque is then not pruned. */
  function Admit(events: seq<int>, now: int, limit: int): seq<int> {
    var kept := if limit <= 0 then events else Fresh(events, now - MINUTE_SECONDS);
    if Admits(events, now, limit) then kept + [now] else kept
  }

  class InMemoryAuthRateLimiter {
    var failures: map<Guard, AuthWindowCounter>
    var attempts: map<Gate, AuthWindowCounter>
    var locks: map<Guard, int>

    /** No two windows share a counter. */
    ghost predicate Valid()
      reads this
    {
      && (forall g, h :: g in failures && h in failures && failures[g] == failures[h] ==> g == h)
      && (forall g, h :: g in attempts && h in attempts && attempts[g] == attempts[h] ==> g == h)
      && (forall g, h :: g in failures && h in attempts ==> failures[g] != attempts[h])
    }

    ghost function TrackOf(g: Guard): Track
      reads this, failures.Values
    {
      Track(if g in failures then failures[g].events else [],
            if g in locks then Some(locks[g]) else None)
    }

    ghost function AttemptsOf(g: Gate): seq<int>
      reads this, attempts.Values
    {
      if g in attempts then attempts[g].events else []
    }

    constructor ()
      ensures Valid()
      ensures forall g :: TrackOf(g) == NEW_TRACK
      ensures forall g :: AttemptsOf(g) == []
    {
      failures, attempts, locks := map[], map[], map[];
    }

    /** Raises (allowed is false) while the lock is in force; an expired lock is dropped. */
    method CheckLock(g: Guard, now: int) returns (allowed: bool)
      requires Valid()
      modifies this`locks
      ensures Valid() && allowed == Allows(old(TrackOf(g)), now)
      ensures TrackOf(g) == Check(old(TrackOf(g)), now)
      ensures forall h :: h != g ==> TrackOf(h) == old(TrackOf(h))
    {
      if g !in locks { return true; }
      if locks[g] <= now {
        locks := locks - {g};
        return true;
      }
      return false;
    }

    /** The guard's counter, made when it is missing. */
    method FailureWindow(g: Guard) returns (counter: AuthWindowCounter)
      requires Valid()
      modifies this`failures
      ensures Valid() && g in failures && failures[g] == counter
      ensures g in old(failures) ==> failures == old(failures)
      ensures g !in old(failures) ==> fresh(counter) && counter.events == [] && failures == old(failures)[g := counter]
    {
      if g !in failures {
        var window := new AuthWindowCounter();
        failures := failures[g := window];
      }
      counter := failures[g];
    }

    method RecordFailure(g: Guard, now: int, policy: Policy)
      requires Valid()
      modifies this`failures, this`locks, failures.Values
      ensures Valid() && attempts == old(attempts)
      ensures TrackOf(g) == Fail(old(TrackOf(g)), now, policy)
      ensures forall h :: h != g ==> TrackOf(h) == old(TrackOf(h))
      ensures forall h :: AttemptsOf(h) == old(AttemptsOf(h))
    {
      var counter := FailureWindow(g);
      var reached := CountFailure(counter, now, policy);
      if reached {
        locks := locks[g := now + policy.lockSeconds];
      }
    }

    /** Adds the failure and tells whether the window has reached the threshold. */
    static method CountFailure(counter: AuthWindowCounter, now: int, policy: Policy) returns (reached: bool)
      modifies counter
      ensures var after := Fail(Track(old(counter.events), None), now, policy);
              counter.events == after.events && (reached <==> after.lock.Some?)
    {
      counter.Add(now);
      if policy.threshold > 0 {
        var n := counter.Count(now, policy.windowSeconds);
        return n >= policy.threshold;
      }
      return false;
    }

    method RecordSuccess(g: Guard)
      requires Valid()
      modifies this`failures, this`locks
      ensures Valid() && TrackOf(g) == NEW_TRACK
      ensures forall h :: h != g ==> TrackOf(h) == old(TrackOf(h))
    {
      failures := failures - {g};
      locks := locks - {g};
    }

    /** The per-address part of enforce_login_attempt and enforce_registration_attempt. */
    method EnforceAttempt(g: Gate, now: int, limit: int) returns (allowed: bool)
      requires Valid()
      modifies this`attempts, attempts.Values
      ensures Valid() && failures == old(failures) && allowed == Admits(old(AttemptsOf(g)), now, limit)
      ensures AttemptsOf(g) == Admit(old(AttemptsOf(g)), now, limit)
      ensures forall h :: h != g ==> AttemptsOf(h) == old(AttemptsOf(h))
      ensures forall h :: TrackOf(h) == old(TrackOf(h))
    {
      if g !in attempts {
        var window := new AuthWindowCounter();
        attempts := attempts[g := window];
      }
      var counter := attempts[g];
      if limit > 0 {
        var n := counter.Count(now, MINUTE_SECONDS);
        if n >= limit { return false; }
      }
      counter.Add(now);
      return true;
    }
  }

  // ----- runs of one guard -----

  /** One guess: the lock is checked, and if it lets the guess through a failure is recorded. */
  datatype Guess = Guess(checkedAt: int, failedAt: int)

  /** The guesses are serial, on a nondecreasing clock. */
  ghost predicate Serial(guesses: seq<Guess>) {
    && (forall i :: 0 <= i < |guesses| ==> guesses[i].checkedAt <= guesses[i].failedAt)
    && (forall i :: 0 < i < |guesses| ==> guesses[i - 1].failedAt <= guesses[i].checkedAt)
  }

  /** The guard after the guesses, starting from no failures and no lock, and every recorded failure. */
  function Run(policy: Policy, guesses: seq<Guess>): (Track, seq<int>) {
    if guesses == [] then (NEW_TRACK, [])
    else
      var (t, history) := Run(policy, guesses[..|guesses| - 1]);
      var guess := guesses[|guesses| - 1];
      if Allows(t, guess.checkedAt)
      then (Fail(Check(t, guess.checkedAt), guess.failedAt, policy), history + [guess.failedAt])
      else (Check(t, guess.checkedAt), history)
  }

  /** How many of the times lie in the half-open window. */
  function CountIn(times: seq<int>, start: int, end: int): nat {
    if times == [] then 0
    else CountIn(times[..|times| - 1], start, end) + (if start <= times[|times| - 1] < end then 1 else 0)
  }

  // ----- the pruned deque is the recent history -----

  ghost predicate Suffix(s: seq<int>, k: nat, kept: seq<int>) {
    k <= |s| && kept == s[k..]
  }

  /** On a sorted deque, pruning keeps exactly the events after the cutoff. */
  lemma {:induction false} FreshIsRecent(events: seq<int>, cutoff: int) returns (k: nat)
    requires Sorted(events)
    ensures Suffix(events, k, Fresh(events, cutoff))
    ensures forall i :: 0 <= i < |events| ==> (i < k <==> events[i] <= cutoff)
  {
    if events != [] && events[0] <= cutoff {
      var rest := FreshIsRecent(events[1..], cutoff);
      k := rest + 1;
      assert forall i :: 1 <= i < |events| ==> events[i] == events[1..][i - 1];
    } else {
      k := 0;
    }
  }

  /** Pruning an already pruned history again gives the same as pruning all of it once. */
  lemma {:induction false} FreshAgain(history: seq<int>, older: int, cutoff: int, now: int)
    requires Sorted(history + [now]) && older <= cutoff
    ensures Fresh(Fresh(history, older) + [now], cutoff) == Fresh(history + [now], cutoff)
  {
    if history != [] && history[0] <= older {
      assert (history + [now])[1..] == history[1..] + [now];
      assert forall i :: 0 <= i < |history[1..] + [now]| ==> (history[1..] + [now])[i] == (history + [now])[i + 1];
      FreshAgain(history[1..], older, cutoff, now);
    }
  }

  // ----- the guess-rate bound -----

  ghost predicate ValidPolicy(p: Policy) {
    p.threshold > 0 && p.windowSeconds > 0 && p.lockSeconds > 0
  }

  /** Failure k is at least the threshold-th within its own window. */
  ghost predicate Trips(p: Policy, history: seq<int>, k: int)
    requires p.threshold > 0 && 0 <= k < |history|
  {
    k - p.threshold + 1 >= 0 && history[k - p.threshold + 1] > history[k] - p.windowSeconds
  }

  /** After a failure that trips the lock, the next one is a lock period later. */
  ghost predicate Spaced(p: Policy, history: seq<int>)
    requires p.threshold > 0
  {
    forall k {:trigger Trips(p, history, k)} ::
      0 <= k < |history| - 1 && Trips(p, history, k) ==> history[k + 1] >= history[k] + p.lockSeconds
  }

  ghost predicate RunInv(p: Policy, t: Track, history: seq<int>, clock: int)
    requires p.threshold > 0
  {
    && Sorted(history) && Spaced(p, history)
    && (if history == [] then t == NEW_TRACK
        else
          var last := history[|history| - 1];
          && last <= clock
          && t.events == Fresh(history, last - p.windowSeconds)
          && (Trips(p, history, |history| - 1) ==> t.lock == Some(last + p.lockSeconds)
                                                   || (t.lock.None? && last + p.lockSeconds <= clock)))
  }

  lemma CheckKeepsInv(p: Policy, t: Track, history: seq<int>, clock: int, now: int)
    requires ValidPolicy(p) && RunInv(p, t, history, clock) && clock <= now
    ensures RunInv(p, Check(t, now), history, now)
  {
  }

  lemma FailKeepsSpacing(p: Policy, t: Track, history: seq<int>, clock: int, now: int)
    requires ValidPolicy(p) && RunInv(p, t, history, clock) && t.lock.None? && clock <= now
    ensures Sorted(history + [now]) && Spaced(p, history + [now])
  {
    var longer := history + [now];
    forall k | 0 <= k < |longer| - 1 && Trips(p, longer, k) ensures longer[k + 1] >= longer[k] + p.lockSeconds {
      assert Trips(p, history, k);
      assert k == |history| - 1 || longer[k + 1] == history[k + 1];
    }
  }

  /** The deque holds the threshold exactly when the newest failure trips the lock. */
  lemma FailTripsLock(p: Policy, longer: seq<int>, now: int)
    requires ValidPolicy(p) && Sorted(longer) && longer != [] && longer[|longer| - 1] == now
    ensures |Fresh(longer, now - p.windowSeconds)| >= p.threshold <==> Trips(p, longer, |longer| - 1)
  {
    var k := FreshIsRecent(longer, now - p.windowSeconds);
  }

  lemma FailKeepsInv(p: Policy, t: Track, history: seq<int>, clock: int, now: int)
    requires ValidPolicy(p) && RunInv(p, t, history, clock) && t.lock.None? && clock <= now
    ensures RunInv(p, Fail(t, now, p), history + [now], now)
  {
    FailKeepsSpacing(p, t, history, clock, now);
    var cutoff := now - p.windowSeconds;
    FreshAgain(history, if history == [] then cutoff else history[|history| - 1] - p.windowSeconds, cutoff, now);
    FailTripsLock(p, history + [now], now);
  }

  lemma {:induction false} RunKeepsInv(p: Policy, guesses: seq<Guess>) returns (clock: int)
    requires ValidPolicy(p) && Serial(guesses)
    ensures RunInv(p, Run(p, guesses).0, Run(p, guesses).1, clock)
    ensures guesses != [] ==> clock <= guesses[|guesses| - 1].failedAt
  {
    if guesses == [] { return 0; }
    var before := guesses[..|guesses| - 1];
    var guess := guesses[|guesses| - 1];
    var earlier := RunKeepsInv(p, before);
    var (t, history) := Run(p, before);
    if before == [] {
      clock := guess.checkedAt;
      assert RunInv(p, t, history, clock);
    } else {
      clock := earlier;
    }
    CheckKeepsInv(p, t, history, clock, guess.checkedAt);
    clock := guess.checkedAt;
    if Allows(t, guess.checkedAt) {
      FailKeepsInv(p, Check(t, guess.checkedAt), history, clock, guess.failedAt);
      clock := guess.failedAt;
    }
  }

  /** In a sorted history the events of a window form one block. */
  lemma {:induction false} WindowIsBlock(times: seq<int>, start: int, end: int) returns (i: nat, j: nat)
    requires Sorted(times) && start <= end
    ensures i <= j <= |times| && CountIn(times, start, end) == j - i
    ensures forall k :: i <= k < j ==> start <= times[k] < end
    ensures forall k :: 0 <= k < i ==> times[k] < start
    ensures forall k :: j <= k < |times| ==> times[k] >= end
  {
    if times == [] { return 0, 0; }
    i, j := WindowIsBlock(times[..|times| - 1], start, end);
    var last := times[|times| - 1];
    if last < start {
      i, j := |times|, |times|;
      assert CountIn(times[..|times| - 1], start, end) == 0;
    } else if last < end {
      j := |times|;
    }
  }

  /** In a block that fits in one window, the threshold-th failure and those after it set the lock. */
  lemma TripsInBlock(p: Policy, history: seq<int>, i: nat, j: nat, k: nat)
    requires ValidPolicy(p) && Sorted(history) && i + p.threshold - 1 <= k < j <= |history|
    requires history[j - 1] - history[i] < p.windowSeconds
    ensures Trips(p, history, k)
  {
    assert history[i] <= history[k - p.threshold + 1] && history[k] <= history[j - 1];
  }

  lemma PeriodLater(p: Policy, history: seq<int>, i: nat, j: nat, k: nat)
    requires ValidPolicy(p) && Sorted(history) && Spaced(p, history)
    requires i + p.threshold - 1 <= k && k + 1 < j <= |history| && history[j - 1] - history[i] < p.windowSeconds
    ensures history[k + 1] >= history[k] + p.lockSeconds
  {
    TripsInBlock(p, history, i, j, k);
  }

  /** Along a block that fits in one window, the failures from the threshold-th on are a lock period apart. */
  lemma {:induction false} LockSpacing(p: Policy, history: seq<int>, i: nat, j: nat, r: nat)
    requires ValidPolicy(p) && Sorted(history) && Spaced(p, history)
    requires i + p.threshold - 1 + r < j <= |history|
    requires history[j - 1] - history[i] < p.windowSeconds
    ensures history[i + p.threshold - 1 + r] >= history[i] + Times(r, p.lockSeconds)
  {
    if r == 0 {
    } else {
      LockSpacing(p, history, i, j, r - 1);
      PeriodLater(p, history, i, j, i + p.threshold - 1 + r - 1);
    }
  }

  lemma FewLocksFit(m: nat, w: nat, l: nat)
    requires l > 0 && w > 0 && Times(m, l) < w
    ensures m + 1 <= CeilDiv(w, l)
  {
    TimesIsProduct(m, l);
    assert (m + 1) * l <= w + l - 1;
  }

  /** Guess-rate bound: without a success, any window holds at most threshold - 1 + ceil(window / lock)
      recorded failures, whatever the timing of the guesses. */
  lemma GuessRateBound(p: Policy, guesses: seq<Guess>, start: int)
    requires ValidPolicy(p) && Serial(guesses)
    ensures CountIn(Run(p, guesses).1, start, start + p.windowSeconds)
            <= p.threshold - 1 + CeilDiv(p.windowSeconds, p.lockSeconds)
  {
    var clock := RunKeepsInv(p, guesses);
    var history := Run(p, guesses).1;
    var i, j := WindowIsBlock(history, start, start + p.windowSeconds);
    if j - i >= p.threshold {
      var m := j - i - p.threshold;
      LockSpacing(p, history, i, j, m);
      FewLocksFit(m, p.windowSeconds, p.lockSeconds);
    }
  }

  /** The pruned deque never forgets a failure inside the window, nor keeps one outside it. */
  lemma DequeIsRecentHistory(p: Policy, guesses: seq<Guess>) returns (k: nat)
    requires ValidPolicy(p) && Serial(guesses)
    ensures var (t, history) := Run(p, guesses);
      && k <= |history| && t.events == history[k..]
      && forall i :: 0 <= i < |history| ==>
           (i < k <==> history[i] <= history[|history| - 1] - p.windowSeconds)
  {
    var clock := RunKeepsInv(p, guesses);
    var history := Run(p, guesses).1;
    if history == [] { return 0; }
    k := FreshIsRecent(history, history[|history| - 1] - p.windowSeconds);
  }

  // ----- the bound is reached -----

  /** The worst schedule: the threshold at once, then one guess whenever the lock runs out. */
  function FailTime(p: Policy, k: nat): int {
    if k < p.threshold then 0 else Times(k - p.threshold + 1, p.lockSeconds)
  }

  function FailTimes(p: Policy, n: nat): seq<int> {
    seq(n, k requires 0 <= k => FailTime(p, k))
  }

  function Burst(p: Policy, n: nat): seq<Guess> {
    seq(n, k requires 0 <= k => Guess(FailTime(p, k), FailTime(p, k)))
  }

  lemma FailTimesGrow(p: Policy, k: nat)
    requires ValidPolicy(p)
    ensures 0 <= FailTime(p, k) <= FailTime(p, k + 1)
    ensures k >= p.threshold - 1 ==> FailTime(p, k + 1) == FailTime(p, k) + p.lockSeconds
  {
    TimesIsProduct(if k < p.threshold then 0 else k - p.threshold + 1, p.lockSeconds);
  }

  /** While all failures are inside the window, the deque is all of them. */
  lemma FailKeepsAll(p: Policy, h: seq<int>, lock: Option<int>, at: int)
    requires ValidPolicy(p) && (h != [] ==> h[0] > at - p.windowSeconds)
    ensures Fail(Track(h, lock), at, p)
         == Track(h + [at], if |h| + 1 >= p.threshold then Some(at + p.lockSeconds) else lock)
  {
    assert (h + [at])[0] > at - p.windowSeconds;
  }

  /** The guard after n guesses of the schedule. */
  function BurstTrack(p: Policy, n: nat): Track {
    Track(FailTimes(p, n), if 0 < n && n >= p.threshold then Some(FailTime(p, n - 1) + p.lockSeconds) else None)
  }

  lemma BurstStep(p: Policy, n: nat)
    requires ValidPolicy(p) && FailTime(p, n) < p.windowSeconds
    ensures Allows(BurstTrack(p, n), FailTime(p, n))
    ensures Fail(Check(BurstTrack(p, n), FailTime(p, n)), FailTime(p, n), p) == BurstTrack(p, n + 1)
  {
    var now := FailTime(p, n);
    if n > 0 {
      FailTimesGrow(p, n - 1);
      assert FailTimes(p, n)[0] == 0;
    }
    assert Check(BurstTrack(p, n), now) == Track(FailTimes(p, n), None);
    FailKeepsAll(p, FailTimes(p, n), None, now);
    assert FailTimes(p, n + 1) == FailTimes(p, n) + [now];
  }

  lemma {:induction false} BurstIsLetThrough(p: Policy, n: nat)
    requires ValidPolicy(p) && (n > 0 ==> FailTime(p, n - 1) < p.windowSeconds)
    ensures Run(p, Burst(p, n)) == (BurstTrack(p, n), FailTimes(p, n))
  {
    if n == 0 {
      assert Burst(p, n) == [] && FailTimes(p, n) == [];
    } else {
      if n > 1 { FailTimesGrow(p, n - 2); }
      BurstIsLetThrough(p, n - 1);
      BurstStep(p, n - 1);
      assert Burst(p, n)[..n - 1] == Burst(p, n - 1);
      assert FailTimes(p, n) == FailTimes(p, n - 1) + [FailTime(p, n - 1)];
    }
  }

  lemma {:induction false} AllCounted(times: seq<int>, start: int, end: int)
    requires forall i :: 0 <= i < |times| ==> start <= times[i] < end
    ensures CountIn(times, start, end) == |times|
  {
    if times == [] {
    } else {
      AllCounted(times[..|times| - 1], start, end);
    }
  }

  lemma {:induction false} FailTimesSorted(p: Policy, i: nat, j: nat)
    requires ValidPolicy(p) && i <= j
    ensures 0 <= FailTime(p, i) <= FailTime(p, j)
  {
    FailTimesGrow(p, i);
    if i < j {
      FailTimesSorted(p, i, j - 1);
      FailTimesGrow(p, j - 1);
    }
  }

  /** No smaller bound holds: for every policy some serial guesses reach it. */
  lemma BoundIsReached(p: Policy) returns (guesses: seq<Guess>)
    requires ValidPolicy(p)
    ensures Serial(guesses)
    ensures CountIn(Run(p, guesses).1, 0, p.windowSeconds)
            == p.threshold - 1 + CeilDiv(p.windowSeconds, p.lockSeconds)
  {
    var m := (p.windowSeconds + p.lockSeconds - 1) / p.lockSeconds;
    var n := p.threshold - 1 + m;
    guesses := Burst(p, n);
    forall i | 0 < i < n ensures guesses[i - 1].failedAt <= guesses[i].checkedAt { FailTimesGrow(p, i - 1); }
    TimesIsProduct(m - 1, p.lockSeconds);
    assert Times(m - 1, p.lockSeconds) < p.windowSeconds;
    assert FailTime(p, n - 1) == Times(m - 1, p.lockSeconds);
    BurstIsLetThrough(p, n);
    forall i | 0 <= i < n ensures 0 <= FailTimes(p, n)[i] < p.windowSeconds { FailTimesSorted(p, i, n - 1); }
    AllCounted(FailTimes(p, n), 0, p.windowSeconds);
  }

  // ----- runs of one gate -----

  /** The gate's deque after attempts at the given times, and the times it admitted. */
  function GateRun(limit: int, times: seq<int>): (seq<int>, seq<int>) {
    if times == [] then ([], [])
    else
      var (events, admitted) := GateRun(limit, times[..|times| - 1]);
      var now := times[|times| - 1];
      (Admit(events, now, limit), if Admits(events, now, limit) then admitted + [now] else admitted)
  }

  ghost predicate GateInv(limit: int, events: seq<int>, admitted: seq<int>, clock: int) {
    && Sorted(admitted + [clock])
    && events == Fresh(admitted, clock - MINUTE_SECONDS)
    && forall k :: 0 < limit <= k < |admitted| ==> admitted[k - limit] <= admitted[k] - MINUTE_SECONDS
  }

  lemma {:induction false} FreshTwice(history: seq<int>, older: int, cutoff: int)
    requires older <= cutoff
    ensures Fresh(Fresh(history, older), cutoff) == Fresh(history, cutoff)
  {
    if history != [] && history[0] <= older { FreshTwice(history[1..], older, cutoff); }
  }

  lemma {:induction false} FreshKeepsNewest(history: seq<int>, cutoff: int, now: int)
    requires cutoff < now
    ensures Fresh(history + [now], cutoff) == Fresh(history, cutoff) + [now]
  {
    if history != [] && history[0] <= cutoff {
      assert (history + [now])[1..] == history[1..] + [now];
      FreshKeepsNewest(history[1..], cutoff, now);
    }
  }

  lemma SortedLater(admitted: seq<int>, clock: int, now: int)
    requires Sorted(admitted + [clock]) && clock <= now
    ensures Sorted(admitted) && Sorted(admitted + [now]) && Sorted(admitted + [now] + [now])
  {
    var longer := admitted + [clock];
    assert forall i :: 0 <= i < |admitted| ==> admitted[i] == longer[i] <= longer[|admitted|] == clock;
  }

  /** An attempt is admitted only if the one limit places earlier left the window. */
  lemma AdmissionIsSpaced(limit: int, admitted: seq<int>, now: int)
    requires 0 < limit <= |admitted| && Sorted(admitted)
    requires |Fresh(admitted, now - MINUTE_SECONDS)| < limit
    ensures admitted[|admitted| - limit] <= now - MINUTE_SECONDS
  {
    var k := FreshIsRecent(admitted, now - MINUTE_SECONDS);
  }

  lemma AdmitKeepsInv(limit: int, events: seq<int>, admitted: seq<int>, clock: int, now: int)
    requires limit > 0 && GateInv(limit, events, admitted, clock) && clock <= now
    ensures GateInv(limit, Admit(events, now, limit),
                    if Admits(events, now, limit) then admitted + [now] else admitted, now)
  {
    SortedLater(admitted, clock, now);
    FreshTwice(admitted, clock - MINUTE_SECONDS, now - MINUTE_SECONDS);
    FreshKeepsNewest(admitted, now - MINUTE_SECONDS, now);
    if Admits(events, now, limit) && limit <= |admitted| {
      AdmissionIsSpaced(limit, admitted, now);
    }
  }

  lemma {:induction false} GateRunKeepsInv(limit: int, times: seq<int>)
    requires limit > 0 && Sorted(times) && times != []
    ensures GateInv(limit, GateRun(limit, times).0, GateRun(limit, times).1, times[|times| - 1])
  {
    var before := times[..|times| - 1];
    var (events, admitted) := GateRun(limit, before);
    var now := times[|times| - 1];
    if before == [] {
      AdmitKeepsInv(limit, events, admitted, now, now);
    } else {
      GateRunKeepsInv(limit, before);
      AdmitKeepsInv(limit, events, admitted, before[|before| - 1], now);
    }
  }

  /** Over any run, any window of one minute holds at most the limit of admitted attempts. */
  lemma AttemptRateBound(limit: int, times: seq<int>, start: int)
    requires limit > 0 && Sorted(times)
    ensures CountIn(GateRun(limit, times).1, start, start + MINUTE_SECONDS) <= limit
  {
    if times != [] {
      GateRunKeepsInv(limit, times);
      var admitted := GateRun(limit, times).1;
      SortedLater(admitted, times[|times| - 1], times[|times| - 1]);
      var i, j := WindowIsBlock(admitted, start, start + MINUTE_SECONDS);
      if limit <= j - 1 {
        assert admitted[j - 1 - limit] <= admitted[j - 1] - MINUTE_SECONDS;
      }
    }
  }
}
