/**
 * The Redis failure counter and lock: the first failure starts a counter that lives for a fixed window, and from the
 * threshold-th failure on each one sets the lock again. Guesses are serial; keys are seen until they expire. The
 * command that gives the counter its expiry may raise, which leaves the counter without one.
 */
module RedisFailureLock {
  import opened Basics
  import opened AuthLockout

  /** A key without expiry lives on. */
  datatype Counter = Counter(count: nat, expiry: Option<int>)

  /** The counter key and the expiry of the lock key of one guard. */
  datatype Keys = Keys(counter: Option<Counter>, lock: Option<int>)

  predicate Unlocked(k: Keys, now: int) {
    k.lock.None? || k.lock.value <= now
  }

  predicate Live(c: Option<Counter>, now: int) {
    c.Some? && (c.value.expiry.None? || now < c.value.expiry.value)
  }

  function Incremented(k: Keys, now: int, windowSeconds: int): Counter {
    if Live(k.counter, now) then Counter(k.counter.value.count + 1, k.counter.value.expiry)
    else Counter(1, Some(now + windowSeconds))
  }

  /** A failure recorded at the time; if it starts a counter, EXPIRE raises or does not. */
  function Failed(k: Keys, now: int, p: Policy, raises: bool): Keys {
    if raises && !Live(k.counter, now) then k.(counter := Some(Counter(1, None)))
    else
      var c := Incremented(k, now, p.windowSeconds);
      Keys(Some(c), if p.threshold > 0 && c.count >= p.threshold then Some(now + p.lockSeconds) else k.lock)
  }

  class RedisGuard {
    var counter: Option<Counter>
    var lock: Option<int>

    constructor ()
      ensures View() == Keys(None, None)
    {
      counter, lock := None, None;
    }

    function View(): Keys
      reads this
    {
      Keys(counter, lock)
    }

    /** _raise_if_locked. */
    method IsLocked(now: int) returns (locked: bool)
      ensures locked <==> !Unlocked(View(), now)
    {
      locked := lock.Some? && now < lock.value;
    }

    /** INCR makes the key when it is missing or has expired, and leaves its expiry alone otherwise. */
    method Incr(now: int) returns (updated: nat)
      modifies this`counter
      ensures counter.Some? && updated == counter.value.count
      ensures Live(old(counter), now) ==>
                counter.value == Counter(old(counter).value.count + 1, old(counter).value.expiry)
      ensures !Live(old(counter), now) ==> counter.value == Counter(1, None)
    {
      if Live(counter, now) {
        counter := Some(Counter(counter.value.count + 1, counter.value.expiry));
      } else {
        counter := Some(Counter(1, None));
      }
      updated := counter.value.count;
    }

    /** _record_failure_counter, its commands at one time. A live counter has counted at least one failure. Nothing is
        done after EXPIRE has raised. */
    method RecordFailure(now: int, p: Policy, raises: bool) returns (done: bool)
      requires counter.Some? ==> counter.value.count >= 1
      modifies this
      ensures View() == Failed(old(View()), now, p, raises)
      ensures counter.Some? && counter.value.count >= 1
      ensures done <==> !raises || Live(old(counter), now)
    {
      var updated := Incr(now);
      if updated == 1 {
        if raises { return false; }
        counter := Some(Counter(1, Some(now + p.windowSeconds)));
      }
      if p.threshold > 0 && updated >= p.threshold {
        lock := Some(now + p.lockSeconds);
      }
      return true;
    }

    method RecordSuccess()
      modifies this
      ensures View() == Keys(None, None)
    {
      counter, lock := None, None;
    }
  }

  // ----- runs -----

  /** A recorded failure: its time, its number in its counter's life, and when that life began; a lasting life does not
      end, and its beginning is not kept. */
  datatype Entry = Entry(at: int, number: nat, born: int, lasting: bool)

  function Recorded(k: Keys, now: int, p: Policy, raises: bool): Entry {
    var c := Incremented(k, now, p.windowSeconds);
    if c.expiry.None? || (c.count == 1 && raises) then Entry(now, c.count, now, true)
    else Entry(now, c.count, c.expiry.value - p.windowSeconds, false)
  }

  /** The guesses are numbered; in those of the set EXPIRE raises, if it is sent. */
  function RedisRun(p: Policy, guesses: seq<Guess>, raising: set<nat>): (Keys, seq<Entry>) {
    if guesses == [] then (Keys(None, None), [])
    else
      var n := |guesses| - 1;
      var (k, history) := RedisRun(p, guesses[..n], raising);
      if Unlocked(k, guesses[n].checkedAt)
      then (Failed(k, guesses[n].failedAt, p, n in raising),
            history + [Recorded(k, guesses[n].failedAt, p, n in raising)])
      else (k, history)
  }

  function TimesOf(history: seq<Entry>): (r: seq<int>)
    ensures |r| == |history| && forall i :: 0 <= i < |r| ==> r[i] == history[i].at
  {
    seq(|history|, i requires 0 <= i < |history| => history[i].at)
  }

  /** The failure sets the lock, unless EXPIRE has raised. */
  predicate Locks(p: Policy, e: Entry) {
    e.number >= p.threshold && !(e.lasting && e.number == 1)
  }

  /** How an entry follows the one before it: in the same life, or in a new one once that is over. */
  predicate Follows(p: Policy, e: Entry, f: Entry) {
    && e.at <= f.at
    && if f.number == 1 then f.born == f.at && !e.lasting && f.at >= e.born + p.windowSeconds
       else f.number == e.number + 1 && f.lasting == e.lasting
            && (!f.lasting ==> f.born == e.born && f.at < f.born + p.windowSeconds)
  }

  ghost predicate Chained(p: Policy, history: seq<Entry>) {
    && (forall i :: 0 <= i < |history| ==> history[i].number >= 1)
    && (history != [] ==> history[0].number == 1 && history[0].born == history[0].at)
    && (forall i :: 0 < i < |history| ==> Follows(p, history[i - 1], history[i]))
  }

  /** After a failure that locks, none for a lock period. */
  ghost predicate Spaced(p: Policy, history: seq<Entry>) {
    forall i :: 0 < i < |history| && Locks(p, history[i - 1]) ==> history[i].at >= history[i - 1].at + p.lockSeconds
  }

  /** The counter is that of the last failure. */
  ghost predicate CounterInv(p: Policy, counter: Option<Counter>, history: seq<Entry>, clock: int) {
    && Chained(p, history)
    && if history == [] then counter == None
       else
         var last := history[|history| - 1];
         && last.at <= clock
         && counter == Some(Counter(last.number, if last.lasting then None else Some(last.born + p.windowSeconds)))
  }

  ghost predicate KeysInv(p: Policy, k: Keys, history: seq<Entry>, clock: int) {
    && CounterInv(p, k.counter, history, clock) && Spaced(p, history)
    && if history == [] then k.lock == None
       else
         var last := history[|history| - 1];
         Locks(p, last) ==> k.lock == Some(last.at + p.lockSeconds)
  }

  lemma FailKeepsCounter(p: Policy, k: Keys, history: seq<Entry>, clock: int, now: int, raises: bool)
    requires ValidPolicy(p) && CounterInv(p, k.counter, history, clock) && clock <= now
    ensures CounterInv(p, Failed(k, now, p, raises).counter, history + [Recorded(k, now, p, raises)], now)
  {
    var longer := history + [Recorded(k, now, p, raises)];
    forall i | 0 < i < |longer| ensures Follows(p, longer[i - 1], longer[i]) {
      if i < |history| { assert Follows(p, history[i - 1], history[i]); }
    }
  }

  /** What a failure does to the lock. */
  lemma FailSetsLock(p: Policy, k: Keys, now: int, raises: bool)
    requires ValidPolicy(p) && (k.counter.Some? ==> k.counter.value.count >= 1)
    ensures Failed(k, now, p, raises).lock
         == if Locks(p, Recorded(k, now, p, raises)) then Some(now + p.lockSeconds) else k.lock
  {
  }

  lemma FailKeepsInv(p: Policy, k: Keys, history: seq<Entry>, clock: int, now: int, raises: bool)
    requires ValidPolicy(p) && KeysInv(p, k, history, clock) && clock <= now && Unlocked(k, now)
    ensures KeysInv(p, Failed(k, now, p, raises), history + [Recorded(k, now, p, raises)], now)
  {
    FailKeepsCounter(p, k, history, clock, now, raises);
    FailSetsLock(p, k, now, raises);
  }

  lemma {:induction false} RedisRunKeepsInv(p: Policy, guesses: seq<Guess>, raising: set<nat>, clock: int)
    requires ValidPolicy(p) && Serial(guesses)
    requires guesses != [] ==> guesses[|guesses| - 1].failedAt <= clock
    ensures KeysInv(p, RedisRun(p, guesses, raising).0, RedisRun(p, guesses, raising).1, clock)
  {
    if guesses == [] {
    } else {
      var n := |guesses| - 1;
      var guess := guesses[n];
      RedisRunKeepsInv(p, guesses[..n], raising, guess.checkedAt);
      var (k, history) := RedisRun(p, guesses[..n], raising);
      if Unlocked(k, guess.checkedAt) {
        FailKeepsInv(p, k, history, guess.checkedAt, guess.failedAt, n in raising);
      }
    }
  }

  lemma {:induction false} ChainIsSorted(p: Policy, history: seq<Entry>, i: nat, j: nat)
    requires Chained(p, history) && i <= j < |history|
    ensures history[i].at <= history[j].at
  {
    if i < j {
      ChainIsSorted(p, history, i, j - 1);
      assert Follows(p, history[j - 1], history[j]);
    }
  }

  // ----- the guess-rate bound -----

  /** Failures of the block that set the lock, and those that do not. */
  function Locking(p: Policy, history: seq<Entry>, i: nat, j: nat): nat
    requires i <= j <= |history|
  {
    if i == j then 0 else Locking(p, history, i, j - 1) + if Locks(p, history[j - 1]) then 1 else 0
  }

  function Free(p: Policy, history: seq<Entry>, i: nat, j: nat): nat
    requires i <= j <= |history|
  {
    if i == j then 0 else Free(p, history, i, j - 1) + if Locks(p, history[j - 1]) then 0 else 1
  }

  lemma {:induction false} BlockSplits(p: Policy, history: seq<Entry>, i: nat, m: nat, j: nat)
    requires i <= m <= j <= |history|
    ensures Locking(p, history, i, j) + Free(p, history, i, j) == j - i
    ensures Free(p, history, i, j) == Free(p, history, i, m) + Free(p, history, m, j)
  {
    if m < j {
      BlockSplits(p, history, i, m, j - 1);
    } else if i < j {
      BlockSplits(p, history, i, m - 1, j - 1);
    }
  }

  lemma {:induction false} LockingIsSpaced(p: Policy, history: seq<Entry>, i: nat, j: nat)
    requires ValidPolicy(p) && Chained(p, history) && Spaced(p, history) && i < j <= |history|
    ensures history[j - 1].at >= history[i].at + Times(Locking(p, history, i, j - 1), p.lockSeconds)
  {
    if i < j - 1 {
      LockingIsSpaced(p, history, i, j - 1);
      assert Follows(p, history[j - 2], history[j - 1]);
    }
  }

  /** How many failures of a life, from the one with its number on, do not lock. The first of a lasting life never
      does. */
  function FreeFrom(p: Policy, e: Entry): nat {
    Max(0, p.threshold - e.number) + if p.threshold == 1 && e.number == 1 && e.lasting then 1 else 0
  }

  /** A block within one life, starting with the failure of a given number. */
  lemma {:induction false} FreeInOneLife(p: Policy, history: seq<Entry>, i: nat, j: nat)
    requires ValidPolicy(p) && Chained(p, history) && i < j <= |history|
    requires forall k :: i < k < j ==> history[k].number != 1
    ensures history[j - 1].number == history[i].number + (j - 1 - i) && history[j - 1].lasting == history[i].lasting
    ensures !history[i].lasting ==> history[j - 1].born == history[i].born
    ensures Free(p, history, i, j) <= FreeFrom(p, history[i])
    ensures history[j - 1].number < p.threshold ==> Free(p, history, i, j) == j - i
  {
    if i < j - 1 {
      FreeInOneLife(p, history, i, j - 1);
      assert Follows(p, history[j - 2], history[j - 1]);
    } else {
      assert Free(p, history, i, i) == 0;
    }
  }

  lemma {:induction false} NextLife(history: seq<Entry>, i: nat, j: nat) returns (m: nat)
    requires i < j <= |history|
    ensures i < m <= j && (forall k :: i < k < m ==> history[k].number != 1) && (m < j ==> history[m].number == 1)
  {
    m := i + 1;
    while m < j && history[m].number != 1
      invariant i < m <= j && forall k :: i < k < m ==> history[k].number != 1
    {
      m := m + 1;
    }
  }

  /** How many failures more than in memory a fixed window can let in: the free ones of a life that began before it,
      except in a window of one second, which no life reaches into. */
  function Extra(p: Policy): nat {
    if p.windowSeconds == 1 then 0 else Max(0, p.threshold - 2)
  }

  /** One more, for a threshold of one, if some EXPIRE raised: the failure that was counted and did not lock. */
  function Unexpired(p: Policy, history: seq<Entry>): nat {
    if p.threshold == 1 && exists i :: 0 <= i < |history| && history[i].lasting then 1 else 0
  }

  lemma InItsLife(p: Policy, history: seq<Entry>, i: nat)
    requires ValidPolicy(p) && Chained(p, history) && i < |history| && !history[i].lasting
    ensures history[i].at < history[i].born + p.windowSeconds
  {
    if i > 0 { assert Follows(p, history[i - 1], history[i]); }
  }

  /** The free failures of a life that ends inside the block: it began before the block, or fills it. */
  lemma FreeBeforeNext(p: Policy, history: seq<Entry>, i: nat, m: nat)
    requires ValidPolicy(p) && Chained(p, history) && i < m < |history|
    requires (forall k :: i < k < m ==> history[k].number != 1) && history[m].number == 1
    requires history[m].at < history[i].at + p.windowSeconds
    ensures Free(p, history, i, m) <= Extra(p)
  {
    FreeInOneLife(p, history, i, m);
    assert Follows(p, history[m - 1], history[m]);
    InItsLife(p, history, i);
    if history[i].number == 1 { BornWithFirst(p, history, i); }
  }

  /** A block that fits in the window touches two lives at most, and two only when the first began before it. */
  lemma FewAreFree(p: Policy, history: seq<Entry>, i: nat, j: nat)
    requires ValidPolicy(p) && Chained(p, history) && i < j <= |history|
    requires history[j - 1].at < history[i].at + p.windowSeconds
    ensures Free(p, history, i, j) <= p.threshold - 1 + Extra(p) + Unexpired(p, history)
  {
    var m := NextLife(history, i, j);
    FreeInOneLife(p, history, i, m);
    BlockSplits(p, history, i, m, j);
    if m < j {
      ChainIsSorted(p, history, m, j - 1);
      FreeBeforeNext(p, history, i, m);
      var n := NextLife(history, m, j);
      FreeInOneLife(p, history, m, n);
      if n < j { TwoLivesTakeLong(p, history, i, m, n, j); }
    }
  }

  lemma TwoLivesTakeLong(p: Policy, history: seq<Entry>, i: nat, m: nat, n: nat, j: nat)
    requires ValidPolicy(p) && Chained(p, history) && i < m < n < j <= |history|
    requires history[m].number == 1 && history[n].number == 1 && forall k :: m < k < n ==> history[k].number != 1
    ensures history[j - 1].at >= history[i].at + p.windowSeconds
  {
    FreeInOneLife(p, history, m, n);
    BornWithFirst(p, history, m);
    assert Follows(p, history[n - 1], history[n]);
    ChainIsSorted(p, history, i, m);
    ChainIsSorted(p, history, n, j - 1);
  }

  lemma BornWithFirst(p: Policy, history: seq<Entry>, i: nat)
    requires Chained(p, history) && i < |history| && history[i].number == 1
    ensures history[i].born == history[i].at
  {
    if i > 0 { assert Follows(p, history[i - 1], history[i]); }
  }

  function RedisBound(p: Policy): int
    requires p.lockSeconds > 0 && p.windowSeconds > 0
  {
    p.threshold - 1 + Extra(p) + CeilDiv(p.windowSeconds, p.lockSeconds)
  }

  lemma {:induction false} NothingLasts(p: Policy, guesses: seq<Guess>)
    requires ValidPolicy(p)
    ensures RedisRun(p, guesses, {}).0.counter.Some? ==> RedisRun(p, guesses, {}).0.counter.value.expiry.Some?
    ensures Unexpired(p, RedisRun(p, guesses, {}).1) == 0
  {
    if guesses == [] {
    } else {
      NothingLasts(p, guesses[..|guesses| - 1]);
    }
  }

  lemma BlockBound(p: Policy, history: seq<Entry>, i: nat, j: nat)
    requires ValidPolicy(p) && Chained(p, history) && Spaced(p, history) && i < j <= |history|
    requires history[j - 1].at < history[i].at + p.windowSeconds
    ensures j - i <= RedisBound(p) + Unexpired(p, history)
  {
    FewAreFree(p, history, i, j);
    LockingIsSpaced(p, history, i, j);
    FewLocksFit(Locking(p, history, i, j - 1), p.windowSeconds, p.lockSeconds);
    BlockSplits(p, history, i, i, j);
  }

  lemma TimesAreSorted(p: Policy, history: seq<Entry>)
    requires Chained(p, history)
    ensures Sorted(TimesOf(history))
  {
    forall i, j | 0 <= i < j < |history| ensures TimesOf(history)[i] <= TimesOf(history)[j] {
      ChainIsSorted(p, history, i, j);
    }
  }

  function RedisCount(p: Policy, guesses: seq<Guess>, raising: set<nat>, start: int): nat {
    CountIn(TimesOf(RedisRun(p, guesses, raising).1), start, start + p.windowSeconds)
  }

  /** Whichever EXPIRE commands raise, the bound is exceeded by one at most, and only for a threshold of one. */
  lemma LostExpiryBound(p: Policy, guesses: seq<Guess>, raising: set<nat>, start: int)
    requires ValidPolicy(p) && Serial(guesses)
    ensures RedisCount(p, guesses, raising, start) <= RedisBound(p) + Unexpired(p, RedisRun(p, guesses, raising).1)
  {
    RedisRunKeepsInv(p, guesses, raising, if guesses == [] then 0 else guesses[|guesses| - 1].failedAt);
    var history := RedisRun(p, guesses, raising).1;
    TimesAreSorted(p, history);
    var i, j := WindowIsBlock(TimesOf(history), start, start + p.windowSeconds);
    if i < j { BlockBound(p, history, i, j); }
  }

  /** Guess-rate bound of the Redis counter. The window is fixed, not sliding, so it can be weaker than in memory. */
  lemma RedisGuessRateBound(p: Policy, guesses: seq<Guess>, start: int)
    requires ValidPolicy(p) && Serial(guesses)
    ensures RedisCount(p, guesses, {}, start) <= RedisBound(p)
  {
    LostExpiryBound(p, guesses, {}, start);
    NothingLasts(p, guesses);
  }

  // ----- the bound is reached -----

  /** The worst schedule for a threshold of two or more: one failure just before the window, the rest of its counter's
      life at the start of the window with a guess whenever the lock runs out, and a new life at the very end. The
      first life sets the lock a times. */
  function WorstTime(p: Policy, a: nat, k: nat): int {
    if k == 0 then -1
    else if k < p.threshold - 1 then 0
    else if k < p.threshold - 1 + a then Times(k - (p.threshold - 1), p.lockSeconds)
    else p.windowSeconds - 1
  }

  function WorstKeys(p: Policy, a: nat, n: nat): Keys {
    if n == 0 then Keys(None, None)
    else if n <= p.threshold - 1 + a then
      Keys(Some(Counter(n, Some(p.windowSeconds - 1))),
           if n >= p.threshold then Some(WorstTime(p, a, n - 1) + p.lockSeconds) else None)
    else
      Keys(Some(Counter(n - (p.threshold - 1 + a), Some(2 * p.windowSeconds - 1))),
           if n == 2 * p.threshold - 1 + a then Some(p.windowSeconds - 1 + p.lockSeconds)
           else if a > 0 then Some(Times(a, p.lockSeconds)) else None)
  }

  function WorstGuesses(p: Policy, a: nat, n: nat): seq<Guess> {
    seq(n, k requires 0 <= k < n => Guess(WorstTime(p, a, k), WorstTime(p, a, k)))
  }

  lemma WorstTimeGrows(p: Policy, a: nat, k: nat)
    requires ValidPolicy(p) && p.threshold >= 2 && p.windowSeconds >= 2 && Times(a, p.lockSeconds) < p.windowSeconds
    ensures WorstTime(p, a, k) <= WorstTime(p, a, k + 1) < p.windowSeconds
    ensures k > 0 ==> 0 <= WorstTime(p, a, k)
  {
    var m := k - (p.threshold - 1);
    if 0 <= m {
      if m < a { TimesGrow(m, a, p.lockSeconds); }
      if m + 1 < a { TimesGrow(m + 1, a, p.lockSeconds); }
    } else if m == -1 && a > 0 {
      TimesGrow(0, a, p.lockSeconds);
    }
  }

  lemma WorstStep(p: Policy, a: nat, n: nat)
    requires ValidPolicy(p) && p.threshold >= 2 && p.windowSeconds >= 2 && Times(a, p.lockSeconds) < p.windowSeconds
    requires n < 2 * p.threshold - 1 + a
    ensures Unlocked(WorstKeys(p, a, n), WorstTime(p, a, n))
    ensures Failed(WorstKeys(p, a, n), WorstTime(p, a, n), p, false) == WorstKeys(p, a, n + 1)
  {
    var m := n - (p.threshold - 1);
    if 0 <= m < a {
      TimesGrow(m, a, p.lockSeconds);
    }
    if m == a && a > 0 {
      TimesGrow(a - 1, a, p.lockSeconds);
    }
  }

  lemma {:induction false} WorstRun(p: Policy, a: nat, n: nat)
    requires ValidPolicy(p) && p.threshold >= 2 && p.windowSeconds >= 2 && Times(a, p.lockSeconds) < p.windowSeconds
    requires n <= 2 * p.threshold - 1 + a
    ensures RedisRun(p, WorstGuesses(p, a, n), {}).0 == WorstKeys(p, a, n)
    ensures |RedisRun(p, WorstGuesses(p, a, n), {}).1| == n
    ensures forall k :: 0 <= k < n ==> RedisRun(p, WorstGuesses(p, a, n), {}).1[k].at == WorstTime(p, a, k)
  {
    if n == 0 {
    } else {
      assert WorstGuesses(p, a, n)[..n - 1] == WorstGuesses(p, a, n - 1);
      WorstRun(p, a, n - 1);
      WorstStep(p, a, n - 1);
    }
  }

  lemma {:induction false} AllButFirst(times: seq<int>, w: int)
    requires times != [] && times[0] == -1 && forall k :: 1 <= k < |times| ==> 0 <= times[k] < w
    ensures CountIn(times, 0, w) == |times| - 1
  {
    if |times| > 1 {
      AllButFirst(times[..|times| - 1], w);
    } else {
      assert CountIn(times[..0], 0, w) == 0;
    }
  }

  lemma WorstIsReached(p: Policy) returns (guesses: seq<Guess>)
    requires ValidPolicy(p) && p.threshold >= 2 && p.windowSeconds >= 2
    ensures Serial(guesses)
    ensures CountIn(TimesOf(RedisRun(p, guesses, {}).1), 0, p.windowSeconds) == RedisBound(p)
  {
    var m := (p.windowSeconds + p.lockSeconds - 1) / p.lockSeconds;
    TimesIsProduct(m - 1, p.lockSeconds);
    assert Times(m - 1, p.lockSeconds) < p.windowSeconds;
    var a := m - 1;
    var n := 2 * p.threshold - 1 + a;
    guesses := WorstGuesses(p, a, n);
    forall k | 0 < k < n ensures guesses[k - 1].failedAt <= guesses[k].checkedAt { WorstTimeGrows(p, a, k - 1); }
    WorstRun(p, a, n);
    var times := TimesOf(RedisRun(p, guesses, {}).1);
    forall k | 1 <= k < n ensures 0 <= times[k] < p.windowSeconds { WorstTimeGrows(p, a, k); }
    AllButFirst(times, p.windowSeconds);
  }

  /** The keys after n guesses of the schedule that is worst in memory, all in one life that begins at 0. */
  function BurstKeys(p: Policy, n: nat): Keys {
    if n == 0 then Keys(None, None)
    else Keys(Some(Counter(n, Some(p.windowSeconds))),
              if n >= p.threshold then Some(FailTime(p, n - 1) + p.lockSeconds) else None)
  }

  lemma RedisBurstStep(p: Policy, n: nat)
    requires ValidPolicy(p) && FailTime(p, n) < p.windowSeconds
    ensures Unlocked(BurstKeys(p, n), FailTime(p, n))
    ensures Failed(BurstKeys(p, n), FailTime(p, n), p, false) == BurstKeys(p, n + 1)
  {
    if n > 0 { FailTimesGrow(p, n - 1); }
  }

  lemma {:induction false} BurstInRedis(p: Policy, n: nat)
    requires ValidPolicy(p) && (n > 0 ==> FailTime(p, n - 1) < p.windowSeconds)
    ensures RedisRun(p, Burst(p, n), {}).0 == BurstKeys(p, n) && |RedisRun(p, Burst(p, n), {}).1| == n
    ensures forall k :: 0 <= k < n ==> RedisRun(p, Burst(p, n), {}).1[k].at == FailTime(p, k)
  {
    if n == 0 {
    } else {
      if n > 1 { FailTimesGrow(p, n - 2); }
      assert Burst(p, n)[..n - 1] == Burst(p, n - 1);
      BurstInRedis(p, n - 1);
      RedisBurstStep(p, n - 1);
    }
  }

  lemma BurstIsReached(p: Policy) returns (guesses: seq<Guess>)
    requires ValidPolicy(p)
    ensures Serial(guesses)
    ensures CountIn(TimesOf(RedisRun(p, guesses, {}).1), 0, p.windowSeconds)
         == p.threshold - 1 + CeilDiv(p.windowSeconds, p.lockSeconds)
  {
    var m := (p.windowSeconds + p.lockSeconds - 1) / p.lockSeconds;
    var n := p.threshold - 1 + m;
    guesses := Burst(p, n);
    forall i | 0 < i < n ensures guesses[i - 1].failedAt <= guesses[i].checkedAt { FailTimesGrow(p, i - 1); }
    TimesIsProduct(m - 1, p.lockSeconds);
    assert Times(m - 1, p.lockSeconds) < p.windowSeconds;
    assert FailTime(p, n - 1) == Times(m - 1, p.lockSeconds);
    BurstInRedis(p, n);
    forall i | 0 <= i < n ensures 0 <= TimesOf(RedisRun(p, guesses, {}).1)[i] < p.windowSeconds {
      FailTimesSorted(p, i, n - 1);
    }
    AllCounted(TimesOf(RedisRun(p, guesses, {}).1), 0, p.windowSeconds);
  }

  /** No smaller bound holds: for every policy some serial guesses reach it. */
  lemma RedisBoundIsReached(p: Policy) returns (guesses: seq<Guess>)
    requires ValidPolicy(p)
    ensures Serial(guesses)
    ensures CountIn(TimesOf(RedisRun(p, guesses, {}).1), 0, p.windowSeconds) == RedisBound(p)
  {
    if p.threshold >= 2 && p.windowSeconds >= 2 {
      guesses := WorstIsReached(p);
    } else {
      guesses := BurstIsReached(p);
    }
  }

  /** Every window of every serial run of Redis keeps the bound of the in-memory limiter. */
  ghost predicate AsStrictAsMemory(p: Policy)
    requires ValidPolicy(p)
  {
    forall guesses, start :: Serial(guesses) ==>
      RedisCount(p, guesses, {}, start) <= p.threshold - 1 + CeilDiv(p.windowSeconds, p.lockSeconds)
  }

  /** Redis is as strict as memory exactly for a threshold of at most two or a window of one second. */
  lemma AsStrictAsMemoryIff(p: Policy)
    requires ValidPolicy(p)
    ensures AsStrictAsMemory(p) <==> p.threshold <= 2 || p.windowSeconds == 1
  {
    if p.threshold <= 2 || p.windowSeconds == 1 {
      forall guesses, start | Serial(guesses)
        ensures RedisCount(p, guesses, {}, start) <= p.threshold - 1 + CeilDiv(p.windowSeconds, p.lockSeconds)
      {
        RedisGuessRateBound(p, guesses, start);
      }
    } else {
      var guesses := RedisBoundIsReached(p);
      assert RedisCount(p, guesses, {}, 0) > p.threshold - 1 + CeilDiv(p.windowSeconds, p.lockSeconds);
    }
  }

  // ----- a lost expiry -----

  /** For a threshold of one: a failure whose EXPIRE raises, at once another, and one whenever the lock runs out. */
  function LostTime(p: Policy, k: nat): int {
    if k == 0 then 0 else Times(k - 1, p.lockSeconds)
  }

  function LostGuesses(p: Policy, n: nat): seq<Guess> {
    seq(n, k requires 0 <= k < n => Guess(LostTime(p, k), LostTime(p, k)))
  }

  function LostKeys(p: Policy, n: nat): Keys {
    if n == 0 then Keys(None, None)
    else Keys(Some(Counter(n, None)), if n == 1 then None else Some(Times(n - 1, p.lockSeconds)))
  }

  lemma {:induction false} LostRun(p: Policy, n: nat)
    requires ValidPolicy(p) && p.threshold == 1
    ensures RedisRun(p, LostGuesses(p, n), {0}).0 == LostKeys(p, n) && |RedisRun(p, LostGuesses(p, n), {0}).1| == n
    ensures forall k :: 0 <= k < n ==> RedisRun(p, LostGuesses(p, n), {0}).1[k].at == LostTime(p, k)
  {
    if n == 0 {
    } else {
      assert LostGuesses(p, n)[..n - 1] == LostGuesses(p, n - 1);
      LostRun(p, n - 1);
    }
  }

  lemma LostTimeGrows(p: Policy, k: nat, m: nat)
    requires ValidPolicy(p) && 1 <= m && k <= m && Times(m - 1, p.lockSeconds) < p.windowSeconds
    ensures 0 <= LostTime(p, k) < p.windowSeconds && (k > 0 ==> LostTime(p, k - 1) <= LostTime(p, k))
  {
    if k > 0 { TimesGrow(k - 1, m - 1, p.lockSeconds); }
    if k > 1 { TimesGrow(k - 2, k - 1, p.lockSeconds); }
  }

  lemma LostCount(p: Policy, m: nat)
    requires ValidPolicy(p) && p.threshold == 1 && 1 <= m && Times(m - 1, p.lockSeconds) < p.windowSeconds
    ensures Serial(LostGuesses(p, m + 1)) && RedisCount(p, LostGuesses(p, m + 1), {0}, 0) == m + 1
  {
    LostRun(p, m + 1);
    var times := TimesOf(RedisRun(p, LostGuesses(p, m + 1), {0}).1);
    forall k | 0 <= k < |times| ensures 0 <= times[k] < p.windowSeconds { LostTimeGrows(p, k, m); }
    AllCounted(times, 0, p.windowSeconds);
    forall k | 0 < k <= m ensures LostTime(p, k - 1) <= LostTime(p, k) { LostTimeGrows(p, k, m); }
  }

  lemma LostExpiryCostsOne(p: Policy) returns (guesses: seq<Guess>)
    requires ValidPolicy(p) && p.threshold == 1
    ensures Serial(guesses) && RedisCount(p, guesses, {0}, 0) == RedisBound(p) + 1
  {
    var m := CeilDiv(p.windowSeconds, p.lockSeconds);
    TimesIsProduct(m - 1, p.lockSeconds);
    assert Times(m - 1, p.lockSeconds) < p.windowSeconds;
    LostCount(p, m);
    guesses := LostGuesses(p, m + 1);
  }

  ghost predicate SurvivesLostExpiries(p: Policy)
    requires ValidPolicy(p)
  {
    forall guesses, raising, start :: Serial(guesses) ==> RedisCount(p, guesses, raising, start) <= RedisBound(p)
  }

  /** The bound holds whichever EXPIRE commands raise, exactly for a threshold of two or more. */
  lemma SurvivesLostExpiriesIff(p: Policy)
    requires ValidPolicy(p)
    ensures SurvivesLostExpiries(p) <==> p.threshold >= 2
  {
    if p.threshold >= 2 {
      forall guesses, raising, start | Serial(guesses)
        ensures RedisCount(p, guesses, raising, start) <= RedisBound(p)
      {
        LostExpiryBound(p, guesses, raising, start);
      }
    } else {
      var guesses := LostExpiryCostsOne(p);
      assert RedisCount(p, guesses, {0}, 0) > RedisBound(p);
    }
  }

  /** What a lost expiry does do: the counter never starts again, so from the threshold on every failure locks, however
      long after the one before it, until there is a success. */
  lemma {:induction false} LostExpiryLocksForever(p: Policy, guesses: seq<Guess>, raising: set<nat>, clock: int, i: nat,
                                                  j: nat)
    requires ValidPolicy(p) && Serial(guesses) && (guesses != [] ==> guesses[|guesses| - 1].failedAt <= clock)
    requires i <= j < |RedisRun(p, guesses, raising).1| && RedisRun(p, guesses, raising).1[i].lasting
    ensures var history := RedisRun(p, guesses, raising).1;
            && history[j].number == history[i].number + (j - i)
            && (j > i ==> (Locks(p, history[j]) <==> history[i].number + (j - i) >= p.threshold))
  {
    RedisRunKeepsInv(p, guesses, raising, clock);
    LastingGoesOn(p, RedisRun(p, guesses, raising).1, i, j);
  }

  lemma {:induction false} LastingGoesOn(p: Policy, history: seq<Entry>, i: nat, j: nat)
    requires Chained(p, history) && i <= j < |history| && history[i].lasting
    ensures history[j].lasting && history[j].number == history[i].number + (j - i)
  {
    if i == j {
    } else {
      LastingGoesOn(p, history, i, j - 1);
      assert Follows(p, history[j - 1], history[j]);
    }
  }
}
