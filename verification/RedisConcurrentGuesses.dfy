/**
 * The Redis failure counter and lock with guesses in flight: the lock is looked at when a guess begins and the failure
 * recorded, in one step, when it ends.
 */
module RedisConcurrentGuesses {
  import opened Basics
  import opened AuthLockout
  import opened RedisFailureLock

  /** The keys of the guard, the guesses that have passed the lock and not ended, and every recorded failure. */
  datatype State = State(keys: Keys, inFlight: nat, history: seq<Entry>, clock: int)

  /** A guess begins, ends with a failure, or ends without one; it does not succeed. */
  datatype Action = Begin(at: int) | FailAt(at: int, raises: bool) | GiveUp(at: int)

  predicate Enabled(most: nat, s: State, a: Action) {
    a.at >= s.clock && if a.Begin? then s.inFlight < most else s.inFlight > 0
  }

  function Next(p: Policy, most: nat, s: State, a: Action): State {
    if !Enabled(most, s, a) then s
    else match a
      case Begin(at) => s.(inFlight := if Unlocked(s.keys, at) then s.inFlight + 1 else s.inFlight, clock := at)
      case FailAt(at, raises) =>
        State(Failed(s.keys, at, p, raises), s.inFlight - 1, s.history + [Recorded(s.keys, at, p, raises)], at)
      case GiveUp(at) => s.(inFlight := s.inFlight - 1, clock := at)
  }

  /** At most the given number of guesses are in flight. */
  function Exec(p: Policy, most: nat, clock: int, actions: seq<Action>): State {
    if actions == [] then State(Keys(None, None), 0, [], clock)
    else Next(p, most, Exec(p, most, clock, actions[..|actions| - 1]), actions[|actions| - 1])
  }

  // ----- invariants -----

  /** From a failure that locks, at most so many more, and then a lock period without any. */
  ghost predicate Spread(p: Policy, most: nat, history: seq<Entry>) {
    forall j {:trigger Locks(p, history[j])} ::
      0 <= j < |history| - most && Locks(p, history[j]) ==> history[j + most].at >= history[j].at + p.lockSeconds
  }

  /** While its lock period lasts, the failures since and the guesses in flight are fewer than may be in flight. */
  predicate Bounded(p: Policy, most: nat, s: State, j: nat)
    requires j < |s.history|
  {
    s.clock < s.history[j].at + p.lockSeconds ==>
      && s.keys.lock.Some? && s.keys.lock.value >= s.history[j].at + p.lockSeconds
      && |s.history| - 1 - j + s.inFlight <= most - 1
  }

  ghost predicate AllBounded(p: Policy, most: nat, s: State) {
    forall j: nat :: j < |s.history| && Locks(p, s.history[j]) ==> Bounded(p, most, s, j)
  }

  ghost predicate Inv(p: Policy, most: nat, s: State) {
    && s.inFlight <= most && CounterInv(p, s.keys.counter, s.history, s.clock)
    && Spread(p, most, s.history) && AllBounded(p, most, s)
  }

  lemma LaterCounter(p: Policy, counter: Option<Counter>, history: seq<Entry>, clock: int, later: int)
    requires CounterInv(p, counter, history, clock) && clock <= later
    ensures CounterInv(p, counter, history, later)
  {
  }

  lemma BeginKeepsInv(p: Policy, most: nat, s: State, at: int)
    requires ValidPolicy(p) && Inv(p, most, s) && Enabled(most, s, Begin(at))
    ensures Inv(p, most, Next(p, most, s, Begin(at)))
  {
    var t := Next(p, most, s, Begin(at));
    LaterCounter(p, s.keys.counter, s.history, s.clock, at);
    forall j: nat | j < |t.history| && Locks(p, t.history[j]) ensures Bounded(p, most, t, j) {
      assert Bounded(p, most, s, j);
    }
  }

  lemma GiveUpKeepsInv(p: Policy, most: nat, s: State, at: int)
    requires ValidPolicy(p) && Inv(p, most, s) && Enabled(most, s, GiveUp(at))
    ensures Inv(p, most, Next(p, most, s, GiveUp(at)))
  {
    var t := Next(p, most, s, GiveUp(at));
    LaterCounter(p, s.keys.counter, s.history, s.clock, at);
    forall j: nat | j < |t.history| && Locks(p, t.history[j]) ensures Bounded(p, most, t, j) {
      assert Bounded(p, most, s, j);
    }
  }

  lemma FailKeepsSpread(p: Policy, most: nat, s: State, e: Entry)
    requires most > 0 && Spread(p, most, s.history) && AllBounded(p, most, s) && s.clock <= e.at && s.inFlight > 0
    ensures Spread(p, most, s.history + [e])
  {
    var longer := s.history + [e];
    forall j: nat | j < |longer| - most && Locks(p, longer[j])
      ensures longer[j + most].at >= longer[j].at + p.lockSeconds
    {
      assert longer[j] == s.history[j] && Bounded(p, most, s, j);
    }
  }

  lemma FailKeepsBounded(p: Policy, most: nat, s: State, at: int, raises: bool)
    requires ValidPolicy(p) && Inv(p, most, s) && Enabled(most, s, FailAt(at, raises))
    ensures AllBounded(p, most, Next(p, most, s, FailAt(at, raises)))
  {
    var t := Next(p, most, s, FailAt(at, raises));
    FailSetsLock(p, s.keys, at, raises);
    forall j: nat | j < |t.history| && Locks(p, t.history[j]) ensures Bounded(p, most, t, j) {
      if j < |s.history| {
        assert t.history[j] == s.history[j] && Bounded(p, most, s, j);
        ChainIsSorted(p, s.history, j, |s.history| - 1);
      }
    }
  }

  lemma FailKeepsInv(p: Policy, most: nat, s: State, at: int, raises: bool)
    requires ValidPolicy(p) && most > 0 && Inv(p, most, s) && Enabled(most, s, FailAt(at, raises))
    ensures Inv(p, most, Next(p, most, s, FailAt(at, raises)))
  {
    FailKeepsCounter(p, s.keys, s.history, s.clock, at, raises);
    FailKeepsSpread(p, most, s, Recorded(s.keys, at, p, raises));
    FailKeepsBounded(p, most, s, at, raises);
  }

  lemma {:induction false} InvInEveryRun(p: Policy, most: nat, clock: int, actions: seq<Action>)
    requires ValidPolicy(p) && most > 0
    ensures Inv(p, most, Exec(p, most, clock, actions))
  {
    if actions == [] {
    } else {
      var before, a := actions[..|actions| - 1], actions[|actions| - 1];
      InvInEveryRun(p, most, clock, before);
      var s := Exec(p, most, clock, before);
      if Enabled(most, s, a) {
        match a
        case Begin(at) => BeginKeepsInv(p, most, s, at);
        case FailAt(at, raises) => FailKeepsInv(p, most, s, at, raises);
        case GiveUp(at) => GiveUpKeepsInv(p, most, s, at);
      }
    }
  }

  // ----- the guess-rate bound -----

  lemma {:induction false} LockingSplits(p: Policy, history: seq<Entry>, i: nat, m: nat, j: nat)
    requires i <= m <= j <= |history|
    ensures Locking(p, history, i, j) == Locking(p, history, i, m) + Locking(p, history, m, j)
    ensures Locking(p, history, i, j) <= j - i
  {
    BlockSplits(p, history, i, m, j);
    BlockSplits(p, history, i, i, m);
    BlockSplits(p, history, m, m, j);
  }

  /** The first failure of the block that locks, or its end. */
  lemma {:induction false} FirstLocking(p: Policy, history: seq<Entry>, i: nat, j: nat) returns (a: nat)
    requires i <= j <= |history|
    ensures i <= a <= j && Locking(p, history, i, a) == 0 && (a < j ==> Locks(p, history[a]))
  {
    a := i;
    while a < j && !Locks(p, history[a])
      invariant i <= a <= j && Locking(p, history, i, a) == 0
    {
      a := a + 1;
    }
  }

  /** In less than r lock periods, at most r groups lock. */
  lemma {:induction false} GroupsOfLocks(p: Policy, most: nat, history: seq<Entry>, i: nat, j: nat, r: nat)
    requires ValidPolicy(p) && most > 0 && Chained(p, history) && Spread(p, most, history)
    requires i < j <= |history| && history[j - 1].at < history[i].at + Times(r, p.lockSeconds)
    ensures Locking(p, history, i, j) <= Times(r, most)
    decreases r
  {
    var a := FirstLocking(p, history, i, j);
    LockingSplits(p, history, i, a, j);
    ChainIsSorted(p, history, i, j - 1);
    if a < j {
      TimesGrow(0, r - 1, most);
      if a + most < j {
        LockingSplits(p, history, a, a + most, j);
        LockingSplits(p, history, a, a, a + most);
        ChainIsSorted(p, history, i, a);
        ChainIsSorted(p, history, a + most, j - 1);
        GroupsOfLocks(p, most, history, a + most, j, r - 1);
      } else {
        LockingSplits(p, history, a, a, j);
      }
    } else {
      TimesGrow(0, r, most);
    }
  }

  lemma WindowFits(w: nat, l: nat)
    requires w > 0 && l > 0
    ensures w <= Times(CeilDiv(w, l), l)
  {
    TimesIsProduct(CeilDiv(w, l), l);
  }

  function ConcurrentRedisBound(p: Policy, most: nat): int
    requires p.windowSeconds > 0 && p.lockSeconds > 0
  {
    p.threshold - 1 + Extra(p) + Times(CeilDiv(p.windowSeconds, p.lockSeconds), most)
  }

  lemma GroupBlockBound(p: Policy, most: nat, history: seq<Entry>, i: nat, j: nat)
    requires ValidPolicy(p) && most > 0 && Chained(p, history) && Spread(p, most, history)
    requires i < j <= |history| && history[j - 1].at < history[i].at + p.windowSeconds
    ensures j - i <= ConcurrentRedisBound(p, most) + Unexpired(p, history)
  {
    FewAreFree(p, history, i, j);
    WindowFits(p.windowSeconds, p.lockSeconds);
    GroupsOfLocks(p, most, history, i, j, CeilDiv(p.windowSeconds, p.lockSeconds));
    BlockSplits(p, history, i, i, j);
  }

  /** Guess-rate bound of Redis with guesses in flight, whichever EXPIRE commands raise: the free failures of a fixed
      window, and as many more for each lock period begun as may be in flight together. */
  lemma RedisConcurrentBound(p: Policy, most: nat, clock: int, actions: seq<Action>, start: int)
    requires ValidPolicy(p) && most > 0
    ensures var history := Exec(p, most, clock, actions).history;
            var count := CountIn(TimesOf(history), start, start + p.windowSeconds);
            count <= ConcurrentRedisBound(p, most) + Unexpired(p, history)
  {
    InvInEveryRun(p, most, clock, actions);
    var history := Exec(p, most, clock, actions).history;
    TimesAreSorted(p, history);
    var i, j := WindowIsBlock(TimesOf(history), start, start + p.windowSeconds);
    TimesGrow(0, CeilDiv(p.windowSeconds, p.lockSeconds), most);
    if i < j { GroupBlockBound(p, most, history, i, j); }
  }

  // ----- the bound is reached -----

  ghost predicate Reaches(p: Policy, most: nat, clock: int, actions: seq<Action>, s: State) {
    Exec(p, most, clock, actions) == s
  }

  lemma Extend(p: Policy, most: nat, clock: int, actions: seq<Action>, s: State, a: Action)
    requires Reaches(p, most, clock, actions, s)
    ensures Reaches(p, most, clock, actions + [a], Next(p, most, s, a))
  {
    assert (actions + [a])[..|actions|] == actions;
  }

  function Counted(p: Policy, history: seq<Entry>): nat { CountIn(TimesOf(history), 0, p.windowSeconds) }

  lemma CountedNext(p: Policy, history: seq<Entry>, e: Entry)
    ensures Counted(p, history + [e]) == Counted(p, history) + if 0 <= e.at < p.windowSeconds then 1 else 0
  {
    assert TimesOf(history + [e])[..|history|] == TimesOf(history);
  }

  /** The keys after n failures at one time. */
  function FailedTimes(p: Policy, k: Keys, at: int, n: nat): Keys {
    if n == 0 then k else Failed(FailedTimes(p, k, at, n - 1), at, p, false)
  }

  /** The counter that failures at the time count on: a live one, or a new one. */
  function Base(p: Policy, k: Keys, at: int): Counter {
    if Live(k.counter, at) then k.counter.value else Counter(0, Some(at + p.windowSeconds))
  }

  lemma {:induction false} FailedTimesKeys(p: Policy, k: Keys, at: int, n: nat)
    requires ValidPolicy(p) && n > 0
    ensures var base := Base(p, k, at);
            FailedTimes(p, k, at, n)
              == Keys(Some(Counter(base.count + n, base.expiry)),
                      if base.count + n >= p.threshold then Some(at + p.lockSeconds) else k.lock)
  {
    if n > 1 { FailedTimesKeys(p, k, at, n - 1); }
  }

  /** Guesses begin together. */
  lemma {:induction false} BeginTogether(p: Policy, most: nat, clock: int, before: seq<Action>, s: State, at: int,
                                         n: nat)
    returns (run: seq<Action>)
    requires Reaches(p, most, clock, before, s) && s.inFlight == 0 && s.clock <= at && Unlocked(s.keys, at)
    requires 0 < n <= most
    ensures Reaches(p, most, clock, run, s.(inFlight := n, clock := at))
  {
    if n == 1 {
      Extend(p, most, clock, before, s, Begin(at));
      run := before + [Begin(at)];
    } else {
      run := BeginTogether(p, most, clock, before, s, at, n - 1);
      Extend(p, most, clock, run, s.(inFlight := n - 1, clock := at), Begin(at));
      run := run + [Begin(at)];
    }
  }

  /** And n of them fail. */
  lemma {:induction false} FailTogether(p: Policy, most: nat, clock: int, before: seq<Action>, s: State, n: nat)
    returns (run: seq<Action>, t: State)
    requires Reaches(p, most, clock, before, s) && n <= s.inFlight && 0 <= s.clock < p.windowSeconds
    ensures Reaches(p, most, clock, run, t) && t.keys == FailedTimes(p, s.keys, s.clock, n)
    ensures t.inFlight == s.inFlight - n && t.clock == s.clock && Counted(p, t.history) == Counted(p, s.history) + n
  {
    if n == 0 {
      run, t := before, s;
    } else {
      run, t := FailTogether(p, most, clock, before, s, n - 1);
      var a := FailAt(s.clock, false);
      Extend(p, most, clock, run, t, a);
      CountedNext(p, t.history, Recorded(t.keys, s.clock, p, false));
      run, t := run + [a], Next(p, most, t, a);
    }
  }

  /** A group of guesses that all begin before the first of them fails. */
  lemma Group(p: Policy, most: nat, clock: int, before: seq<Action>, s: State, at: int, n: nat)
    returns (run: seq<Action>, t: State)
    requires Reaches(p, most, clock, before, s) && s.inFlight == 0 && s.clock <= at && Unlocked(s.keys, at)
    requires 0 < n <= most && 0 <= at < p.windowSeconds
    ensures Reaches(p, most, clock, run, t) && t.keys == FailedTimes(p, s.keys, at, n)
    ensures t.inFlight == 0 && t.clock == at && Counted(p, t.history) == Counted(p, s.history) + n
  {
    run := BeginTogether(p, most, clock, before, s, at, n);
    run, t := FailTogether(p, most, clock, run, s.(inFlight := n, clock := at), n);
  }

  /** Failures one after the other that do not lock yet. */
  lemma {:induction false} FreeFailures(p: Policy, most: nat, clock: int, before: seq<Action>, s: State, at: int,
                                         n: nat)
    returns (run: seq<Action>, t: State)
    requires ValidPolicy(p) && most > 0 && Reaches(p, most, clock, before, s) && s.inFlight == 0 && s.clock <= at
    requires Unlocked(s.keys, at) && 0 <= at < p.windowSeconds && Base(p, s.keys, at).count + n < p.threshold
    ensures Reaches(p, most, clock, run, t) && t.keys == FailedTimes(p, s.keys, at, n)
    ensures t.inFlight == 0 && t.clock <= at && Counted(p, t.history) == Counted(p, s.history) + n
  {
    if n == 0 {
      run, t := before, s;
    } else {
      run, t := FreeFailures(p, most, clock, before, s, at, n - 1);
      if n > 1 { FailedTimesKeys(p, s.keys, at, n - 1); }
      run, t := Group(p, most, clock, run, t, at, 1);
    }
  }

  /** The next failure at the time locks, and the counter it counts on lives until the end. */
  predicate Ready(p: Policy, k: Keys, at: int, end: int) {
    Unlocked(k, at) && Base(p, k, at).count + 1 >= p.threshold && Base(p, k, at).expiry == Some(end) && at < end
  }

  lemma ReadyAgain(p: Policy, k: Keys, at: int, end: int, n: nat)
    requires ValidPolicy(p) && n > 0 && Ready(p, k, at, end)
    ensures at + p.lockSeconds < end ==> Ready(p, FailedTimes(p, k, at, n), at + p.lockSeconds, end)
    ensures Unlocked(FailedTimes(p, k, at, n), at + p.lockSeconds)
    ensures FailedTimes(p, k, at, n).counter.Some? && FailedTimes(p, k, at, n).counter.value.expiry == Some(end)
  {
    FailedTimesKeys(p, k, at, n);
  }

  /** A group whenever the lock runs out. */
  lemma {:induction false} Groups(p: Policy, most: nat, clock: int, before: seq<Action>, s: State, end: int, n: nat)
    returns (run: seq<Action>, t: State)
    requires ValidPolicy(p) && most > 0 && Reaches(p, most, clock, before, s) && s.inFlight == 0 && s.clock <= 0
    requires n > 0 && Ready(p, s.keys, 0, end) && Times(n - 1, p.lockSeconds) < end <= p.windowSeconds
    ensures Reaches(p, most, clock, run, t) && t.inFlight == 0 && t.clock <= Times(n, p.lockSeconds)
    ensures Counted(p, t.history) == Counted(p, s.history) + Times(n, most)
    ensures Times(n, p.lockSeconds) < end ==> Ready(p, t.keys, Times(n, p.lockSeconds), end)
    ensures Unlocked(t.keys, Times(n, p.lockSeconds))
    ensures t.keys.counter.Some? && t.keys.counter.value.expiry == Some(end)
  {
    var at := Times(n - 1, p.lockSeconds);
    TimesGrow(0, n - 1, p.lockSeconds);
    if n == 1 {
      run, t := Group(p, most, clock, before, s, at, most);
      ReadyAgain(p, s.keys, at, end, most);
    } else {
      var u;
      run, u := Groups(p, most, clock, before, s, end, n - 1);
      run, t := Group(p, most, clock, run, u, at, most);
      ReadyAgain(p, u.keys, at, end, most);
    }
  }

  /** In one life of the counter. */
  lemma OneLife(p: Policy, most: nat, m: nat) returns (run: seq<Action>)
    requires ValidPolicy(p) && most > 0 && m > 0 && Times(m - 1, p.lockSeconds) < p.windowSeconds
    ensures Counted(p, Exec(p, most, 0, run).history) == p.threshold - 1 + Times(m, most)
  {
    var s := State(Keys(None, None), 0, [], 0);
    var t;
    run, t := FreeFailures(p, most, 0, [], s, 0, p.threshold - 1);
    if p.threshold > 1 { FailedTimesKeys(p, s.keys, 0, p.threshold - 1); }
    run, t := Groups(p, most, 0, run, t, p.windowSeconds, m);
  }

  /** The life that began just before the window, up to its end: all its failures but the first. */
  lemma FirstLife(p: Policy, most: nat, a: nat) returns (run: seq<Action>, t: State)
    requires ValidPolicy(p) && p.threshold >= 2 && most > 0 && Times(a, p.lockSeconds) < p.windowSeconds
    requires p.windowSeconds >= 2
    ensures Reaches(p, most, -1, run, t) && t.inFlight == 0 && t.clock <= p.windowSeconds - 1
    ensures Unlocked(t.keys, p.windowSeconds - 1) && !Live(t.keys.counter, p.windowSeconds - 1)
    ensures Counted(p, t.history) == p.threshold - 2 + Times(a, most)
  {
    var w := p.windowSeconds;
    run, t := BeforeWindow(p, most);
    run, t := FreeFailures(p, most, -1, run, t, 0, p.threshold - 2);
    if p.threshold > 2 { FailedTimesKeys(p, Keys(Some(Counter(1, Some(w - 1))), None), 0, p.threshold - 2); }
    if a > 0 { run, t := Groups(p, most, -1, run, t, w - 1, a); }
  }

  lemma BeforeWindow(p: Policy, most: nat) returns (run: seq<Action>, t: State)
    requires ValidPolicy(p) && p.threshold >= 2 && most > 0
    ensures Reaches(p, most, -1, run, t) && t.inFlight == 0 && t.clock == -1 && Counted(p, t.history) == 0
    ensures t.keys == Keys(Some(Counter(1, Some(p.windowSeconds - 1))), None)
  {
    var s := State(Keys(None, None), 0, [], -1);
    run := BeginTogether(p, most, -1, [], s, -1, 1);
    s := s.(inFlight := 1);
    Extend(p, most, -1, run, s, FailAt(-1, false));
    CountedNext(p, [], Recorded(s.keys, -1, p, false));
    run, t := run + [FailAt(-1, false)], Next(p, most, s, FailAt(-1, false));
  }

  /** And a new life at its end. */
  lemma TwoLives(p: Policy, most: nat, a: nat) returns (run: seq<Action>)
    requires ValidPolicy(p) && p.threshold >= 2 && most > 0 && Times(a, p.lockSeconds) < p.windowSeconds
    requires p.windowSeconds >= 2
    ensures Counted(p, Exec(p, most, -1, run).history) == p.threshold - 2 + Times(a, most) + (p.threshold - 1) + most
  {
    var t;
    run, t := FirstLife(p, most, a);
    var k := t.keys;
    run, t := FreeFailures(p, most, -1, run, t, p.windowSeconds - 1, p.threshold - 1);
    FailedTimesKeys(p, k, p.windowSeconds - 1, p.threshold - 1);
    run, t := Group(p, most, -1, run, t, p.windowSeconds - 1, most);
  }

  /** No smaller bound holds: for every policy and any number of guesses in flight, some run reaches it. */
  lemma RedisConcurrentBoundIsReached(p: Policy, most: nat) returns (clock: int, run: seq<Action>)
    requires ValidPolicy(p) && most > 0
    ensures CountIn(TimesOf(Exec(p, most, clock, run).history), 0, p.windowSeconds) == ConcurrentRedisBound(p, most)
  {
    var m := CeilDiv(p.windowSeconds, p.lockSeconds);
    TimesIsProduct(m - 1, p.lockSeconds);
    assert Times(m - 1, p.lockSeconds) < p.windowSeconds;
    if p.threshold >= 2 && p.windowSeconds >= 2 {
      clock := -1;
      run := TwoLives(p, most, m - 1);
    } else {
      clock := 0;
      run := OneLife(p, most, m);
    }
  }
}
