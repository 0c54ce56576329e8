/**
 * Guesses in flight together: the lock is looked at when a guess begins and the failure recorded when it ends, and
 * other guesses at the same guard may begin and end in between.
 */
module ConcurrentGuesses {
  import opened Basics
  import opened AuthLockout

  /** The guard, the guesses that have passed the lock and not ended, and every recorded failure. */
  datatype State = State(track: Track, inFlight: nat, history: seq<int>, clock: int)

  /** A guess begins, ends with a failure, or ends without one; it does not succeed. */
  datatype Action = Begin(at: int) | FailAt(at: int) | GiveUp(at: int)

  predicate Enabled(most: nat, s: State, a: Action) {
    a.at >= s.clock && if a.Begin? then s.inFlight < most else s.inFlight > 0
  }

  function Next(p: Policy, most: nat, s: State, a: Action): State {
    if !Enabled(most, s, a) then s
    else match a
      case Begin(at) =>
        State(Check(s.track, at), if Allows(s.track, at) then s.inFlight + 1 else s.inFlight, s.history, at)
      case FailAt(at) => State(Fail(s.track, at, p), s.inFlight - 1, s.history + [at], at)
      case GiveUp(at) => s.(inFlight := s.inFlight - 1, clock := at)
  }

  /** At most the given number of guesses are in flight. */
  function Exec(p: Policy, most: nat, clock: int, actions: seq<Action>): State {
    if actions == [] then State(NEW_TRACK, 0, [], clock)
    else Next(p, most, Exec(p, most, clock, actions[..|actions| - 1]), actions[|actions| - 1])
  }

  /** From a failure that sets the lock, at most so many more, and then a lock period without any. */
  ghost predicate Spread(p: Policy, most: nat, history: seq<int>)
    requires p.threshold > 0
  {
    forall j {:trigger Trips(p, history, j)} ::
      0 <= j < |history| - most && Trips(p, history, j) ==> history[j + most] >= history[j] + p.lockSeconds
  }

  /** While its lock period lasts, the failures since and the guesses in flight are fewer than may be in flight. */
  predicate Bounded(p: Policy, most: nat, s: State, j: nat)
    requires j < |s.history|
  {
    s.clock < s.history[j] + p.lockSeconds ==>
      && s.track.lock.Some? && s.track.lock.value >= s.history[j] + p.lockSeconds
      && |s.history| - 1 - j + s.inFlight <= most - 1
  }

  ghost predicate HistoryInv(p: Policy, s: State) {
    && Sorted(s.history)
    && if s.history == [] then s.track == NEW_TRACK
       else
         var last := s.history[|s.history| - 1];
         last <= s.clock && s.track.events == Fresh(s.history, last - p.windowSeconds)
  }

  ghost predicate Inv(p: Policy, most: nat, s: State)
    requires p.threshold > 0
  {
    && s.inFlight <= most && HistoryInv(p, s) && Spread(p, most, s.history)
    && forall j: nat :: j < |s.history| && Trips(p, s.history, j) ==> Bounded(p, most, s, j)
  }

  lemma BeginKeepsInv(p: Policy, most: nat, s: State, at: int)
    requires ValidPolicy(p) && Inv(p, most, s) && Enabled(most, s, Begin(at))
    ensures Inv(p, most, Next(p, most, s, Begin(at)))
  {
    var t := Next(p, most, s, Begin(at));
    forall j: nat | j < |t.history| && Trips(p, t.history, j) ensures Bounded(p, most, t, j) {
      assert Bounded(p, most, s, j);
    }
  }

  lemma FailKeepsEvents(p: Policy, s: State, at: int)
    requires ValidPolicy(p) && HistoryInv(p, s) && s.clock <= at
    ensures Sorted(s.history + [at])
    ensures Fresh(s.track.events + [at], at - p.windowSeconds) == Fresh(s.history + [at], at - p.windowSeconds)
  {
    var h := s.history;
    FreshAgain(h, if h == [] then at - p.windowSeconds else h[|h| - 1] - p.windowSeconds, at - p.windowSeconds, at);
  }

  lemma FailKeepsHistory(p: Policy, s: State, at: int)
    requires ValidPolicy(p) && HistoryInv(p, s) && s.clock <= at
    ensures var track := Fail(s.track, at, p);
            Sorted(s.history + [at]) && track.events == Fresh(s.history + [at], at - p.windowSeconds)
            && (Trips(p, s.history + [at], |s.history|) ==> track.lock == Some(at + p.lockSeconds))
            && (track.lock == s.track.lock || track.lock == Some(at + p.lockSeconds))
  {
    FailKeepsEvents(p, s, at);
    FailTripsLock(p, s.history + [at], at);
  }

  lemma TripsBefore(p: Policy, history: seq<int>, at: int, j: nat)
    requires p.threshold > 0 && j < |history|
    ensures Trips(p, history + [at], j) <==> Trips(p, history, j)
  {
  }

  lemma FailKeepsSpread(p: Policy, most: nat, s: State, at: int)
    requires ValidPolicy(p) && most > 0 && Inv(p, most, s) && s.clock <= at && s.inFlight > 0
    ensures Spread(p, most, s.history + [at])
  {
    var longer := s.history + [at];
    forall j: nat | j < |longer| - most && Trips(p, longer, j) ensures longer[j + most] >= longer[j] + p.lockSeconds {
      TripsBefore(p, s.history, at, j);
      assert Bounded(p, most, s, j);
    }
  }

  lemma FailKeepsInv(p: Policy, most: nat, s: State, at: int)
    requires ValidPolicy(p) && most > 0 && Inv(p, most, s) && Enabled(most, s, FailAt(at))
    ensures Inv(p, most, Next(p, most, s, FailAt(at)))
  {
    var t := Next(p, most, s, FailAt(at));
    FailKeepsHistory(p, s, at);
    FailKeepsSpread(p, most, s, at);
    forall j: nat | j < |t.history| && Trips(p, t.history, j) ensures Bounded(p, most, t, j) {
      if j < |s.history| {
        TripsBefore(p, s.history, at, j);
        assert Bounded(p, most, s, j);
      }
    }
  }

  lemma GiveUpKeepsInv(p: Policy, most: nat, s: State, at: int)
    requires ValidPolicy(p) && Inv(p, most, s) && Enabled(most, s, GiveUp(at))
    ensures Inv(p, most, Next(p, most, s, GiveUp(at)))
  {
    var t := Next(p, most, s, GiveUp(at));
    forall j: nat | j < |t.history| && Trips(p, t.history, j) ensures Bounded(p, most, t, j) {
      assert Bounded(p, most, s, j);
    }
  }

  lemma {:induction false} InvInEveryRun(p: Policy, most: nat, clock: int, actions: seq<Action>)
    requires ValidPolicy(p) && most > 0
    ensures Inv(p, most, Exec(p, most, clock, actions))
  {
    if actions == [] {
    } else {
      var before, a := actions[..|actions| - 1], actions[|actions| - 1];
      InvInEveryRun(p, most, clock, before);
      var s := Exec(p, most, clock, before);
      if Enabled(most, s, a) {
        match a
        case Begin(at) => BeginKeepsInv(p, most, s, at);
        case FailAt(at) => FailKeepsInv(p, most, s, at);
        case GiveUp(at) => GiveUpKeepsInv(p, most, s, at);
      }
    }
  }

  lemma GroupLater(p: Policy, most: nat, history: seq<int>, i: nat, j: nat, k: nat)
    requires ValidPolicy(p) && Sorted(history) && Spread(p, most, history)
    requires i + p.threshold - 1 <= k && k + most < j <= |history| && k < j
    requires history[j - 1] - history[i] < p.windowSeconds
    ensures history[k + most] >= history[k] + p.lockSeconds
  {
    TripsInBlock(p, history, i, j, k);
  }

  /** Along a block that fits in one window, from the threshold-th failure on, every so many are a lock period apart. */
  lemma {:induction false} GroupsAreSpread(p: Policy, most: nat, history: seq<int>, i: nat, j: nat, r: nat)
    requires ValidPolicy(p) && most > 0 && Sorted(history) && Spread(p, most, history)
    requires i < j <= |history| && i + p.threshold - 1 + Times(r, most) < j
    requires history[j - 1] - history[i] < p.windowSeconds
    ensures Times(r, most) >= 0 && history[i + p.threshold - 1 + Times(r, most)] >= history[i] + Times(r, p.lockSeconds)
  {
    TimesGrow(0, r, most);
    if r > 0 {
      TimesGrow(0, r - 1, most);
      GroupsAreSpread(p, most, history, i, j, r - 1);
      GroupLater(p, most, history, i, j, i + p.threshold - 1 + Times(r - 1, most));
    }
  }

  /** How many whole groups fit in n. */
  lemma Groups(n: nat, most: nat) returns (r: nat)
    requires most > 0
    ensures 0 <= Times(r, most) <= n < Times(r, most) + most
  {
    r := n / most;
    TimesIsProduct(r, most);
  }

  /** Fewer than a whole group, and than the groups that fit. */
  lemma GroupsFit(p: Policy, most: nat, n: nat, r: nat)
    requires ValidPolicy(p) && n < Times(r, most) + most && Times(r, p.lockSeconds) < p.windowSeconds
    ensures n + 1 <= Times(CeilDiv(p.windowSeconds, p.lockSeconds), most)
  {
    FewLocksFit(r, p.windowSeconds, p.lockSeconds);
    TimesGrow(r + 1, CeilDiv(p.windowSeconds, p.lockSeconds), most);
  }

  function ConcurrentBound(p: Policy, most: nat): int
    requires p.windowSeconds > 0 && p.lockSeconds > 0
  {
    p.threshold - 1 + Times(CeilDiv(p.windowSeconds, p.lockSeconds), most)
  }

  /** Guess-rate bound with guesses in flight: without a success, any window holds at most threshold - 1 failures and as
      many more for each lock period begun as may be in flight together. */
  lemma ConcurrentGuessBound(p: Policy, most: nat, clock: int, actions: seq<Action>, start: int)
    requires ValidPolicy(p) && most > 0
    ensures CountIn(Exec(p, most, clock, actions).history, start, start + p.windowSeconds) <= ConcurrentBound(p, most)
  {
    InvInEveryRun(p, most, clock, actions);
    var history := Exec(p, most, clock, actions).history;
    var i, j := WindowIsBlock(history, start, start + p.windowSeconds);
    TimesGrow(0, CeilDiv(p.windowSeconds, p.lockSeconds), most);
    if j - i >= p.threshold {
      var r := Groups(j - i - p.threshold, most);
      GroupsAreSpread(p, most, history, i, j, r);
      GroupsFit(p, most, j - i - p.threshold, r);
    }
  }

  // ----- the bound is reached -----

  ghost predicate Reaches(p: Policy, most: nat, actions: seq<Action>, s: State) {
    Exec(p, most, 0, actions) == s
  }

  lemma Extend(p: Policy, most: nat, actions: seq<Action>, s: State, a: Action)
    requires Reaches(p, most, actions, s)
    ensures Reaches(p, most, actions + [a], Next(p, most, s, a))
  {
    assert (actions + [a])[..|actions|] == actions;
  }

  /** The failures that do not lock yet, all at once. */
  lemma {:induction false} FreeFailures(p: Policy, most: nat, n: nat) returns (run: seq<Action>)
    requires ValidPolicy(p) && most > 0 && n < p.threshold
    ensures Reaches(p, most, run, State(Track(Repeated(0, n), None), 0, Repeated(0, n), 0))
  {
    run := [];
    if n > 0 {
      run := FreeFailures(p, most, n - 1);
      var h := Repeated(0, n - 1);
      var s := State(Track(h, None), 0, h, 0);
      Extend(p, most, run, s, Begin(0));
      FailKeepsAll(p, h, None, 0);
      Extend(p, most, run + [Begin(0)], s.(inFlight := 1), FailAt(0));
      run := run + [Begin(0)] + [FailAt(0)];
    }
  }

  /** Guesses begin together when the lock has run out. */
  lemma {:induction false} BeginTogether(p: Policy, most: nat, before: seq<Action>, s: State, at: int, n: nat)
    returns (run: seq<Action>)
    requires Reaches(p, most, before, s) && s.inFlight == 0 && s.clock <= at && Allows(s.track, at) && 0 < n <= most
    ensures Reaches(p, most, run, State(Track(s.track.events, None), n, s.history, at))
  {
    if n == 1 {
      Extend(p, most, before, s, Begin(at));
      run := before + [Begin(at)];
    } else {
      run := BeginTogether(p, most, before, s, at, n - 1);
      Extend(p, most, run, State(Track(s.track.events, None), n - 1, s.history, at), Begin(at));
      run := run + [Begin(at)];
    }
  }

  lemma RepeatedNext(h: seq<int>, at: int, n: nat)
    requires n > 0
    ensures h + Repeated(at, n) == (h + Repeated(at, n - 1)) + [at]
  {
  }

  /** They fail together, n of them so far. */
  lemma {:induction false} FailTogether(p: Policy, most: nat, before: seq<Action>, h: seq<int>, at: int, n: nat)
    returns (run: seq<Action>)
    requires ValidPolicy(p) && 0 < n <= most && |h| >= p.threshold - 1 && at - p.windowSeconds < 0
    requires h != [] ==> h[0] >= 0
    requires at >= 0 && Reaches(p, most, before, State(Track(h, None), most, h, at))
    ensures Reaches(p, most, run,
                    State(Track(h + Repeated(at, n), Some(at + p.lockSeconds)), most - n, h + Repeated(at, n), at))
  {
    var earlier := h + Repeated(at, n - 1);
    if n == 1 {
      assert earlier == h;
      FailKeepsAll(p, h, None, at);
      Extend(p, most, before, State(Track(h, None), most, h, at), FailAt(at));
      run := before + [FailAt(at)];
    } else {
      run := FailTogether(p, most, before, h, at, n - 1);
      FailKeepsAll(p, earlier, Some(at + p.lockSeconds), at);
      Extend(p, most, run, State(Track(earlier, Some(at + p.lockSeconds)), most - (n - 1), earlier, at), FailAt(at));
      run := run + [FailAt(at)];
    }
    RepeatedNext(h, at, n);
  }

  /** The free failures, and m groups, one whenever the lock runs out. */
  function Worst(p: Policy, most: nat, m: nat): seq<int>
    requires p.threshold > 0
  {
    if m == 0 then Repeated(0, p.threshold - 1) else Worst(p, most, m - 1) + Repeated(Times(m - 1, p.lockSeconds), most)
  }

  lemma {:induction false} WorstTimes(p: Policy, most: nat, m: nat)
    requires ValidPolicy(p) && (m > 0 ==> Times(m - 1, p.lockSeconds) < p.windowSeconds)
    ensures |Worst(p, most, m)| == p.threshold - 1 + Times(m, most)
    ensures forall i :: 0 <= i < |Worst(p, most, m)| ==> 0 <= Worst(p, most, m)[i] < p.windowSeconds
    ensures Times(m, p.lockSeconds) >= 0
  {
    if m == 0 {
    } else {
      WorstTimes(p, most, m - 1);
    }
  }

  lemma {:induction false} WorstRun(p: Policy, most: nat, m: nat) returns (run: seq<Action>, s: State)
    requires ValidPolicy(p) && most > 0 && (m > 0 ==> Times(m - 1, p.lockSeconds) < p.windowSeconds)
    ensures Reaches(p, most, run, s) && s.history == s.track.events == Worst(p, most, m) && s.inFlight == 0
    ensures Allows(s.track, Times(m, p.lockSeconds)) && s.clock <= Times(m, p.lockSeconds)
  {
    if m == 0 {
      run := FreeFailures(p, most, p.threshold - 1);
      s := State(Track(Repeated(0, p.threshold - 1), None), 0, Repeated(0, p.threshold - 1), 0);
    } else {
      var at := Times(m - 1, p.lockSeconds);
      run, s := WorstRun(p, most, m - 1);
      WorstTimes(p, most, m - 1);
      TimesGrow(0, m - 1, most);
      run := BeginTogether(p, most, run, s, at, most);
      run := FailTogether(p, most, run, s.history, at, most);
      var h := s.history + Repeated(at, most);
      s := State(Track(h, Some(at + p.lockSeconds)), 0, h, at);
    }
  }

  /** No smaller bound holds: for every policy and any number of guesses in flight, some run reaches it. */
  lemma ConcurrentBoundIsReached(p: Policy, most: nat) returns (run: seq<Action>)
    requires ValidPolicy(p) && most > 0
    ensures CountIn(Exec(p, most, 0, run).history, 0, p.windowSeconds) == ConcurrentBound(p, most)
  {
    var m := CeilDiv(p.windowSeconds, p.lockSeconds);
    TimesIsProduct(m - 1, p.lockSeconds);
    assert Times(m - 1, p.lockSeconds) < p.windowSeconds;
    var s;
    run, s := WorstRun(p, most, m);
    WorstTimes(p, most, m);
    AllCounted(s.history, 0, p.windowSeconds);
  }
}
