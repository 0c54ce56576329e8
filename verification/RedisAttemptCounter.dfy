/**
 * The Redis attempt counter: read the bucket, refuse at the limit, else increment it and, on the
 * first increment, give it a time to live. Each command is atomic; callers interleave between
 * commands, and an action that is not enabled leaves the state as it is.
 */
module RedisAttemptCounter {
  import opened Basics

  const TTL := 120

  datatype Cell = Cell(count: nat, expiry: Option<int>)

  /** A caller between two commands; all carry the bucket computed when the call started. */
  datatype Caller =
    | Fetching(startedAt: int)
    | Incrementing(startedAt: int)
    | SettingExpiry(startedAt: int)
  {
    function Bucket(): int { startedAt / MINUTE_SECONDS }
  }

  datatype State = State(clock: int, store: map<int, Cell>, callers: map<nat, Caller>, admitted: seq<int>)

  datatype Action = Advance(seconds: nat) | Begin(id: nat) | Get(id: nat) | Incr(id: nat) | Expire(id: nat)

  /** limit is positive: the code returns at once otherwise. inFlight bounds the concurrent callers. */
  datatype Setup = Setup(limit: int, inFlight: nat, startClock: int)

  ghost predicate ValidSetup(c: Setup) {
    c.limit > 0 && c.inFlight > 0
  }

  function Value(s: State, bucket: int): nat {
    if bucket in s.store && (s.store[bucket].expiry.None? || s.clock < s.store[bucket].expiry.value)
    then s.store[bucket].count else 0
  }

  predicate Enabled(c: Setup, s: State, a: Action) {
    match a
    case Advance(_) => true
    case Begin(id) => id !in s.callers && |s.callers| < c.inFlight
    case Get(id) => id in s.callers && s.callers[id].Fetching?
    case Incr(id) => id in s.callers && s.callers[id].Incrementing?
    case Expire(id) => id in s.callers && s.callers[id].SettingExpiry?
  }

  function Apply(c: Setup, s: State, a: Action): State
    requires Enabled(c, s, a)
  {
    match a
    case Advance(seconds) => s.(clock := s.clock + seconds)
    case Begin(id) => s.(callers := s.callers[id := Fetching(s.clock)])
    case Get(id) =>
      var caller := s.callers[id];
      if Value(s, caller.Bucket()) >= c.limit then s.(callers := s.callers - {id})
      else s.(callers := s.callers[id := Incrementing(caller.startedAt)])
    case Incr(id) =>
      var caller := s.callers[id];
      var bucket := caller.Bucket();
      var updated := Value(s, bucket) + 1;
      s.(store := s.store[bucket := Cell(updated, if updated == 1 then None else s.store[bucket].expiry)],
         callers := if updated == 1 then s.callers[id := SettingExpiry(caller.startedAt)] else s.callers - {id},
         admitted := s.admitted + [caller.startedAt])
    case Expire(id) =>
      var bucket := s.callers[id].Bucket();
      s.(store := if Value(s, bucket) > 0
                  then s.store[bucket := Cell(s.store[bucket].count, Some(s.clock + TTL))] else s.store,
         callers := s.callers - {id})
  }

  function Next(c: Setup, s: State, a: Action): State {
    if Enabled(c, s, a) then Apply(c, s, a) else s
  }

  function Exec(c: Setup, actions: seq<Action>): State {
    if actions == [] then State(c.startClock, map[], map[], [])
    else Next(c, Exec(c, actions[..|actions| - 1]), actions[|actions| - 1])
  }

  /** Every read happens less than the given time after its bucket began. */
  ghost predicate Prompt(c: Setup, actions: seq<Action>, lateness: int) {
    actions == [] || (
      && Prompt(c, actions[..|actions| - 1], lateness)
      && InTime(c, Exec(c, actions[..|actions| - 1]), actions[|actions| - 1], lateness))
  }

  predicate InTime(c: Setup, s: State, a: Action, lateness: int) {
    a.Get? && Enabled(c, s, a) ==> s.clock < s.callers[a.id].Bucket() * MINUTE_SECONDS + lateness
  }

  /** Callers that have passed the limit test for the bucket and not yet incremented it. */
  ghost function Waiting(s: State, bucket: int): set<nat> {
    set id | id in s.callers && s.callers[id].Incrementing? && s.callers[id].Bucket() == bucket
  }

  function AdmittedTo(admitted: seq<int>, bucket: int): nat {
    if admitted == [] then 0
    else AdmittedTo(admitted[..|admitted| - 1], bucket)
         + (if admitted[|admitted| - 1] / MINUTE_SECONDS == bucket then 1 else 0)
  }

  lemma WaitingAreCallers(s: State, bucket: int)
    ensures |Waiting(s, bucket)| <= |s.callers|
  {
    SubsetIsSmaller(Waiting(s, bucket), s.callers.Keys);
  }

  ghost predicate CountInv(c: Setup, s: State) {
    && |s.callers| <= c.inFlight
    && forall b :: Value(s, b) + |Waiting(s, b)| <= c.limit + c.inFlight - 1
  }

  /** How one action changes the callers waiting on one bucket. */
  lemma WaitingChange(c: Setup, s: State, a: Action, b: int)
    requires Enabled(c, s, a)
    ensures var t := Apply(c, s, a);
      && (a.Advance? || a.Begin? || a.Expire? ==> Waiting(t, b) == Waiting(s, b))
      && (a.Incr? ==> Waiting(t, b) == Waiting(s, b) - {a.id}
                      && (s.callers[a.id].Bucket() == b ==> |Waiting(t, b)| == |Waiting(s, b)| - 1))
      && (a.Get? ==> if s.callers[a.id].Bucket() == b && Value(s, b) < c.limit
                     then Waiting(t, b) == Waiting(s, b) + {a.id} else Waiting(t, b) == Waiting(s, b))
  {
    if a.Incr? && s.callers[a.id].Bucket() == b {
      assert a.id in Waiting(s, b);
    }
  }

  lemma CallersStep(c: Setup, s: State, a: Action)
    requires |s.callers| <= c.inFlight
    ensures |Next(c, s, a).callers| <= c.inFlight
  {
    var t := Next(c, s, a);
    if a.Begin? {
      assert Enabled(c, s, a) ==> t.callers.Keys == s.callers.Keys + {a.id};
    } else {
      assert t.callers.Keys <= s.callers.Keys;
      SubsetIsSmaller(t.callers.Keys, s.callers.Keys);
    }
  }

  lemma CountStep(c: Setup, s: State, a: Action, b: int)
    requires ValidSetup(c) && CountInv(c, s) && Enabled(c, s, a)
    ensures var t := Apply(c, s, a); Value(t, b) + |Waiting(t, b)| <= c.limit + c.inFlight - 1
  {
    WaitingChange(c, s, a, b);
    CallersStep(c, s, a);
    WaitingAreCallers(Apply(c, s, a), b);
  }

  lemma {:induction false} CountExec(c: Setup, actions: seq<Action>)
    requires ValidSetup(c)
    ensures CountInv(c, Exec(c, actions))
  {
    if actions == [] {
    } else {
      var before, a := actions[..|actions| - 1], actions[|actions| - 1];
      var s := Exec(c, before);
      CountExec(c, before);
      CallersStep(c, s, a);
      if Enabled(c, s, a) {
        forall b ensures Value(Apply(c, s, a), b) + |Waiting(Apply(c, s, a), b)| <= c.limit + c.inFlight - 1 {
          CountStep(c, s, a, b);
        }
      }
    }
  }

  /** Whatever the interleaving, a bucket's counter never exceeds the limit by as many as the concurrent callers. */
  lemma CounterBound(c: Setup, actions: seq<Action>, bucket: int)
    requires ValidSetup(c)
    ensures Value(Exec(c, actions), bucket) <= c.limit + c.inFlight - 1
    ensures c.inFlight == 1 ==> Value(Exec(c, actions), bucket) <= c.limit
  {
    CountExec(c, actions);
  }

  // ----- the expiry and the admissions -----

  ghost predicate LiveInv(s: State) {
    && (forall id :: id in s.callers ==> s.callers[id].startedAt <= s.clock)
    && (forall b :: b in s.store && s.store[b].expiry.Some? ==> s.store[b].expiry.value >= b * MINUTE_SECONDS + TTL)
    && (forall b {:trigger Value(s, b)} :: s.clock < b * MINUTE_SECONDS + TTL ==>
          Value(s, b) == AdmittedTo(s.admitted, b))
  }

  lemma AdmittedToAppend(admitted: seq<int>, startedAt: int, b: int)
    ensures AdmittedTo(admitted + [startedAt], b)
            == AdmittedTo(admitted, b) + (if startedAt / MINUTE_SECONDS == b then 1 else 0)
  {
    assert (admitted + [startedAt])[..|admitted|] == admitted;
  }

  lemma LiveStep(c: Setup, s: State, a: Action)
    requires LiveInv(s) && Enabled(c, s, a)
    ensures LiveInv(Apply(c, s, a))
  {
    var t := Apply(c, s, a);
    forall b | t.clock < b * MINUTE_SECONDS + TTL ensures Value(t, b) == AdmittedTo(t.admitted, b) {
      assert Value(s, b) == AdmittedTo(s.admitted, b);
      if a.Incr? { AdmittedToAppend(s.admitted, s.callers[a.id].startedAt, b); }
    }
  }

  lemma {:induction false} LiveExec(c: Setup, actions: seq<Action>)
    ensures LiveInv(Exec(c, actions))
  {
    if actions == [] {
    } else {
      var before, a := actions[..|actions| - 1], actions[|actions| - 1];
      LiveExec(c, before);
      if Enabled(c, Exec(c, before), a) { LiveStep(c, Exec(c, before), a); }
    }
  }

  /** The expiry never drops a bucket that is still current, nor for a minute after: until then the counter
      is exactly the number of calls admitted to the bucket. */
  lemma ExpiryKeepsLiveBuckets(c: Setup, actions: seq<Action>, bucket: int)
    ensures var s := Exec(c, actions);
      s.clock < bucket * MINUTE_SECONDS + TTL ==> Value(s, bucket) == AdmittedTo(s.admitted, bucket)
  {
    LiveExec(c, actions);
  }

  ghost predicate AdmittedInv(c: Setup, s: State) {
    && |s.callers| <= c.inFlight
    && forall b :: AdmittedTo(s.admitted, b) + |Waiting(s, b)| <= c.limit + c.inFlight - 1
  }

  lemma AdmittedStep(c: Setup, s: State, a: Action, b: int)
    requires ValidSetup(c) && AdmittedInv(c, s) && LiveInv(s) && Enabled(c, s, a)
    requires a.Get? ==> s.clock < s.callers[a.id].Bucket() * MINUTE_SECONDS + TTL
    ensures var t := Apply(c, s, a); AdmittedTo(t.admitted, b) + |Waiting(t, b)| <= c.limit + c.inFlight - 1
  {
    WaitingChange(c, s, a, b);
    CallersStep(c, s, a);
    WaitingAreCallers(Apply(c, s, a), b);
    if a.Incr? { AdmittedToAppend(s.admitted, s.callers[a.id].startedAt, b); }
    assert a.Get? && s.callers[a.id].Bucket() == b ==> Value(s, b) == AdmittedTo(s.admitted, b);
  }

  lemma {:induction false} AdmittedExec(c: Setup, actions: seq<Action>, lateness: int)
    requires ValidSetup(c) && Prompt(c, actions, lateness) && lateness <= TTL
    ensures AdmittedInv(c, Exec(c, actions))
  {
    if actions == [] {
    } else {
      var before, a := actions[..|actions| - 1], actions[|actions| - 1];
      var s := Exec(c, before);
      AdmittedExec(c, before, lateness);
      LiveExec(c, before);
      CallersStep(c, s, a);
      if Enabled(c, s, a) {
        var t := Apply(c, s, a);
        forall b ensures AdmittedTo(t.admitted, b) + |Waiting(t, b)| <= c.limit + c.inFlight - 1 {
          AdmittedStep(c, s, a, b);
        }
      }
    }
  }

  /** Admitted calls that started in the half-open minute. */
  function AdmittedIn(admitted: seq<int>, start: int): nat {
    if admitted == [] then 0
    else AdmittedIn(admitted[..|admitted| - 1], start)
         + (if start <= admitted[|admitted| - 1] < start + MINUTE_SECONDS then 1 else 0)
  }

  lemma {:induction false} AMinuteTouchesTwoBuckets(admitted: seq<int>, start: int)
    ensures AdmittedIn(admitted, start)
            <= AdmittedTo(admitted, start / MINUTE_SECONDS) + AdmittedTo(admitted, start / MINUTE_SECONDS + 1)
  {
    if admitted == [] {
    } else {
      AMinuteTouchesTwoBuckets(admitted[..|admitted| - 1], start);
    }
  }

  /** With reads no later than the expiry, the calls ever admitted to a bucket keep the bound, and of those that
      started in any sixty seconds at most twice as many are admitted. */
  lemma AdmissionBound(c: Setup, actions: seq<Action>, lateness: int, bucket: int, start: int)
    requires ValidSetup(c) && Prompt(c, actions, lateness) && lateness <= TTL
    ensures AdmittedTo(Exec(c, actions).admitted, bucket) <= c.limit + c.inFlight - 1
    ensures AdmittedIn(Exec(c, actions).admitted, start) <= 2 * (c.limit + c.inFlight - 1)
  {
    AdmittedExec(c, actions, lateness);
    AMinuteTouchesTwoBuckets(Exec(c, actions).admitted, start);
    assert AdmittedInv(c, Exec(c, actions));
    assert forall b :: AdmittedTo(Exec(c, actions).admitted, b) <= c.limit + c.inFlight - 1 by {
      forall b ensures AdmittedTo(Exec(c, actions).admitted, b) <= c.limit + c.inFlight - 1 {
        assert AdmittedTo(Exec(c, actions).admitted, b) + |Waiting(Exec(c, actions), b)| <= c.limit + c.inFlight - 1;
      }
    }
  }

  // ----- the bound holds exactly up to the expiry -----

  /** A run that gets to the state with its reads in time. */
  ghost predicate Reaches(c: Setup, lateness: int, actions: seq<Action>, s: State) {
    Exec(c, actions) == s && Prompt(c, actions, lateness)
  }

  lemma Extend(c: Setup, lateness: int, actions: seq<Action>, s: State, a: Action)
    requires Reaches(c, lateness, actions, s) && InTime(c, s, a, lateness)
    ensures Reaches(c, lateness, actions + [a], Next(c, s, a))
  {
    assert (actions + [a])[..|actions|] == actions;
  }

  lemma {:induction false} RepeatedAdmitted(start: int, n: nat)
    ensures AdmittedTo(Repeated(start, n), start / MINUTE_SECONDS) == n
  {
    if n == 0 {
    } else {
      RepeatedAdmitted(start, n - 1);
      AdmittedToAppend(Repeated(start, n - 1), start, start / MINUTE_SECONDS);
    }
  }

  /** The store after the bucket that begins at start has counted n calls. */
  function Counted(start: int, n: nat): map<int, Cell> {
    if n == 0 then map[] else map[start / MINUTE_SECONDS := Cell(n, Some(start + TTL))]
  }

  /** The first bucket that begins after the run has. */
  function NextBucket(c: Setup): (start: int)
    ensures start > c.startClock && start / MINUTE_SECONDS * MINUTE_SECONDS == start
  {
    (c.startClock / MINUTE_SECONDS + 1) * MINUTE_SECONDS
  }

  /** Calls one after the other, as many as the limit allows. */
  lemma {:induction false} SerialCalls(c: Setup, lateness: int, n: nat) returns (run: seq<Action>)
    requires ValidSetup(c) && lateness > TTL && n <= c.limit
    ensures var start := NextBucket(c);
            Reaches(c, lateness, run, State(start, Counted(start, n), map[], Repeated(start, n)))
  {
    var start := NextBucket(c);
    if n == 0 {
      run := [];
      var s := State(c.startClock, map[], map[], []);
      var a := Advance(start - c.startClock);
      Extend(c, lateness, run, s, a);
      run := run + [a];
    } else {
      run := SerialCalls(c, lateness, n - 1);
      run := OneCall(c, lateness, n, run);
    }
  }

  lemma CallBegins(c: Setup, s: State)
    requires ValidSetup(c) && s.callers == map[]
    ensures Next(c, s, Begin(0)) == s.(callers := map[0 := Fetching(s.clock)])
  {
  }

  lemma CallReads(c: Setup, start: int, n: nat, admitted: seq<int>)
    requires 0 < n <= c.limit
    ensures Next(c, State(start, Counted(start, n - 1), map[0 := Fetching(start)], admitted), Get(0))
         == State(start, Counted(start, n - 1), map[0 := Incrementing(start)], admitted)
  {
  }

  lemma CallCounts(c: Setup, start: int, n: nat, admitted: seq<int>)
    requires n > 0
    ensures Next(c, State(start, Counted(start, n - 1), map[0 := Incrementing(start)], admitted), Incr(0))
         == if n == 1
            then State(start, map[start / MINUTE_SECONDS := Cell(1, None)], map[0 := SettingExpiry(start)],
                       admitted + [start])
            else State(start, Counted(start, n), map[], admitted + [start])
  {
    assert map[0 := Incrementing(start)] - {0} == map[];
  }

  lemma CallExpires(c: Setup, start: int, admitted: seq<int>)
    ensures var counts := map[start / MINUTE_SECONDS := Cell(1, None)];
            Next(c, State(start, counts, map[0 := SettingExpiry(start)], admitted), Expire(0))
              == State(start, Counted(start, 1), map[], admitted)
  {
    assert map[0 := SettingExpiry(start)] - {0} == map[];
  }

  lemma OneCall(c: Setup, lateness: int, n: nat, before: seq<Action>) returns (run: seq<Action>)
    requires ValidSetup(c) && lateness > TTL && 0 < n <= c.limit
    requires Reaches(c, lateness, before,
                     State(NextBucket(c), Counted(NextBucket(c), n - 1), map[], Repeated(NextBucket(c), n - 1)))
    ensures var start := NextBucket(c);
            Reaches(c, lateness, run, State(start, Counted(start, n), map[], Repeated(start, n)))
  {
    var start := NextBucket(c);
    var times := Repeated(start, n - 1);
    var s := State(start, Counted(start, n - 1), map[], times);
    CallBegins(c, s);
    Extend(c, lateness, before, s, Begin(0));
    s := s.(callers := map[0 := Fetching(start)]);
    CallReads(c, start, n, times);
    Extend(c, lateness, before + [Begin(0)], s, Get(0));
    run := before + [Begin(0)] + [Get(0)];
    s := s.(callers := map[0 := Incrementing(start)]);
    CallCounts(c, start, n, times);
    Extend(c, lateness, run, s, Incr(0));
    run := run + [Incr(0)];
    if n == 1 {
      CallExpires(c, start, times + [start]);
      s := State(start, map[start / MINUTE_SECONDS := Cell(1, None)], map[0 := SettingExpiry(start)], times + [start]);
      Extend(c, lateness, run, s, Expire(0));
      run := run + [Expire(0)];
    }
  }

  /** Callers 0 to n - 1 before their reads, the first m of them after theirs. */
  function Held(start: int, n: nat, m: nat): (callers: map<nat, Caller>)
    ensures |callers| == n && forall id: nat :: id in callers <==> id < n
    ensures forall id :: id in callers ==> callers[id] == if id < m then Incrementing(start) else Fetching(start)
  {
    if n == 0 then map[] else
      var rest := Held(start, n - 1, m);
      var caller := if n - 1 < m then Incrementing(start) else Fetching(start);
      assert rest[n - 1 := caller].Keys == rest.Keys + {n - 1};
      rest[n - 1 := caller]
  }

  lemma {:induction false} HoldCalls(c: Setup, lateness: int, n: nat) returns (run: seq<Action>)
    requires ValidSetup(c) && lateness > TTL && n <= c.inFlight
    ensures var start := NextBucket(c);
            Reaches(c, lateness, run,
                    State(start, Counted(start, c.limit), Held(start, n, 0), Repeated(start, c.limit)))
  {
    var start := NextBucket(c);
    if n == 0 {
      run := SerialCalls(c, lateness, c.limit);
    } else {
      run := HoldCalls(c, lateness, n - 1);
      var s := State(start, Counted(start, c.limit), Held(start, n - 1, 0), Repeated(start, c.limit));
      Extend(c, lateness, run, s, Begin(n - 1));
      run := run + [Begin(n - 1)];
    }
  }

  /** The state when the key has just expired and the first m held calls have read it. */
  function Expired(c: Setup, m: nat): State
    requires c.limit > 0
  {
    var start := NextBucket(c);
    State(start + TTL, Counted(start, c.limit), Held(start, c.inFlight, m), Repeated(start, c.limit))
  }

  lemma HeldReads(start: int, n: nat, m: nat)
    requires 0 < m <= n
    ensures Held(start, n, m) == Held(start, n, m - 1)[m - 1 := Incrementing(start)]
  {
  }

  /** The next held call finds no counter. */
  lemma ReadsNothing(c: Setup, m: nat)
    requires c.limit > 0 && 0 < m <= c.inFlight
    ensures Next(c, Expired(c, m - 1), Get(m - 1)) == Expired(c, m)
  {
    HeldReads(NextBucket(c), c.inFlight, m);
    assert Value(Expired(c, m - 1), NextBucket(c) / MINUTE_SECONDS) == 0;
  }

  lemma {:induction false} ReadLate(c: Setup, lateness: int, m: nat) returns (run: seq<Action>)
    requires ValidSetup(c) && lateness > TTL && m <= c.inFlight
    ensures Reaches(c, lateness, run, Expired(c, m))
  {
    var start := NextBucket(c);
    if m == 0 {
      run := HoldCalls(c, lateness, c.inFlight);
      var s := State(start, Counted(start, c.limit), Held(start, c.inFlight, 0), Repeated(start, c.limit));
      Extend(c, lateness, run, s, Advance(TTL));
      run := run + [Advance(TTL)];
    } else {
      run := ReadLate(c, lateness, m - 1);
      ReadsNothing(c, m);
      assert Expired(c, m - 1).callers[m - 1].Bucket() * MINUTE_SECONDS == start;
      Extend(c, lateness, run, Expired(c, m - 1), Get(m - 1));
      run := run + [Get(m - 1)];
    }
  }

  /** All the held calls are let through, one after the other. */
  lemma {:induction false} LetThrough(c: Setup, lateness: int, n: nat) returns (run: seq<Action>, s: State)
    requires ValidSetup(c) && lateness > TTL && n <= c.inFlight
    ensures Reaches(c, lateness, run, s) && s.admitted == Repeated(NextBucket(c), c.limit + n)
    ensures forall id :: n <= id < c.inFlight ==> id in s.callers && s.callers[id] == Incrementing(NextBucket(c))
  {
    if n == 0 {
      run := ReadLate(c, lateness, c.inFlight);
      s := Expired(c, c.inFlight);
    } else {
      run, s := LetThrough(c, lateness, n - 1);
      Extend(c, lateness, run, s, Incr(n - 1));
      run, s := run + [Incr(n - 1)], Next(c, s, Incr(n - 1));
    }
  }

  /** Later reads break the bound, for every limit and every number of callers: the limit is used up, as many calls as
      there may be are held in the same bucket until the key expires, and then all of them are admitted too. */
  lemma LateReadsBreakTheBound(c: Setup, lateness: int) returns (run: seq<Action>, bucket: int)
    requires ValidSetup(c) && lateness > TTL
    ensures Prompt(c, run, lateness) && AdmittedTo(Exec(c, run).admitted, bucket) == c.limit + c.inFlight
  {
    var s;
    run, s := LetThrough(c, lateness, c.inFlight);
    bucket := NextBucket(c) / MINUTE_SECONDS;
    RepeatedAdmitted(NextBucket(c), c.limit + c.inFlight);
  }

  ghost predicate KeepsBound(c: Setup, lateness: int) {
    forall actions, bucket :: Prompt(c, actions, lateness) ==>
      AdmittedTo(Exec(c, actions).admitted, bucket) <= c.limit + c.inFlight - 1
  }

  /** Whatever the limit, the number of callers and the time of the start: every run whose reads come earlier than the
      lateness after their bucket began keeps the bound, if and only if the lateness is at most the expiry. */
  lemma BoundHoldsUpToTheExpiry(c: Setup, lateness: int)
    requires ValidSetup(c)
    ensures KeepsBound(c, lateness) <==> lateness <= TTL
  {
    if lateness <= TTL {
      forall actions, bucket | Prompt(c, actions, lateness)
        ensures AdmittedTo(Exec(c, actions).admitted, bucket) <= c.limit + c.inFlight - 1
      {
        AdmissionBound(c, actions, lateness, bucket, 0);
      }
    } else {
      var run, bucket := LateReadsBreakTheBound(c, lateness);
    }
  }
}
