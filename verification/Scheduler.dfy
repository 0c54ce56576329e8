/**
 * The cleanup scheduler: processes compete for one lease through set-if-absent with expiry and
 * release it by compare-and-delete. Store commands are atomic; a command that raises has no effect.
 */
module Scheduler {
  import opened Basics

  datatype Config = Config(pollSeconds: int, cleanupIntervalSeconds: int, leaseSeconds: int, leaseEnabled: bool) {
    function LeaseLength(): int { Max(leaseSeconds, cleanupIntervalSeconds) }
  }

  datatype Lease = Lease(token: nat, expiry: int)

  predicate Held(lease: Option<Lease>, now: int) {
    lease.Some? && now < lease.value.expiry
  }

  /** SET key token NX EX length. A length that is not positive is refused by the store. */
  predicate CanAcquire(c: Config, lease: Option<Lease>, now: int, storeUp: bool) {
    !c.leaseEnabled || (storeUp && c.LeaseLength() > 0 && !Held(lease, now))
  }

  function Acquired(c: Config, lease: Option<Lease>, token: nat, now: int): Option<Lease> {
    if c.leaseEnabled then Some(Lease(token, now + c.LeaseLength())) else lease
  }

  /** The release script: delete the key only while it holds the caller's own token. */
  function Released(c: Config, lease: Option<Lease>, token: nat, now: int, storeUp: bool): Option<Lease> {
    if c.leaseEnabled && storeUp && Held(lease, now) && lease.value.token == token then None else lease
  }

  // ----- one process -----

  class LeaseStore {
    var lease: Option<Lease>

    constructor ()
      ensures lease == None
    {
      lease := None;
    }
  }

  class SchedulerService {
    const config: Config
    const token: nat
    var nextCleanupAt: Option<int>

    constructor (config: Config, token: nat)
      ensures this.config == config && this.token == token && nextCleanupAt == None
    {
      this.config, this.token, nextCleanupAt := config, token, None;
    }

    method AcquireCleanupLease(store: LeaseStore, now: int, storeUp: bool) returns (acquired: bool)
      modifies store
      ensures acquired == CanAcquire(config, old(store.lease), now, storeUp)
      ensures store.lease == if acquired then Acquired(config, old(store.lease), token, now) else old(store.lease)
    {
      if !config.leaseEnabled { return true; }
      if !storeUp || config.LeaseLength() <= 0 { return false; }
      if store.lease.Some? && now < store.lease.value.expiry { return false; }
      store.lease := Some(Lease(token, now + config.LeaseLength()));
      return true;
    }

    method ReleaseCleanupLease(store: LeaseStore, now: int, storeUp: bool)
      modifies store
      ensures store.lease == Released(config, old(store.lease), token, now, storeUp)
      ensures old(store.lease).Some? && old(store.lease).value.token != token ==> store.lease == old(store.lease)
    {
      if !config.leaseEnabled || !storeUp { return; }
      if store.lease.Some? && now < store.lease.value.expiry && store.lease.value.token == token {
        store.lease := None;
      }
    }

    /** One tick not interrupted by other processes: the lease is asked for at acquireAt, the task queue
        accepts the cleanup task or not, and a failed enqueue gives the lease back at releaseAt. */
    method Tick(store: LeaseStore, nowMonotonic: int, acquireAt: int, acquireUp: bool,
                enqueueOk: bool, releaseAt: int, releaseUp: bool) returns (enqueued: bool)
      requires acquireAt <= releaseAt
      modifies this, store
      ensures var due := old(nextCleanupAt).None? || nowMonotonic >= old(nextCleanupAt).value;
        var acquired := due && CanAcquire(config, old(store.lease), acquireAt, acquireUp);
        && enqueued == (acquired && enqueueOk)
        && nextCleanupAt == (if !due then old(nextCleanupAt)
                             else if enqueued then Some(nowMonotonic + config.cleanupIntervalSeconds)
                             else Some(nowMonotonic + config.pollSeconds))
        && (enqueued && config.leaseEnabled ==> store.lease == Some(Lease(token, acquireAt + config.LeaseLength())))
        && (!enqueued ==> store.lease == old(store.lease)
                          || (acquired && (releaseUp && releaseAt < acquireAt + config.LeaseLength() ==>
                                             store.lease == None)))
    {
      if nextCleanupAt.Some? && nowMonotonic < nextCleanupAt.value { return false; }
      var leaseAcquired := AcquireCleanupLease(store, acquireAt, acquireUp);
      if !leaseAcquired {
        nextCleanupAt := Some(nowMonotonic + config.pollSeconds);
        return false;
      }
      if !enqueueOk {
        ReleaseCleanupLease(store, releaseAt, releaseUp);
        nextCleanupAt := Some(nowMonotonic + config.pollSeconds);
        return false;
      }
      nextCleanupAt := Some(nowMonotonic + config.cleanupIntervalSeconds);
      return true;
    }
  }

  // ----- any number of processes -----

  /** Where a process is in its tick; each carries the monotonic time the tick started with. */
  datatype Phase =
    | Idle
    | Acquiring(startedAt: int)
    | Enqueueing(startedAt: int, acquiredAt: int)
    | Releasing(startedAt: int, acquiredAt: int)

  datatype Process = Process(phase: Phase, nextCleanupAt: Option<int>, lastTickAt: Option<int>)

  datatype Success = Success(id: nat, startedAt: int, acquiredAt: int)

  /** Processes are numbered, and the number is the process's lease token. */
  datatype State = State(clock: int, lease: Option<Lease>, processes: map<nat, Process>, successes: seq<Success>)

  datatype Action =
    | Advance(seconds: nat)
    | Launch(id: nat)
    | StartTick(id: nat, nowMonotonic: int)
    | Acquire(id: nat, storeUp: bool)
    | Enqueue(id: nat, ok: bool)
    | Release(id: nat, storeUp: bool)

  predicate Enabled(s: State, a: Action) {
    match a
    case Advance(_) => true
    case Launch(id) => id !in s.processes
    case StartTick(id, now) =>
      id in s.processes && s.processes[id].phase.Idle?
      && (s.processes[id].lastTickAt.Some? ==> s.processes[id].lastTickAt.value <= now)
    case Acquire(id, _) => id in s.processes && s.processes[id].phase.Acquiring?
    case Enqueue(id, _) => id in s.processes && s.processes[id].phase.Enqueueing?
    case Release(id, _) => id in s.processes && s.processes[id].phase.Releasing?
  }

  function Apply(c: Config, s: State, a: Action): State
    requires Enabled(s, a)
  {
    match a
    case Advance(seconds) => s.(clock := s.clock + seconds)
    case Launch(id) => s.(processes := s.processes[id := Process(Idle, None, None)])
    case StartTick(id, now) =>
      var p := s.processes[id];
      var due := p.nextCleanupAt.None? || now >= p.nextCleanupAt.value;
      s.(processes := s.processes[id := p.(phase := if due then Acquiring(now) else Idle, lastTickAt := Some(now))])
    case Acquire(id, storeUp) =>
      var p := s.processes[id];
      if CanAcquire(c, s.lease, s.clock, storeUp) then
        s.(lease := Acquired(c, s.lease, id, s.clock),
           processes := s.processes[id := p.(phase := Enqueueing(p.phase.startedAt, s.clock))])
      else
        s.(processes := s.processes[id := p.(phase := Idle, nextCleanupAt := Some(p.phase.startedAt + c.pollSeconds))])
    case Enqueue(id, ok) =>
      var p := s.processes[id];
      if ok then
        s.(successes := s.successes + [Success(id, p.phase.startedAt, p.phase.acquiredAt)],
           processes := s.processes[id := p.(phase := Idle,
                                             nextCleanupAt := Some(p.phase.startedAt + c.cleanupIntervalSeconds))])
      else
        s.(processes := s.processes[id := p.(phase := Releasing(p.phase.startedAt, p.phase.acquiredAt))])
    case Release(id, storeUp) =>
      var p := s.processes[id];
      s.(lease := Released(c, s.lease, id, s.clock, storeUp),
         processes := s.processes[id := p.(phase := Idle, nextCleanupAt := Some(p.phase.startedAt + c.pollSeconds))])
  }

  function Next(c: Config, s: State, a: Action): State {
    if Enabled(s, a) then Apply(c, s, a) else s
  }

  function Exec(c: Config, startClock: int, actions: seq<Action>): State {
    if actions == [] then State(startClock, None, map[], [])
    else Next(c, Exec(c, startClock, actions[..|actions| - 1]), actions[|actions| - 1])
  }

  // ----- the lease keeps successful ticks apart -----

  predicate Apart(t: int, u: int, gap: int) {
    t + gap <= u || u + gap <= t
  }

  predicate Busy(s: State, id: nat) {
    id in s.processes && (s.processes[id].phase.Enqueueing? || s.processes[id].phase.Releasing?)
  }

  predicate Claims(s: State, id: nat) {
    id in s.processes && s.processes[id].phase.Enqueueing?
  }

  /** A lease taken and not given up is still in the store until it expires. */
  ghost predicate StillHeld(c: Config, s: State, id: nat, acquiredAt: int) {
    s.clock < acquiredAt + c.LeaseLength() ==> s.lease == Some(Lease(id, acquiredAt + c.LeaseLength()))
  }

  ghost predicate HoldInv(c: Config, s: State) {
    && (forall i :: 0 <= i < |s.successes| ==> StillHeld(c, s, s.successes[i].id, s.successes[i].acquiredAt))
    && (forall id :: Claims(s, id) ==> StillHeld(c, s, id, s.processes[id].phase.acquiredAt))
  }

  ghost predicate ApartInv(c: Config, s: State) {
    && (forall i, j :: 0 <= i < j < |s.successes| ==>
          Apart(s.successes[i].acquiredAt, s.successes[j].acquiredAt, c.LeaseLength()))
    && (forall id, i :: Claims(s, id) && 0 <= i < |s.successes| ==>
          Apart(s.processes[id].phase.acquiredAt, s.successes[i].acquiredAt, c.LeaseLength()))
    && (forall id, other :: Claims(s, id) && Claims(s, other) && id != other ==>
          Apart(s.processes[id].phase.acquiredAt, s.processes[other].phase.acquiredAt, c.LeaseLength()))
  }

  /** A process holds its lease after everything it enqueued earlier has expired. */
  ghost predicate OrderInv(c: Config, s: State) {
    && (forall id, i :: Busy(s, id) && 0 <= i < |s.successes| && s.successes[i].id == id ==>
          s.successes[i].acquiredAt + c.LeaseLength() <= s.processes[id].phase.acquiredAt)
    && (forall id :: Busy(s, id) ==> s.processes[id].phase.acquiredAt <= s.clock)
  }

  ghost predicate LeaseInv(c: Config, s: State) {
    HoldInv(c, s) && ApartInv(c, s) && OrderInv(c, s)
  }

  /** The key can be taken only when every lease taken and not given up has expired. */
  lemma AcquireAfterExpiry(c: Config, s: State, storeUp: bool)
    requires c.leaseEnabled && HoldInv(c, s) && CanAcquire(c, s.lease, s.clock, storeUp)
    ensures forall i :: 0 <= i < |s.successes| ==> s.successes[i].acquiredAt + c.LeaseLength() <= s.clock
    ensures forall id :: Claims(s, id) ==> s.processes[id].phase.acquiredAt + c.LeaseLength() <= s.clock
  {
    assert forall i :: 0 <= i < |s.successes| ==> StillHeld(c, s, s.successes[i].id, s.successes[i].acquiredAt);
    assert forall id :: Claims(s, id) ==> StillHeld(c, s, id, s.processes[id].phase.acquiredAt);
  }

  lemma AcquireKeepsHold(c: Config, s: State, id: nat, storeUp: bool)
    requires c.leaseEnabled && HoldInv(c, s) && Enabled(s, Acquire(id, storeUp))
    ensures HoldInv(c, Apply(c, s, Acquire(id, storeUp)))
  {
    var t := Apply(c, s, Acquire(id, storeUp));
    assert forall other :: other != id ==> (Claims(t, other) <==> Claims(s, other));
    if CanAcquire(c, s.lease, s.clock, storeUp) { AcquireAfterExpiry(c, s, storeUp); }
  }

  lemma AcquireKeepsApart(c: Config, s: State, id: nat, storeUp: bool)
    requires c.leaseEnabled && HoldInv(c, s) && ApartInv(c, s) && Enabled(s, Acquire(id, storeUp))
    ensures ApartInv(c, Apply(c, s, Acquire(id, storeUp)))
  {
    var t := Apply(c, s, Acquire(id, storeUp));
    assert forall other :: other != id ==> (Claims(t, other) <==> Claims(s, other));
    if CanAcquire(c, s.lease, s.clock, storeUp) { AcquireAfterExpiry(c, s, storeUp); }
  }

  lemma AcquireKeepsOrder(c: Config, s: State, id: nat, storeUp: bool)
    requires c.leaseEnabled && HoldInv(c, s) && OrderInv(c, s) && Enabled(s, Acquire(id, storeUp))
    ensures OrderInv(c, Apply(c, s, Acquire(id, storeUp)))
  {
    var t := Apply(c, s, Acquire(id, storeUp));
    assert forall other :: other != id ==> (Busy(t, other) <==> Busy(s, other));
    if CanAcquire(c, s.lease, s.clock, storeUp) { AcquireAfterExpiry(c, s, storeUp); }
  }

  lemma AcquireStep(c: Config, s: State, id: nat, storeUp: bool)
    requires c.leaseEnabled && LeaseInv(c, s) && Enabled(s, Acquire(id, storeUp))
    ensures LeaseInv(c, Apply(c, s, Acquire(id, storeUp)))
  {
    AcquireKeepsHold(c, s, id, storeUp);
    AcquireKeepsApart(c, s, id, storeUp);
    AcquireKeepsOrder(c, s, id, storeUp);
  }

  lemma ReleaseStep(c: Config, s: State, id: nat, storeUp: bool)
    requires c.leaseEnabled && LeaseInv(c, s) && Enabled(s, Release(id, storeUp))
    ensures LeaseInv(c, Apply(c, s, Release(id, storeUp)))
  {
    var t := Apply(c, s, Release(id, storeUp));
    assert Busy(s, id) && !Claims(s, id);
    assert forall other :: other != id ==>
             (Claims(t, other) <==> Claims(s, other)) && (Busy(t, other) <==> Busy(s, other));
  }

  lemma EnqueueKeepsHold(c: Config, s: State, id: nat, ok: bool)
    requires HoldInv(c, s) && Enabled(s, Enqueue(id, ok))
    ensures HoldInv(c, Apply(c, s, Enqueue(id, ok)))
  {
    assert Claims(s, id);
  }

  lemma EnqueueKeepsApart(c: Config, s: State, id: nat, ok: bool)
    requires ApartInv(c, s) && Enabled(s, Enqueue(id, ok))
    ensures ApartInv(c, Apply(c, s, Enqueue(id, ok)))
  {
    var t := Apply(c, s, Enqueue(id, ok));
    assert Claims(s, id);
    assert forall other :: Claims(t, other) ==> other != id && Claims(s, other);
  }

  lemma EnqueueKeepsOrder(c: Config, s: State, id: nat, ok: bool)
    requires OrderInv(c, s) && Enabled(s, Enqueue(id, ok))
    ensures OrderInv(c, Apply(c, s, Enqueue(id, ok)))
  {
    var t := Apply(c, s, Enqueue(id, ok));
    assert Busy(s, id);
    assert forall other :: Busy(t, other) ==> Busy(s, other) && (ok ==> other != id);
  }

  lemma OtherStep(c: Config, s: State, a: Action)
    requires c.leaseEnabled && LeaseInv(c, s) && Enabled(s, a) && (a.Advance? || a.Launch? || a.StartTick?)
    ensures LeaseInv(c, Apply(c, s, a))
  {
    var t := Apply(c, s, a);
    assert forall other :: (Claims(t, other) <==> Claims(s, other)) && (Busy(t, other) <==> Busy(s, other));
  }

  lemma {:induction false} LeaseExec(c: Config, startClock: int, actions: seq<Action>)
    requires c.leaseEnabled
    ensures LeaseInv(c, Exec(c, startClock, actions))
  {
    if actions == [] {
    } else {
      var s, a := Exec(c, startClock, actions[..|actions| - 1]), actions[|actions| - 1];
      LeaseExec(c, startClock, actions[..|actions| - 1]);
      if Enabled(s, a) {
        match a
        case Acquire(id, up) => AcquireStep(c, s, id, up);
        case Release(id, up) => ReleaseStep(c, s, id, up);
        case Enqueue(id, ok) =>
          EnqueueKeepsHold(c, s, id, ok);
          EnqueueKeepsApart(c, s, id, ok);
          EnqueueKeepsOrder(c, s, id, ok);
        case _ => OtherStep(c, s, a);
      }
    }
  }

  /** Across all processes and interleavings (slow enqueues that outlive their lease, failed enqueues,
      lost acquires, stale releases, an unreachable store), two ticks that enqueued the cleanup task
      acquired the lease at least max(lease_seconds, cleanup_interval_seconds) apart. */
  lemma SuccessfulTicksAreApart(c: Config, startClock: int, actions: seq<Action>, i: nat, j: nat)
    requires c.leaseEnabled
    requires i < j < |Exec(c, startClock, actions).successes|
    ensures var s := Exec(c, startClock, actions).successes;
      Apart(s[i].acquiredAt, s[j].acquiredAt, Max(c.leaseSeconds, c.cleanupIntervalSeconds))
  {
    LeaseExec(c, startClock, actions);
  }

  /** A release takes the key away only from the process that performs it, and never the lease of a tick
      that succeeded or is still enqueueing. */
  lemma ReleaseTakesOnlyItsOwn(c: Config, startClock: int, actions: seq<Action>, id: nat, storeUp: bool)
    requires c.leaseEnabled && Enabled(Exec(c, startClock, actions), Release(id, storeUp))
    ensures var s := Exec(c, startClock, actions);
      var t := Apply(c, s, Release(id, storeUp));
      && (t.lease != s.lease ==> t.lease.None? && s.lease.value.token == id)
      && (forall i :: 0 <= i < |s.successes| && s.clock < s.successes[i].acquiredAt + c.LeaseLength() ==>
            t.lease == s.lease)
      && (forall other :: Claims(s, other) && s.clock < s.processes[other].phase.acquiredAt + c.LeaseLength() ==>
            t.lease == s.lease)
  {
    LeaseExec(c, startClock, actions);
    var s := Exec(c, startClock, actions);
    ReleaseStep(c, s, id, storeUp);
  }

  // ----- one process keeps its own interval even without a lease -----

  /** The tick of p that runs, or the next one that can, is an interval after the given success. */
  ghost predicate Rests(c: Config, p: Process, success: Success) {
    var bar := success.startedAt + c.cleanupIntervalSeconds;
    && p.lastTickAt.Some?
    && (if p.phase.Idle? then p.lastTickAt.value >= bar || (p.nextCleanupAt.Some? && p.nextCleanupAt.value >= bar)
        else p.phase.startedAt >= bar)
    && (!p.phase.Idle? ==> p.phase.startedAt == p.lastTickAt.value)
  }

  ghost predicate IntervalInv(c: Config, s: State) {
    && (forall id :: id in s.processes && !s.processes[id].phase.Idle? ==>
          s.processes[id].lastTickAt == Some(s.processes[id].phase.startedAt))
    && (forall i :: 0 <= i < |s.successes| ==>
          s.successes[i].id in s.processes && Rests(c, s.processes[s.successes[i].id], s.successes[i]))
    && (forall i, j :: 0 <= i < j < |s.successes| && s.successes[i].id == s.successes[j].id ==>
          s.successes[i].startedAt + c.cleanupIntervalSeconds <= s.successes[j].startedAt)
  }

  lemma IntervalStep(c: Config, s: State, a: Action)
    requires IntervalInv(c, s) && Enabled(s, a)
    ensures IntervalInv(c, Apply(c, s, a))
  {
  }

  /** With or without a lease store, one process starts its successful ticks an interval apart. */
  lemma {:induction false} OneProcessKeepsItsInterval(c: Config, startClock: int, actions: seq<Action>)
    ensures IntervalInv(c, Exec(c, startClock, actions))
    ensures var s := Exec(c, startClock, actions).successes;
      forall i, j :: 0 <= i < j < |s| && s[i].id == s[j].id ==>
        s[i].startedAt + c.cleanupIntervalSeconds <= s[j].startedAt
  {
    if actions == [] {
    } else {
      var s, a := Exec(c, startClock, actions[..|actions| - 1]), actions[|actions| - 1];
      OneProcessKeepsItsInterval(c, startClock, actions[..|actions| - 1]);
      if Enabled(s, a) { IntervalStep(c, s, a); }
    }
  }
}
