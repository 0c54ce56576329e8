/**
 * Upload limits kept in Redis: per scope one request counter for each minute and one hash of bytes
 * by minute. Calls are serial, on a nondecreasing clock; commands see keys that have not expired.
 */
module RedisUploadLimits {
  import opened Basics
  import opened UploadLimits

  const BUCKETS := 60
  const REQUEST_TTL := 120
  const BYTES_TTL := HOUR_SECONDS + 120

  datatype Counter = Counter(count: nat, expiry: int)

  /** The keys of one scope. */
  datatype Store = Store(requests: map<int, Counter>, bytes: map<int, nat>, bytesExpiry: int)

  const EMPTY := Store(map[], map[], 0)

  function LiveCount(st: Store, bucket: int, now: int): nat {
    if bucket in st.requests && now < st.requests[bucket].expiry then st.requests[bucket].count else 0
  }

  function LiveBytes(st: Store, now: int): map<int, nat> {
    if now < st.bytesExpiry then st.bytes else map[]
  }

  function BytesAt(bytes: map<int, nat>, bucket: int): nat {
    if bucket in bytes then bytes[bucket] else 0
  }

  /** The bytes of the buckets from lo up to and not including hi. */
  function RangeSum(bytes: map<int, nat>, lo: int, hi: int): nat
    decreases hi - lo
  {
    if hi <= lo then 0 else RangeSum(bytes, lo, hi - 1) + BytesAt(bytes, hi - 1)
  }

  function DropStale(bytes: map<int, nat>, cutoff: int): map<int, nat> {
    map b | b in bytes && b >= cutoff :: bytes[b]
  }

  /** One call: the state it leaves and its verdict. */
  function Enforced(st: Store, now: int, limits: Limits, size: nat): (Store, Verdict) {
    var bucket := now / 60;
    var live := LiveBytes(st, now);
    var kept := if limits.bph > 0 then DropStale(live, bucket - (BUCKETS - 1)) else live;
    if limits.rpm > 0 && LiveCount(st, bucket, now) >= limits.rpm then (st, RateExceeded)
    else if limits.bph > 0 && RangeSum(kept, bucket - (BUCKETS - 1), bucket + 1) + size > limits.bph then
      (st.(bytes := kept), BandwidthExceeded)
    else
      (Store(st.requests[bucket := Counter(LiveCount(st, bucket, now) + 1, now + REQUEST_TTL)],
             kept[bucket := BytesAt(kept, bucket) + size], now + BYTES_TTL), Allowed)
  }

  lemma {:induction false} RangeSumWithout(bytes: map<int, nat>, b: int, lo: int, hi: int)
    requires b in bytes
    ensures RangeSum(bytes - {b}, lo, hi) == RangeSum(bytes, lo, hi) - (if lo <= b < hi then bytes[b] else 0)
    decreases hi - lo
  {
    if lo < hi { RangeSumWithout(bytes, b, lo, hi - 1); }
  }

  lemma {:induction false} RangeSumOfNone(lo: int, hi: int)
    ensures RangeSum(map[], lo, hi) == 0
    decreases hi - lo
  {
    if lo < hi { RangeSumOfNone(lo, hi - 1); }
  }

  lemma {:induction false} RangeSumSame(a: map<int, nat>, b: map<int, nat>, lo: int, hi: int)
    requires forall k :: lo <= k < hi ==> BytesAt(a, k) == BytesAt(b, k)
    ensures RangeSum(a, lo, hi) == RangeSum(b, lo, hi)
    decreases hi - lo
  {
    if lo < hi { RangeSumSame(a, b, lo, hi - 1); }
  }

  class RedisScope {
    var requests: map<int, Counter>
    var bytes: map<int, nat>
    var bytesExpiry: int

    ghost function View(): Store
      reads this
    {
      Store(requests, bytes, bytesExpiry)
    }

    constructor ()
      ensures View() == EMPTY
    {
      requests, bytes, bytesExpiry := map[], map[], 0;
    }

    /** The sum of the fields that are not stale, read in any order, and the stale fields. */
    static method SumBuckets(fields: map<int, nat>, cutoff: int, ghost top: int) returns (total: nat, stale: set<int>)
      requires forall b :: b in fields ==> b < top
      ensures total == RangeSum(fields, cutoff, top)
      ensures stale == set b | b in fields && b < cutoff
    {
      total, stale := 0, {};
      var rest := fields.Keys;
      ghost var left := fields;
      while rest != {}
        invariant rest == left.Keys <= fields.Keys && forall b :: b in left ==> left[b] == fields[b]
        invariant total + RangeSum(left, cutoff, top) == RangeSum(fields, cutoff, top)
        invariant stale == set b | b in fields && b !in rest && b < cutoff
        decreases rest
      {
        ghost var some := Member(rest);
        var b :| b in rest;
        RangeSumWithout(left, b, cutoff, top);
        if b < cutoff { stale := stale + {b}; } else { total := total + fields[b]; }
        rest, left := rest - {b}, left - {b};
      }
      assert left == map[];
      RangeSumOfNone(cutoff, top);
    }

    method EnforceCounter(now: int, limits: Limits, size: nat) returns (verdict: Verdict)
      requires forall b :: b in bytes ==> b <= now / 60
      modifies this
      ensures (View(), verdict) == Enforced(old(View()), now, limits, size)
    {
      var bucket := now / 60;
      var count := if bucket in requests && now < requests[bucket].expiry then requests[bucket].count else 0;
      if limits.rpm > 0 && count >= limits.rpm { return RateExceeded; }
      var live := if now < bytesExpiry then bytes else map[];
      if limits.bph > 0 {
        var cutoff := bucket - 59;
        var total, stale := SumBuckets(live, cutoff, bucket + 1);
        RangeSumSame(live, DropStale(live, cutoff), cutoff, bucket + 1);
        assert live - stale == DropStale(live, cutoff);
        live := live - stale;
        bytes := live;
        if total + size > limits.bph { return BandwidthExceeded; }
      }
      requests := requests[bucket := Counter(count + 1, now + REQUEST_TTL)];
      bytes := live[bucket := (if bucket in live then live[bucket] else 0) + size];
      bytesExpiry := now + BYTES_TTL;
      return Allowed;
    }
  }

  // ----- serial runs of one scope -----

  datatype Call = Call(now: int, size: nat)

  ghost predicate InOrder(calls: seq<Call>) {
    forall i, j :: 0 <= i < j < |calls| ==> calls[i].now <= calls[j].now
  }

  function Run(limits: Limits, calls: seq<Call>): (Store, seq<Call>) {
    if calls == [] then (EMPTY, [])
    else
      var (st, admitted) := Run(limits, calls[..|calls| - 1]);
      var c := calls[|calls| - 1];
      var (st', verdict) := Enforced(st, c.now, limits, c.size);
      (st', if verdict == Allowed then admitted + [c] else admitted)
  }

  /** Bytes admitted in the minute buckets from lo up to and not including hi. */
  function AdmittedBytes(admitted: seq<Call>, lo: int, hi: int): nat {
    if admitted == [] then 0
    else AdmittedBytes(admitted[..|admitted| - 1], lo, hi)
         + (if lo <= admitted[|admitted| - 1].now / 60 < hi then admitted[|admitted| - 1].size else 0)
  }

  /** Bytes admitted in 60 consecutive minute buckets. */
  function HourFrom(admitted: seq<Call>, lo: int): nat { AdmittedBytes(admitted, lo, lo + BUCKETS) }

  function AdmittedCount(admitted: seq<Call>, bucket: int): nat {
    if admitted == [] then 0
    else AdmittedCount(admitted[..|admitted| - 1], bucket)
         + (if admitted[|admitted| - 1].now / 60 == bucket then 1 else 0)
  }

  lemma AdmittedAppend(admitted: seq<Call>, c: Call, lo: int, hi: int)
    ensures AdmittedBytes(admitted + [c], lo, hi)
         == AdmittedBytes(admitted, lo, hi) + (if lo <= c.now / 60 < hi then c.size else 0)
    ensures AdmittedCount(admitted + [c], lo) == AdmittedCount(admitted, lo) + (if c.now / 60 == lo then 1 else 0)
  {
    assert (admitted + [c])[..|admitted|] == admitted;
  }

  lemma {:induction false} AdmittedSplit(admitted: seq<Call>, lo: int, mid: int, hi: int)
    requires lo <= mid <= hi
    ensures AdmittedBytes(admitted, lo, hi) == AdmittedBytes(admitted, lo, mid) + AdmittedBytes(admitted, mid, hi)
  {
    if admitted == [] {
    } else {
      AdmittedSplit(admitted[..|admitted| - 1], lo, mid, hi);
    }
  }

  lemma {:induction false} NothingAdmitted(admitted: seq<Call>, lo: int, hi: int)
    requires forall i :: 0 <= i < |admitted| ==> !(lo <= admitted[i].now / 60 < hi)
    ensures AdmittedBytes(admitted, lo, hi) == 0
  {
    if admitted == [] {
    } else {
      NothingAdmitted(admitted[..|admitted| - 1], lo, hi);
    }
  }

  /** The hash, as long as it lives, agrees with the admissions on every bucket of the window, and it lives
      as long as any of its buckets is in the window. */
  ghost predicate BytesInv(st: Store, admitted: seq<Call>, clock: int) {
    && (forall b :: b in st.bytes ==> b <= clock / 60 && b * 60 + BYTES_TTL <= st.bytesExpiry)
    && (forall b {:trigger BytesAt(LiveBytes(st, clock), b)} :: b >= clock / 60 - (BUCKETS - 1) ==>
          BytesAt(LiveBytes(st, clock), b) == AdmittedBytes(admitted, b, b + 1))
  }

  ghost predicate RequestsInv(limits: Limits, st: Store, admitted: seq<Call>, clock: int) {
    && (forall b :: b in st.requests ==> b * 60 + REQUEST_TTL <= st.requests[b].expiry)
    && (forall b {:trigger LiveCount(st, b, clock)} :: clock < b * 60 + REQUEST_TTL ==>
          LiveCount(st, b, clock) == AdmittedCount(admitted, b))
    && (limits.rpm > 0 ==> forall b :: AdmittedCount(admitted, b) <= limits.rpm)
  }

  ghost predicate RunInv(limits: Limits, st: Store, admitted: seq<Call>, clock: int) {
    && (forall i :: 0 <= i < |admitted| ==> admitted[i].now <= clock)
    && BytesInv(st, admitted, clock)
    && (limits.bph > 0 ==> forall c :: HourFrom(admitted, c) <= limits.bph)
  }

  /** Time alone takes nothing out of the window before it is stale. */
  lemma BytesLater(st: Store, admitted: seq<Call>, clock: int, now: int)
    requires BytesInv(st, admitted, clock) && clock <= now
    ensures BytesInv(st, admitted, now)
  {
    assert clock / 60 <= now / 60;
    forall b | b >= now / 60 - (BUCKETS - 1)
      ensures BytesAt(LiveBytes(st, now), b) == AdmittedBytes(admitted, b, b + 1)
    {
      assert BytesAt(LiveBytes(st, clock), b) == AdmittedBytes(admitted, b, b + 1);
      if b in st.bytes { assert now < b * 60 + BYTES_TTL; }
    }
  }

  lemma {:induction false} WindowSum(bytes: map<int, nat>, admitted: seq<Call>, lo: int, hi: int)
    requires lo <= hi
    requires forall b {:trigger BytesAt(bytes, b)} :: lo <= b ==> BytesAt(bytes, b) == AdmittedBytes(admitted, b, b + 1)
    ensures RangeSum(bytes, lo, hi) == AdmittedBytes(admitted, lo, hi)
    decreases hi - lo
  {
    if lo < hi {
      WindowSum(bytes, admitted, lo, hi - 1);
      AdmittedSplit(admitted, lo, hi - 1, hi);
      assert BytesAt(bytes, hi - 1) == AdmittedBytes(admitted, hi - 1, hi);
    } else {
      NothingAdmitted(admitted, lo, hi);
    }
  }

  /** The bound survives an admission: a window with the new bucket in it holds no more than the one the
      call was judged on. */
  lemma BoundAppend(admitted: seq<Call>, c: Call, bph: nat, lo: int)
    requires forall i :: 0 <= i < |admitted| ==> admitted[i].now <= c.now
    requires AdmittedBytes(admitted, c.now / 60 - (BUCKETS - 1), c.now / 60 + 1) + c.size <= bph
    requires HourFrom(admitted, lo) <= bph
    ensures HourFrom(admitted + [c], lo) <= bph
  {
    var bucket := c.now / 60;
    AdmittedAppend(admitted, c, lo, lo + BUCKETS);
    if lo <= bucket < lo + BUCKETS {
      AdmittedSplit(admitted, lo, bucket + 1, lo + BUCKETS);
      NothingAdmitted(admitted, bucket + 1, lo + BUCKETS);
      AdmittedSplit(admitted, bucket - (BUCKETS - 1), lo, bucket + 1);
    }
  }

  lemma ServeKeepsBytes(limits: Limits, st: Store, admitted: seq<Call>, c: Call)
    requires BytesInv(st, admitted, c.now)
    ensures var (st', verdict) := Enforced(st, c.now, limits, c.size);
      BytesInv(st', if verdict == Allowed then admitted + [c] else admitted, c.now)
  {
    var (st', verdict) := Enforced(st, c.now, limits, c.size);
    var bucket := c.now / 60;
    var after := if verdict == Allowed then admitted + [c] else admitted;
    forall b | b >= bucket - (BUCKETS - 1) ensures BytesAt(LiveBytes(st', c.now), b) == AdmittedBytes(after, b, b + 1) {
      assert BytesAt(LiveBytes(st, c.now), b) == AdmittedBytes(admitted, b, b + 1);
      AdmittedAppend(admitted, c, b, b + 1);
    }
  }

  lemma ServeKeepsBound(limits: Limits, st: Store, admitted: seq<Call>, c: Call)
    requires RunInv(limits, st, admitted, c.now) && limits.bph > 0
    requires Enforced(st, c.now, limits, c.size).1 == Allowed
    ensures forall lo :: HourFrom(admitted + [c], lo) <= limits.bph
  {
    var lowest := c.now / 60 - (BUCKETS - 1);
    var kept := DropStale(LiveBytes(st, c.now), lowest);
    forall b | lowest <= b ensures BytesAt(kept, b) == AdmittedBytes(admitted, b, b + 1) {
      assert BytesAt(LiveBytes(st, c.now), b) == AdmittedBytes(admitted, b, b + 1);
    }
    WindowSum(kept, admitted, lowest, c.now / 60 + 1);
    forall lo ensures HourFrom(admitted + [c], lo) <= limits.bph {
      BoundAppend(admitted, c, limits.bph, lo);
    }
  }

  lemma {:induction false} RunKeepsInv(limits: Limits, calls: seq<Call>, clock: int)
    requires InOrder(calls) && forall i :: 0 <= i < |calls| ==> calls[i].now <= clock
    ensures RunInv(limits, Run(limits, calls).0, Run(limits, calls).1, clock)
  {
    if calls == [] {
    } else {
      var before, c := calls[..|calls| - 1], calls[|calls| - 1];
      RunKeepsInv(limits, before, c.now);
      var (st, admitted) := Run(limits, before);
      ServeKeepsBytes(limits, st, admitted, c);
      if limits.bph > 0 && Enforced(st, c.now, limits, c.size).1 == Allowed {
        ServeKeepsBound(limits, st, admitted, c);
      }
      BytesLater(Run(limits, calls).0, Run(limits, calls).1, c.now, clock);
    }
  }

  // ----- main results -----

  /** In every serial run, the bytes admitted in any 60 consecutive minute buckets are at most bph. */
  lemma HourlyBytesBound(limits: Limits, calls: seq<Call>, lo: int)
    requires InOrder(calls) && limits.bph > 0
    ensures HourFrom(Run(limits, calls).1, lo) <= limits.bph
  {
    RunKeepsInv(limits, calls, if calls == [] then 0 else calls[|calls| - 1].now);
  }

  /** Neither deleting stale fields nor the expiry of the hash discards bytes still inside the window: at any
      time, each of the last 60 buckets holds exactly what was admitted in it. */
  lemma NothingInTheWindowIsDiscarded(limits: Limits, calls: seq<Call>, now: int, bucket: int)
    requires InOrder(calls) && forall i :: 0 <= i < |calls| ==> calls[i].now <= now
    requires now / 60 - (BUCKETS - 1) <= bucket
    ensures BytesAt(LiveBytes(Run(limits, calls).0, now), bucket)
         == AdmittedBytes(Run(limits, calls).1, bucket, bucket + 1)
  {
    RunKeepsInv(limits, calls, now);
  }

  // ----- requests per minute -----

  lemma ServeKeepsRequests(limits: Limits, st: Store, admitted: seq<Call>, clock: int, c: Call)
    requires RequestsInv(limits, st, admitted, clock) && clock <= c.now
    ensures var (st', verdict) := Enforced(st, c.now, limits, c.size);
      RequestsInv(limits, st', if verdict == Allowed then admitted + [c] else admitted, c.now)
  {
    var (st', verdict) := Enforced(st, c.now, limits, c.size);
    var after := if verdict == Allowed then admitted + [c] else admitted;
    var bucket := c.now / 60;
    assert LiveCount(st, bucket, c.now) == LiveCount(st, bucket, clock) == AdmittedCount(admitted, bucket);
    forall b | c.now < b * 60 + REQUEST_TTL ensures LiveCount(st', b, c.now) == AdmittedCount(after, b) {
      assert LiveCount(st, b, c.now) == LiveCount(st, b, clock) == AdmittedCount(admitted, b);
      AdmittedAppend(admitted, c, b, b + 1);
    }
    if limits.rpm > 0 {
      forall b ensures AdmittedCount(after, b) <= limits.rpm {
        AdmittedAppend(admitted, c, b, b + 1);
        assert AdmittedCount(admitted, b) <= limits.rpm;
      }
    }
  }

  /** In every serial run, a minute bucket admits at most rpm requests; the two-minute expiry of its counter
      never forgets one of them while the bucket is current. */
  lemma {:induction false} RequestBound(limits: Limits, calls: seq<Call>)
    requires InOrder(calls)
    ensures RequestsInv(limits, Run(limits, calls).0, Run(limits, calls).1,
                        if calls == [] then 0 else calls[|calls| - 1].now)
    ensures limits.rpm > 0 ==> forall b :: AdmittedCount(Run(limits, calls).1, b) <= limits.rpm
  {
    if calls == [] {
    } else {
      var before, c := calls[..|calls| - 1], calls[|calls| - 1];
      RequestBound(limits, before);
      var (st, admitted) := Run(limits, before);
      ServeKeepsRequests(limits, st, admitted, if before == [] then c.now else before[|before| - 1].now, c);
    }
  }

  // ----- the two scopes of an anonymous upload -----

  /** The actor's scope is enforced, and charged, before the shared one is looked at. */
  function EnforcedAnonymous(own: Store, shared: Store, now: int, limits: Limits, sharedLimits: Limits, size: nat)
    : (Store, Store, Verdict)
  {
    var (own', first) := Enforced(own, now, limits, size);
    if first != Allowed then (own', shared, first)
    else
      var (shared', second) := Enforced(shared, now, sharedLimits, size);
      (own', shared', second)
  }

  /** Unlike the in-memory limiter, an upload refused by the shared limits is still charged to the actor:
      the current bucket grows exactly when the actor's own limits allow, whatever the final verdict. */
  lemma RefusedUploadsAreCharged(own: Store, shared: Store, now: int, limits: Limits, sharedLimits: Limits, size: nat)
    ensures var (own', _, _) := EnforcedAnonymous(own, shared, now, limits, sharedLimits, size);
      LiveCount(own', now / 60, now) == LiveCount(own, now / 60, now)
                                        + (if Enforced(own, now, limits, size).1 == Allowed then 1 else 0)
      && BytesAt(LiveBytes(own', now), now / 60) == BytesAt(LiveBytes(own, now), now / 60)
                                        + (if Enforced(own, now, limits, size).1 == Allowed then size else 0)
  {
  }

  /** One upload from nothing, with room in the limits. */
  lemma FirstUpload(now: int, limits: Limits, size: nat)
    requires limits.bph <= 0 || size <= limits.bph
    ensures Enforced(EMPTY, now, limits, size).1 == Allowed
    ensures LiveCount(Enforced(EMPTY, now, limits, size).0, now / 60, now) == 1
    ensures BytesAt(LiveBytes(Enforced(EMPTY, now, limits, size).0, now), now / 60) == size
  {
    var none: map<int, nat> := map[];
    assert LiveBytes(EMPTY, now) == none && DropStale(none, now / 60 - (BUCKETS - 1)) == none;
    RangeSumOfNone(now / 60 - (BUCKETS - 1), now / 60 + 1);
  }

  /** It happens from nothing: where the shared limits allow one request in a minute, a second actor's first upload is
      refused after the first actor's, and counted and summed against the second actor all the same. */
  lemma SecondActorPaysForNothing(now: int, limits: Limits, sharedLimits: Limits, size: nat)
    requires limits.bph <= 0 || size <= limits.bph
    requires sharedLimits.rpm == 1 && (sharedLimits.bph <= 0 || size <= sharedLimits.bph)
    ensures var (_, shared, one) := EnforcedAnonymous(EMPTY, EMPTY, now, limits, sharedLimits, size);
            var (second, _, two) := EnforcedAnonymous(EMPTY, shared, now, limits, sharedLimits, size);
            && one == Allowed && two == RateExceeded
            && LiveCount(second, now / 60, now) == 1 && BytesAt(LiveBytes(second, now), now / 60) == size
  {
    FirstUpload(now, limits, size);
    FirstUpload(now, sharedLimits, size);
  }
}
