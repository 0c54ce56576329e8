/**
 * The Redis upload limits with calls in flight: each command of a call is atomic, and the commands of other calls of
 * the same scope come in between. An action that is not enabled leaves the state as it is.
 */
module RedisUploadRaces {
  import opened Basics
  import opened UploadLimits
  import opened RedisUploadLimits

  /** A call by the command it is about to send; all carry the time the call started and its size. */
  datatype Caller =
    | Free
    | Counting(startedAt: int, size: nat)
    | Summing(startedAt: int, size: nat)
    | Dropping(startedAt: int, size: nat, stale: set<int>, passed: bool)
    | Incrementing(startedAt: int, size: nat)
    | ExpiringCount(startedAt: int, size: nat)
    | Adding(startedAt: int, size: nat)
    | ExpiringBytes(startedAt: int, size: nat)
  {
    function Bucket(): int
      requires !Free?
    {
      startedAt / MINUTE_SECONDS
    }
  }

  /** A key without expiry lives on. */
  datatype Cell = Cell(count: nat, expiry: Option<int>)

  /** The keys of one scope, and a slot for each call that may be in flight. */
  datatype State = State(clock: int, counts: map<int, Cell>, fields: map<int, nat>, expiry: Option<int>,
                         callers: seq<Caller>)

  /** A sum is over all fields, so up to any bucket that is above them. */
  datatype Action =
    | Advance(seconds: nat)
    | Begin(i: nat, size: nat)
    | Get(i: nat) | Sum(i: nat, top: int) | Drop(i: nat)
    | Incr(i: nat) | ExpireCount(i: nat) | Add(i: nat) | ExpireBytes(i: nat)

  datatype Setup = Setup(limits: Limits, most: nat, inFlight: nat)

  function Count(s: State, bucket: int): nat {
    if bucket in s.counts && (s.counts[bucket].expiry.None? || s.clock < s.counts[bucket].expiry.value)
    then s.counts[bucket].count else 0
  }

  predicate IsLive(s: State) { s.expiry.None? || s.clock < s.expiry.value }

  function Fields(s: State): map<int, nat> { if IsLive(s) then s.fields else map[] }

  predicate Enabled(c: Setup, s: State, a: Action) {
    match a
    case Advance(_) => true
    case Begin(i, size) => i < |s.callers| && s.callers[i].Free? && size <= c.most
    case Get(i) => i < |s.callers| && s.callers[i].Counting?
    case Sum(i, top) => i < |s.callers| && s.callers[i].Summing? && forall b :: b in Fields(s) ==> b < top
    case Drop(i) => i < |s.callers| && s.callers[i].Dropping?
    case Incr(i) => i < |s.callers| && s.callers[i].Incrementing?
    case ExpireCount(i) => i < |s.callers| && s.callers[i].ExpiringCount?
    case Add(i) => i < |s.callers| && s.callers[i].Adding?
    case ExpireBytes(i) => i < |s.callers| && s.callers[i].ExpiringBytes?
  }

  /** A limit that is not set is not looked at. */
  function Started(c: Setup, at: int, size: nat): Caller {
    if c.limits.rpm > 0 then Counting(at, size) else Counted(c, at, size)
  }

  function Counted(c: Setup, at: int, size: nat): Caller {
    if c.limits.bph > 0 then Summing(at, size) else Incrementing(at, size)
  }

  predicate Passes(c: Setup, s: State, caller: Caller, top: int)
    requires caller.Summing?
  {
    RangeSum(Fields(s), caller.Bucket() - (BUCKETS - 1), top) + caller.size <= c.limits.bph
  }

  function Summed(c: Setup, s: State, caller: Caller, top: int): Caller
    requires caller.Summing?
  {
    var stale := set b | b in Fields(s) && b < caller.Bucket() - (BUCKETS - 1);
    if stale != {} then Dropping(caller.startedAt, caller.size, stale, Passes(c, s, caller, top))
    else if Passes(c, s, caller, top) then Incrementing(caller.startedAt, caller.size)
    else Free
  }

  function Apply(c: Setup, s: State, a: Action): State
    requires Enabled(c, s, a)
  {
    match a
    case Advance(seconds) => s.(clock := s.clock + seconds)
    case Begin(i, size) => s.(callers := s.callers[i := Started(c, s.clock, size)])
    case Get(i) =>
      var caller := s.callers[i];
      s.(callers := s.callers[i := if Count(s, caller.Bucket()) >= c.limits.rpm then Free
                                   else Counted(c, caller.startedAt, caller.size)])
    case Sum(i, top) => s.(callers := s.callers[i := Summed(c, s, s.callers[i], top)])
    case Drop(i) =>
      var caller := s.callers[i];
      var left := Fields(s) - caller.stale;
      s.(fields := left, expiry := if left != map[] then s.expiry else None,
         callers := s.callers[i := if caller.passed then Incrementing(caller.startedAt, caller.size) else Free])
    case Incr(i) =>
      var caller := s.callers[i];
      var updated := Count(s, caller.Bucket()) + 1;
      s.(counts := s.counts[caller.Bucket() := Cell(updated, if updated == 1 then None
                                                             else s.counts[caller.Bucket()].expiry)],
         callers := s.callers[i := ExpiringCount(caller.startedAt, caller.size)])
    case ExpireCount(i) =>
      var caller := s.callers[i];
      var count := Count(s, caller.Bucket());
      s.(counts := if count > 0 then s.counts[caller.Bucket() := Cell(count, Some(s.clock + REQUEST_TTL))]
                   else s.counts,
         callers := s.callers[i := Adding(caller.startedAt, caller.size)])
    case Add(i) =>
      var caller := s.callers[i];
      s.(fields := Fields(s)[caller.Bucket() := BytesAt(Fields(s), caller.Bucket()) + caller.size],
         expiry := if IsLive(s) then s.expiry else None,
         callers := s.callers[i := ExpiringBytes(caller.startedAt, caller.size)])
    case ExpireBytes(i) =>
      s.(expiry := if IsLive(s) && s.fields != map[] then Some(s.clock + BYTES_TTL) else s.expiry,
         callers := s.callers[i := Free])
  }

  function Next(c: Setup, s: State, a: Action): State {
    if Enabled(c, s, a) then Apply(c, s, a) else s
  }

  function Exec(c: Setup, clock: int, actions: seq<Action>): State {
    if actions == [] then State(clock, map[], map[], None, seq(c.inFlight, _ => Free))
    else Next(c, Exec(c, clock, actions[..|actions| - 1]), actions[|actions| - 1])
  }

  // ----- totals over the calls in flight -----

  type Weight = Caller -> nat

  function Total(callers: seq<Caller>, w: Weight): nat {
    if callers == [] then 0 else Total(callers[..|callers| - 1], w) + w(callers[|callers| - 1])
  }

  lemma {:induction false} TotalUpdate(callers: seq<Caller>, w: Weight, i: nat, x: Caller)
    requires i < |callers|
    ensures Total(callers[i := x], w) == Total(callers, w) - w(callers[i]) + w(x)
  {
    var n := |callers| - 1;
    if i < n {
      TotalUpdate(callers[..n], w, i, x);
      assert callers[i := x][..n] == callers[..n][i := x];
    } else {
      assert callers[i := x][..n] == callers[..n];
    }
  }

  ghost predicate AllAtMost(callers: seq<Caller>, w: Weight, m: nat) {
    forall i :: 0 <= i < |callers| ==> w(callers[i]) <= m
  }

  lemma {:induction false} TotalAtMost(callers: seq<Caller>, w: Weight, m: nat)
    requires AllAtMost(callers, w, m)
    ensures Total(callers, w) <= Times(|callers|, m)
  {
    if callers == [] {
    } else {
      TotalAtMost(callers[..|callers| - 1], w, m);
    }
  }

  /** With nothing from one of them. */
  lemma {:induction false} TotalOfOthers(callers: seq<Caller>, w: Weight, m: nat, i: nat)
    requires AllAtMost(callers, w, m) && i < |callers| && w(callers[i]) == 0
    ensures Total(callers, w) <= Times(|callers| - 1, m)
  {
    var n := |callers| - 1;
    if i == n {
      TotalAtMost(callers[..n], w, m);
    } else {
      TotalOfOthers(callers[..n], w, m, i);
    }
  }

  // ----- requests -----

  /** One for a call that has passed the request limit of the bucket and not incremented its counter yet. */
  function Waits(bucket: int): Weight {
    (c: Caller) =>
      if (c.Summing? || c.Dropping? || c.Incrementing?) && c.Bucket() == bucket then 1 else 0
  }

  ghost predicate RequestInv(c: Setup, s: State) {
    && |s.callers| == c.inFlight
    && forall b :: Count(s, b) + Total(s.callers, Waits(b)) <= c.limits.rpm + c.inFlight - 1
  }

  lemma {:induction false} WaitsAtMost(callers: seq<Caller>, b: int)
    ensures Total(callers, Waits(b)) <= |callers|
  {
    TotalAtMost(callers, Waits(b), 1);
    TimesIsProduct(|callers|, 1);
  }

  lemma {:induction false} RequestStep(c: Setup, s: State, a: Action, b: int)
    requires c.limits.rpm > 0 && RequestInv(c, s) && Enabled(c, s, a)
    ensures var t := Apply(c, s, a);
            Count(t, b) + Total(t.callers, Waits(b)) <= c.limits.rpm + c.inFlight - 1
  {
    var t := Apply(c, s, a);
    WaitsAtMost(t.callers, b);
    if !a.Advance? { TotalUpdate(s.callers, Waits(b), a.i, t.callers[a.i]); }
    assert Count(s, b) + Total(s.callers, Waits(b)) <= c.limits.rpm + c.inFlight - 1;
  }

  lemma {:induction false} RequestExec(c: Setup, clock: int, actions: seq<Action>)
    requires c.limits.rpm > 0 && c.inFlight > 0
    ensures RequestInv(c, Exec(c, clock, actions))
  {
    if actions == [] {
      forall b ensures Total(seq(c.inFlight, _ => Free), Waits(b)) == 0 { NobodyWeighs(c.inFlight, Waits(b)); }
    } else {
      var before, a := actions[..|actions| - 1], actions[|actions| - 1];
      var s := Exec(c, clock, before);
      RequestExec(c, clock, before);
      if Enabled(c, s, a) {
        forall b ensures Count(Apply(c, s, a), b) + Total(Apply(c, s, a).callers, Waits(b))
                      <= c.limits.rpm + c.inFlight - 1 {
          RequestStep(c, s, a, b);
        }
      }
    }
  }

  lemma {:induction false} NobodyWeighs(n: nat, w: Weight)
    requires w(Free) == 0
    ensures Total(seq(n, _ => Free), w) == 0
  {
    if n == 0 {
    } else {
      NobodyWeighs(n - 1, w);
      assert seq(n, _ => Free)[..n - 1] == seq(n - 1, _ => Free);
    }
  }

  /** Whatever the interleaving, a minute's counter never exceeds the limit by as many as the calls in flight. */
  lemma {:induction false} RequestCounterBound(c: Setup, clock: int, actions: seq<Action>, bucket: int)
    requires c.limits.rpm > 0 && c.inFlight > 0
    ensures Count(Exec(c, clock, actions), bucket) <= c.limits.rpm + c.inFlight - 1
  {
    RequestExec(c, clock, actions);
    assert Count(Exec(c, clock, actions), bucket) + Total(Exec(c, clock, actions).callers, Waits(bucket))
        <= c.limits.rpm + c.inFlight - 1;
  }

  // ----- bytes -----

  /** The bytes of a call that has passed the bytes limit and not added them yet, if its bucket is one of the sixty. */
  function Owes(lo: int): Weight {
    (c: Caller) =>
      if ((c.Dropping? && c.passed) || c.Incrementing? || c.ExpiringCount? || c.Adding?)
         && lo <= c.Bucket() < lo + BUCKETS
      then c.size else 0
  }

  function Stored(s: State, lo: int): nat { RangeSum(Fields(s), lo, lo + BUCKETS) }

  /** The bytes limit, and one upload more for each call in flight but one. */
  function BytesBound(c: Setup): int
    requires c.inFlight > 0
  {
    c.limits.bph + Times(c.inFlight - 1, c.most)
  }

  ghost predicate SizesInv(c: Setup, callers: seq<Caller>) {
    forall i :: 0 <= i < |callers| && !callers[i].Free? ==> callers[i].size <= c.most
  }

  ghost predicate BytesInv(c: Setup, s: State)
    requires c.inFlight > 0
  {
    && |s.callers| == c.inFlight && SizesInv(c, s.callers)
    && forall lo :: Stored(s, lo) + Total(s.callers, Owes(lo)) <= BytesBound(c)
  }

  lemma SizesStep(c: Setup, s: State, a: Action)
    requires SizesInv(c, s.callers) && Enabled(c, s, a)
    ensures SizesInv(c, Apply(c, s, a).callers)
  {
  }

  lemma {:induction false} RangeSumAdd(fields: map<int, nat>, b: int, size: nat, lo: int, hi: int)
    ensures RangeSum(fields[b := BytesAt(fields, b) + size], lo, hi)
         == RangeSum(fields, lo, hi) + if lo <= b < hi then size else 0
    decreases hi - lo
  {
    if lo < hi { RangeSumAdd(fields, b, size, lo, hi - 1); }
  }

  lemma {:induction false} RangeSumDrop(fields: map<int, nat>, stale: set<int>, lo: int, hi: int)
    ensures RangeSum(fields - stale, lo, hi) <= RangeSum(fields, lo, hi)
    decreases hi - lo
  {
    if lo < hi { RangeSumDrop(fields, stale, lo, hi - 1); }
  }

  lemma {:induction false} RangeSumSplits(fields: map<int, nat>, lo: int, mid: int, hi: int)
    requires lo <= mid <= hi
    ensures RangeSum(fields, lo, hi) == RangeSum(fields, lo, mid) + RangeSum(fields, mid, hi)
    decreases hi - mid
  {
    if mid < hi { RangeSumSplits(fields, lo, mid, hi - 1); }
  }

  lemma {:induction false} NothingAbove(fields: map<int, nat>, top: int, hi: int)
    requires forall b :: b in fields ==> b < top
    ensures RangeSum(fields, top, hi) == 0
    decreases hi - top
  {
    if top < hi { NothingAbove(fields, top, hi - 1); }
  }

  /** The sum that a call reads covers every window its bucket is in. */
  lemma {:induction false} WindowIsRead(fields: map<int, nat>, cutoff: int, lo: int, hi: int, top: int)
    requires cutoff <= lo <= hi && forall b :: b in fields ==> b < top
    ensures RangeSum(fields, lo, hi) <= RangeSum(fields, cutoff, top)
  {
    var high := Max(Max(hi, top), cutoff);
    RangeSumSplits(fields, cutoff, lo, high);
    RangeSumSplits(fields, lo, hi, high);
    if cutoff <= top {
      RangeSumSplits(fields, cutoff, top, high);
      NothingAbove(fields, top, high);
    } else {
      NothingAbove(fields, cutoff, high);
    }
  }

  /** A call that passes: what is stored leaves room for it, and the other calls in flight owe at most so much. */
  lemma {:induction false} PassingFits(c: Setup, s: State, i: nat, top: int, lo: int)
    requires c.inFlight > 0 && BytesInv(c, s) && Enabled(c, s, Sum(i, top)) && Passes(c, s, s.callers[i], top)
    requires lo <= s.callers[i].Bucket() < lo + BUCKETS
    ensures Stored(s, lo) + Total(s.callers, Owes(lo)) + s.callers[i].size <= BytesBound(c)
  {
    WindowIsRead(Fields(s), s.callers[i].Bucket() - (BUCKETS - 1), lo, lo + BUCKETS, top);
    forall j | 0 <= j < |s.callers| ensures Owes(lo)(s.callers[j]) <= c.most { }
    TotalOfOthers(s.callers, Owes(lo), c.most, i);
  }

  lemma {:induction false} SumStep(c: Setup, s: State, i: nat, top: int, lo: int)
    requires c.inFlight > 0 && BytesInv(c, s) && Enabled(c, s, Sum(i, top))
    ensures var t := Apply(c, s, Sum(i, top)); Stored(t, lo) + Total(t.callers, Owes(lo)) <= BytesBound(c)
  {
    var t := Apply(c, s, Sum(i, top));
    TotalUpdate(s.callers, Owes(lo), i, t.callers[i]);
    assert Stored(s, lo) + Total(s.callers, Owes(lo)) <= BytesBound(c);
    if Passes(c, s, s.callers[i], top) && lo <= s.callers[i].Bucket() < lo + BUCKETS { PassingFits(c, s, i, top, lo); }
  }

  /** What is stored grows by nothing but the bytes that a call owed. */
  lemma StoredStep(c: Setup, s: State, a: Action, lo: int)
    requires Enabled(c, s, a)
    ensures Stored(Apply(c, s, a), lo) <= Stored(s, lo) + if a.Add? then Owes(lo)(s.callers[a.i]) else 0
  {
    match a
    case Advance(_) => RangeSumOfNone(lo, lo + BUCKETS);
    case Drop(i) => RangeSumDrop(Fields(s), s.callers[i].stale, lo, lo + BUCKETS);
    case Add(i) => RangeSumAdd(Fields(s), s.callers[i].Bucket(), s.callers[i].size, lo, lo + BUCKETS);
    case _ => SameFields(c, s, a);
  }

  lemma SameFields(c: Setup, s: State, a: Action)
    requires Enabled(c, s, a) && !a.Advance? && !a.Drop? && !a.Add?
    ensures Fields(Apply(c, s, a)) == Fields(s)
  {
  }

  lemma {:induction false} OtherStep(c: Setup, s: State, a: Action, lo: int)
    requires c.inFlight > 0 && BytesInv(c, s) && c.limits.bph > 0 && Enabled(c, s, a) && !a.Sum?
    ensures var t := Apply(c, s, a); Stored(t, lo) + Total(t.callers, Owes(lo)) <= BytesBound(c)
  {
    var t := Apply(c, s, a);
    StoredStep(c, s, a, lo);
    if !a.Advance? { TotalUpdate(s.callers, Owes(lo), a.i, t.callers[a.i]); }
    assert Stored(s, lo) + Total(s.callers, Owes(lo)) <= BytesBound(c);
  }

  lemma {:induction false} BytesStep(c: Setup, s: State, a: Action)
    requires c.inFlight > 0 && BytesInv(c, s) && c.limits.bph > 0 && Enabled(c, s, a)
    ensures BytesInv(c, Apply(c, s, a))
  {
    SizesStep(c, s, a);
    forall lo ensures Stored(Apply(c, s, a), lo) + Total(Apply(c, s, a).callers, Owes(lo)) <= BytesBound(c) {
      if a.Sum? { SumStep(c, s, a.i, a.top, lo); } else { OtherStep(c, s, a, lo); }
    }
  }

  lemma {:induction false} BytesExec(c: Setup, clock: int, actions: seq<Action>)
    requires c.inFlight > 0 && c.limits.bph > 0
    ensures BytesInv(c, Exec(c, clock, actions))
  {
    if actions == [] {
      TimesGrow(0, c.inFlight - 1, c.most);
      forall lo ensures Stored(Exec(c, clock, []), lo) + Total(seq(c.inFlight, _ => Free), Owes(lo)) <= BytesBound(c) {
        RangeSumOfNone(lo, lo + BUCKETS);
        NobodyWeighs(c.inFlight, Owes(lo));
      }
    } else {
      var s := Exec(c, clock, actions[..|actions| - 1]);
      BytesExec(c, clock, actions[..|actions| - 1]);
      if Enabled(c, s, actions[|actions| - 1]) { BytesStep(c, s, actions[|actions| - 1]); }
    }
  }

  /** Whatever the interleaving and however slow a call is, what is stored for sixty consecutive minutes never exceeds
      the bytes limit by more than one largest upload for each call in flight but one. */
  lemma {:induction false} StoredBytesBound(c: Setup, clock: int, actions: seq<Action>, lo: int)
    requires c.inFlight > 0 && c.limits.bph > 0
    ensures Stored(Exec(c, clock, actions), lo) <= c.limits.bph + (c.inFlight - 1) * c.most
  {
    BytesExec(c, clock, actions);
    TimesIsProduct(c.inFlight - 1, c.most);
    assert Stored(Exec(c, clock, actions), lo) + Total(Exec(c, clock, actions).callers, Owes(lo)) <= BytesBound(c);
  }
}
