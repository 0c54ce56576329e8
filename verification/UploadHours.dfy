/**
 * What the in-memory upload limits let through in an hour: the bytes limit is named after the hour and judged on a
 * deque that has been pruned to one minute.
 */
module UploadHours {
  import opened Basics
  import opened Text
  import opened UploadLimits

  ghost predicate SizesAtMost(requests: seq<Request>, most: nat) {
    forall i :: 0 <= i < |requests| ==> requests[i].size <= most
  }

  /** The most bytes that one minute can hold when no upload has more than the given size. */
  function MinuteMaximum(limits: Limits, most: nat): nat
    requires limits.bph > 0
  {
    if limits.rpm > 0 && limits.rpm * most < limits.bph then limits.rpm * most else limits.bph
  }

  lemma {:induction false} FewSmallUploads(events: seq<Upload>, most: nat)
    requires forall i :: 0 <= i < |events| ==> events[i].size <= most
    ensures Bytes(events) <= |events| * most
  {
    if events == [] {
    } else {
      FewSmallUploads(events[..|events| - 1], most);
      assert |events| * most == (|events| - 1) * most + most;
    }
  }

  lemma {:induction false} WithinIsSmall(history: seq<Upload>, start: int, end: int, most: nat)
    requires forall i :: 0 <= i < |history| ==> history[i].size <= most
    ensures forall i :: 0 <= i < |Within(history, start, end)| ==> Within(history, start, end)[i].size <= most
  {
    if history == [] {
    } else {
      WithinIsSmall(history[..|history| - 1], start, end, most);
    }
  }

  lemma {:induction false} HistoryIsSmall(admitted: seq<Request>, s: Scope, most: nat)
    requires SizesAtMost(admitted, most)
    ensures forall i :: 0 <= i < |HistoryOf(admitted, s)| ==> HistoryOf(admitted, s)[i].size <= most
  {
    if admitted == [] {
    } else {
      HistoryIsSmall(admitted[..|admitted| - 1], s, most);
    }
  }

  lemma {:induction false} AdmittedIsSmall(limits: Scope -> Limits, requests: seq<Request>, most: nat)
    requires SizesAtMost(requests, most)
    ensures SizesAtMost(Run(limits, requests).1, most)
  {
    if requests == [] {
    } else {
      AdmittedIsSmall(limits, requests[..|requests| - 1], most);
    }
  }

  /** The limits have room for so many bytes in a minute. */
  predicate HasRoom(limits: Limits, p: nat, most: nat) {
    && (limits.bph > 0 ==> p <= limits.bph)
    && (limits.rpm > 0 ==> p <= limits.rpm * most)
  }

  lemma MinuteHasRoom(history: seq<Upload>, limits: Limits, most: nat, start: int)
    requires Compliant(history, limits) && forall i :: 0 <= i < |history| ==> history[i].size <= most
    ensures HasRoom(limits, MinuteBytes(history, start), most)
  {
    CompliantWindow(history, limits, start);
    if limits.rpm > 0 {
      WithinIsSmall(history, start, start + MINUTE_SECONDS, most);
      FewUploadsFit(Within(history, start, start + MINUTE_SECONDS), limits.rpm, most);
    }
  }

  lemma FewUploadsFit(uploads: seq<Upload>, n: nat, most: nat)
    requires |uploads| <= n && forall i :: 0 <= i < |uploads| ==> uploads[i].size <= most
    ensures Bytes(uploads) <= n * most
  {
    FewSmallUploads(uploads, most);
    ProductGrows(|uploads|, n, most);
  }

  lemma ProductGrows(m: nat, n: nat, x: nat)
    requires m <= n
    ensures m * x <= n * x
  {
  }

  lemma {:induction false} WithinSplits(history: seq<Upload>, start: int, mid: int, end: int)
    requires start <= mid <= end
    ensures Bytes(Within(history, start, end)) == Bytes(Within(history, start, mid)) + Bytes(Within(history, mid, end))
  {
    if history == [] {
    } else {
      var before, u := history[..|history| - 1], history[|history| - 1];
      WithinSplits(before, start, mid, end);
      BytesAppend(Within(before, start, end), u);
      BytesAppend(Within(before, start, mid), u);
      BytesAppend(Within(before, mid, end), u);
    }
  }

  function MinuteBytes(history: seq<Upload>, start: int): nat {
    Bytes(Within(history, start, start + MINUTE_SECONDS))
  }

  /** The bytes of each of n minutes from start on. */
  function Minutes(history: seq<Upload>, start: int, n: nat): seq<nat> {
    if n == 0 then [] else Minutes(history, start, n - 1) + [MinuteBytes(history, start + (n - 1) * MINUTE_SECONDS)]
  }

  lemma {:induction false} MinutesCount(history: seq<Upload>, start: int, n: nat)
    ensures |Minutes(history, start, n)| == n
  {
    if n == 0 {
    } else {
      MinutesCount(history, start, n - 1);
    }
  }

  function Sum(x: seq<nat>): nat {
    if x == [] then 0 else Sum(x[..|x| - 1]) + x[|x| - 1]
  }

  lemma {:induction false} SumOfSmall(x: seq<nat>, p: nat)
    requires AtMost(x, p)
    ensures Sum(x) <= Times(|x|, p)
  {
    if x == [] {
    } else {
      SumOfSmall(x[..|x| - 1], p);
    }
  }

  lemma SumNext(x: seq<nat>, v: nat)
    ensures Sum(x + [v]) == Sum(x) + v
  {
    assert (x + [v])[..|x|] == x;
  }

  lemma {:induction false} MinutesAddUp(history: seq<Upload>, start: int, n: nat)
    ensures Bytes(Within(history, start, start + n * MINUTE_SECONDS)) == Sum(Minutes(history, start, n))
  {
    if n == 0 {
      NothingInside(history, start);
    } else {
      var mid, end := start + (n - 1) * MINUTE_SECONDS, start + n * MINUTE_SECONDS;
      MinutesAddUp(history, start, n - 1);
      WithinSplits(history, start, mid, end);
      SumNext(Minutes(history, start, n - 1), Bytes(Within(history, mid, end)));
    }
  }

  ghost predicate AtMost(x: seq<nat>, p: nat) {
    forall i :: 0 <= i < |x| ==> x[i] <= p
  }

  lemma AtMostNext(x: seq<nat>, v: nat, p: nat)
    requires AtMost(x, p) && v <= p
    ensures AtMost(x + [v], p)
  {
  }

  ghost predicate EveryMinute(history: seq<Upload>, p: nat) {
    forall t :: MinuteBytes(history, t) <= p
  }

  lemma {:induction false} MinutesHold(history: seq<Upload>, p: nat, start: int, n: nat)
    requires EveryMinute(history, p)
    ensures AtMost(Minutes(history, start, n), p)
  {
    if n == 0 {
    } else {
      MinutesHold(history, p, start, n - 1);
      AtMostNext(Minutes(history, start, n - 1), MinuteBytes(history, start + (n - 1) * MINUTE_SECONDS), p);
    }
  }

  lemma {:induction false} NothingInside(history: seq<Upload>, start: int)
    ensures Within(history, start, start) == []
  {
    if history == [] {
    } else {
      NothingInside(history[..|history| - 1], start);
    }
  }

  /** The bytes a scope gets through in the hour from start. */
  function HourBytes(limits: Scope -> Limits, requests: seq<Request>, s: Scope, start: int): nat {
    Bytes(Within(HistoryOf(Run(limits, requests).1, s), start, start + HOUR_SECONDS))
  }

  lemma MinutesHoldTogether(history: seq<Upload>, p: nat, start: int, n: nat)
    requires EveryMinute(history, p)
    ensures Bytes(Within(history, start, start + n * MINUTE_SECONDS)) <= n * p
  {
    MinutesAddUp(history, start, n);
    MinutesCount(history, start, n);
    MinutesHold(history, p, start, n);
    SumOfSmall(Minutes(history, start, n), p);
    TimesIsProduct(n, p);
  }

  lemma {:induction false} AdmittedHistory(limits: Scope -> Limits, requests: seq<Request>, most: nat, s: Scope)
    requires Ordered(requests) && SizesAtMost(requests, most)
    ensures var history := HistoryOf(Run(limits, requests).1, s);
            Compliant(history, limits(s)) && forall i :: 0 <= i < |history| ==> history[i].size <= most
  {
    RunKeepsInv(limits, requests, if requests == [] then 0 else requests[|requests| - 1].at, s);
    AdmittedIsSmall(limits, requests, most);
    HistoryIsSmall(Run(limits, requests).1, s, most);
  }

  /** In every run any hour holds at most sixty times what a minute can. */
  lemma {:induction false} HourHoldsSixtyMinutes(limits: Scope -> Limits, requests: seq<Request>, most: nat, s: Scope,
                                                 start: int)
    requires Ordered(requests) && SizesAtMost(requests, most) && limits(s).bph > 0
    ensures HourBytes(limits, requests, s, start) <= 60 * MinuteMaximum(limits(s), most)
  {
    var history := HistoryOf(Run(limits, requests).1, s);
    AdmittedHistory(limits, requests, most, s);
    forall t ensures MinuteBytes(history, t) <= MinuteMaximum(limits(s), most) {
      MinuteHasRoom(history, limits(s), most, t);
    }
    MinutesHoldTogether(history, MinuteMaximum(limits(s), most), start, 60);
  }

  // ----- an anonymous actor, whose uploads the shared limits hold down too -----

  lemma WithinAppend(history: seq<Upload>, u: Upload, start: int, end: int)
    ensures Within(history + [u], start, end)
         == if start <= u.at < end then Within(history, start, end) + [u] else Within(history, start, end)
  {
    assert (history + [u])[..|history|] == history;
  }

  /** What an actor got through, all anonymous actors together got through. */
  lemma {:induction false} ActorsShare(admitted: seq<Request>, key: string, start: int, end: int)
    ensures Bytes(Within(HistoryOf(admitted, Anonymous(key)), start, end))
         <= Bytes(Within(HistoryOf(admitted, GlobalAnonymous), start, end))
  {
    if admitted == [] {
    } else {
      var front, r := admitted[..|admitted| - 1], admitted[|admitted| - 1];
      var u := Upload(r.at, r.size);
      ActorsShare(front, key, start, end);
      HistoryOfFront(admitted, Anonymous(key));
      HistoryOfFront(admitted, GlobalAnonymous);
      ShareStep(HistoryOf(front, Anonymous(key)), u, start, end);
      ShareStep(HistoryOf(front, GlobalAnonymous), u, start, end);
    }
  }

  lemma ShareStep(history: seq<Upload>, u: Upload, start: int, end: int)
    ensures Bytes(Within(history + [u], start, end))
         == Bytes(Within(history, start, end)) + if start <= u.at < end then u.size else 0
  {
    WithinAppend(history, u, start, end);
    BytesAppend(Within(history, start, end), u);
  }

  /** The most bytes, but no more than p, that the limits have room for in a minute. */
  function Room(limits: Limits, most: nat, p: nat): (room: nat)
    ensures room <= p && HasRoom(limits, room, most)
    ensures forall q: nat :: q <= p && HasRoom(limits, q, most) ==> q <= room
  {
    var q := if limits.bph > 0 then Min(limits.bph, p) else p;
    if limits.rpm > 0 then Min(limits.rpm * most, q) else q
  }

  /** The most bytes that a user, or an anonymous actor, can get through in one minute. */
  function ScopeMaximum(limits: Scope -> Limits, s: Scope, most: nat): nat
    requires limits(s).bph > 0
  {
    var own := MinuteMaximum(limits(s), most);
    if s.Anonymous? then Room(limits(GlobalAnonymous), most, own) else own
  }

  lemma {:induction false} ScopeMinuteFits(limits: Scope -> Limits, requests: seq<Request>, most: nat, s: Scope, t: int)
    requires Ordered(requests) && SizesAtMost(requests, most)
    ensures HasRoom(limits(s), MinuteBytes(HistoryOf(Run(limits, requests).1, s), t), most)
  {
    AdmittedHistory(limits, requests, most, s);
    MinuteHasRoom(HistoryOf(Run(limits, requests).1, s), limits(s), most, t);
  }

  lemma ActorMinuteFits(admitted: seq<Request>, key: string, shared: Limits, most: nat, t: int)
    requires HasRoom(shared, MinuteBytes(HistoryOf(admitted, GlobalAnonymous), t), most)
    ensures HasRoom(shared, MinuteBytes(HistoryOf(admitted, Anonymous(key)), t), most)
  {
    ActorsShare(admitted, key, t, t + MINUTE_SECONDS);
    HasRoomForLess(shared, MinuteBytes(HistoryOf(admitted, GlobalAnonymous), t),
                   MinuteBytes(HistoryOf(admitted, Anonymous(key)), t), most);
  }

  lemma {:induction false} ScopeMinuteHolds(limits: Scope -> Limits, requests: seq<Request>, most: nat, s: Scope,
                                            t: int)
    requires Ordered(requests) && SizesAtMost(requests, most) && limits(s).bph > 0
    ensures MinuteBytes(HistoryOf(Run(limits, requests).1, s), t) <= ScopeMaximum(limits, s, most)
  {
    ScopeMinuteFits(limits, requests, most, s, t);
    if s.Anonymous? {
      ScopeMinuteFits(limits, requests, most, GlobalAnonymous, t);
      ActorMinuteFits(Run(limits, requests).1, s.key, limits(GlobalAnonymous), most, t);
    }
  }

  lemma HasRoomForLess(limits: Limits, p: nat, q: nat, most: nat)
    requires HasRoom(limits, p, most) && q <= p
    ensures HasRoom(limits, q, most)
  {
  }

  lemma {:induction false} ScopeHourHolds(limits: Scope -> Limits, requests: seq<Request>, most: nat, s: Scope,
                                          start: int)
    requires Ordered(requests) && SizesAtMost(requests, most) && limits(s).bph > 0
    ensures HourBytes(limits, requests, s, start) <= 60 * ScopeMaximum(limits, s, most)
  {
    forall t ensures MinuteBytes(HistoryOf(Run(limits, requests).1, s), t) <= ScopeMaximum(limits, s, most) {
      ScopeMinuteHolds(limits, requests, most, s, t);
    }
    MinutesHoldTogether(HistoryOf(Run(limits, requests).1, s), ScopeMaximum(limits, s, most), start, 60);
  }

  // ----- the worst hour -----

  /** Uploads of p bytes together, none larger than most. */
  function Packet(at: int, p: nat, most: nat): seq<Upload>
    requires most > 0
  {
    if p == 0 then [] else if p <= most then [Upload(at, p)] else Packet(at, p - most, most) + [Upload(at, most)]
  }

  /** At most n uploads at one time, none larger than most, of p bytes together. */
  ghost predicate IsPacket(part: seq<Upload>, at: int, p: nat, most: nat, n: nat) {
    && |part| <= n && Bytes(part) == p
    && forall i :: 0 <= i < |part| ==> part[i].at == at && part[i].size <= most
  }

  lemma PacketGrows(part: seq<Upload>, at: int, p: nat, size: nat, most: nat, n: nat)
    requires IsPacket(part, at, p, most, n) && size <= most
    ensures IsPacket(part + [Upload(at, size)], at, p + size, most, n + 1)
  {
    BytesAppend(part, Upload(at, size));
  }

  lemma PacketBegins(at: int, p: nat, most: nat)
    requires 0 < p <= most
    ensures Packet(at, p, most) == Packet(at, 0, most) + [Upload(at, p)]
  {
  }

  lemma {:induction false} PacketFacts(at: int, p: nat, most: nat, n: nat)
    requires most > 0 && p <= Times(n, most)
    ensures IsPacket(Packet(at, p, most), at, p, most, n)
  {
    if p == 0 {
    } else {
      var size := Min(p, most);
      OneFewer(p, most, n);
      PacketFacts(at, p - size, most, n - 1);
      PacketGrows(Packet(at, p - size, most), at, p - size, size, most, n - 1);
      if p <= most { PacketBegins(at, p, most); }
    }
  }

  lemma OneFewer(p: nat, most: nat, n: nat)
    requires 0 < p <= Times(n, most)
    ensures n >= 1 && p - Min(p, most) <= Times(n - 1, most)
  {
    TimesGrow(0, n - 1, most);
  }

  /** A packet of p bytes at the beginning of each of n minutes. */
  function Schedule(n: nat, p: nat, most: nat): seq<Upload>
    requires most > 0
  {
    if n == 0 then [] else Schedule(n - 1, p, most) + Packet((n - 1) * MINUTE_SECONDS, p, most)
  }

  /** What is not after the cutoff goes, what is stays. */
  lemma {:induction false} FreshOfSum(older: seq<Upload>, recent: seq<Upload>, cutoff: int)
    requires UpTo(older, cutoff) && (recent != [] ==> recent[0].at > cutoff)
    ensures Fresh(older + recent, cutoff) == recent
  {
    if older == [] {
      assert older + recent == recent;
    } else {
      assert (older + recent)[1..] == older[1..] + recent;
      FreshOfSum(older[1..], recent, cutoff);
    }
  }

  /** The limits allow a packet of at most n uploads and p bytes. */
  ghost predicate Allow(limits: Limits, p: nat, n: nat) {
    (limits.bph > 0 ==> p <= limits.bph) && (limits.rpm > 0 ==> n <= limits.rpm)
  }

  lemma {:induction false} PacketCompliant(earlier: seq<Upload>, at: int, p: nat, most: nat, n: nat, limits: Limits)
    requires most > 0 && Compliant(earlier, limits) && UpTo(earlier, at - MINUTE_SECONDS)
    requires p <= Times(n, most) && Allow(limits, p, n)
    ensures Compliant(earlier + Packet(at, p, most), limits)
    decreases p
  {
    if p == 0 {
      NoPacket(earlier, at, most);
    } else {
      OneFewer(p, most, n);
      PacketCompliant(earlier, at, p - Min(p, most), most, n - 1, limits);
      PacketNext(earlier, at, p, Min(p, most), most, n - 1, limits);
    }
  }

  lemma NoPacket(earlier: seq<Upload>, at: int, most: nat)
    requires most > 0
    ensures earlier + Packet(at, 0, most) == earlier
  {
  }

  lemma PacketNext(earlier: seq<Upload>, at: int, p: nat, size: nat, most: nat, n: nat, limits: Limits)
    requires most > 0 && 0 < p && size == Min(p, most) && p - size <= Times(n, most)
    requires UpTo(earlier, at - MINUTE_SECONDS) && Compliant(earlier + Packet(at, p - size, most), limits)
    requires Allow(limits, p, n + 1)
    ensures Compliant(earlier + Packet(at, p, most), limits)
  {
    PacketFacts(at, p - size, most, n);
    OneMore(earlier, Packet(at, p - size, most), at, p - size, size, most, n, limits);
    if p <= most { PacketBegins(at, p, most); }
  }

  /** One more upload of a packet. */
  lemma OneMore(earlier: seq<Upload>, part: seq<Upload>, at: int, p: nat, size: nat, most: nat, n: nat, limits: Limits)
    requires UpTo(earlier, at - MINUTE_SECONDS) && Compliant(earlier + part, limits)
    requires IsPacket(part, at, p, most, n) && Allow(limits, p + size, n + 1)
    ensures Compliant(earlier + (part + [Upload(at, size)]), limits)
  {
    FreshOfSum(earlier, part, at - MINUTE_SECONDS);
    CompliantAppend(earlier + part, Upload(at, size), limits);
    assert earlier + (part + [Upload(at, size)]) == (earlier + part) + [Upload(at, size)];
  }

  lemma CompliantAppend(history: seq<Upload>, u: Upload, limits: Limits)
    requires Compliant(history, limits) && UpTo(history, u.at)
    requires Judge(Fresh(history, u.at - MINUTE_SECONDS), limits, u.size) == Allowed
    ensures Compliant(history + [u], limits)
  {
    assert (history + [u])[..|history|] == history;
  }

  /** The most uploads a packet needs, or may have. */
  function PacketLimit(limits: Limits, p: nat): nat {
    if limits.rpm > 0 then limits.rpm else p
  }

  lemma {:induction false} ManyFit(p: nat, most: nat)
    requires most > 0
    ensures p <= Times(p, most)
  {
    if p == 0 {
    } else {
      ManyFit(p - 1, most);
    }
  }

  lemma PacketFits(p: nat, most: nat, limits: Limits)
    requires most > 0 && HasRoom(limits, p, most)
    ensures p <= Times(PacketLimit(limits, p), most)
  {
    ManyFit(p, most);
    TimesIsProduct(PacketLimit(limits, p), most);
  }

  lemma {:induction false} ScheduleTimes(n: nat, p: nat, most: nat)
    requires most > 0
    ensures UpTo(Schedule(n, p, most), (n - 1) * MINUTE_SECONDS)
    ensures forall i :: 0 <= i < |Schedule(n, p, most)| ==>
              0 <= Schedule(n, p, most)[i].at && Schedule(n, p, most)[i].size <= most
  {
    if n == 0 {
    } else {
      ScheduleTimes(n - 1, p, most);
      ManyFit(p, most);
      PacketFacts((n - 1) * MINUTE_SECONDS, p, most, p);
    }
  }

  lemma PacketBytes(at: int, p: nat, most: nat)
    requires most > 0
    ensures Bytes(Packet(at, p, most)) == p
  {
    ManyFit(p, most);
    PacketFacts(at, p, most, p);
  }

  lemma {:induction false} ScheduleBytes(n: nat, p: nat, most: nat)
    requires most > 0
    ensures Bytes(Schedule(n, p, most)) == Times(n, p)
  {
    if n == 0 {
    } else {
      ScheduleBytes(n - 1, p, most);
      PacketBytes((n - 1) * MINUTE_SECONDS, p, most);
      BytesOfSum(Schedule(n - 1, p, most), Packet((n - 1) * MINUTE_SECONDS, p, most));
    }
  }

  lemma {:induction false} ScheduleCompliant(n: nat, p: nat, most: nat, limits: Limits)
    requires most > 0 && HasRoom(limits, p, most)
    ensures Compliant(Schedule(n, p, most), limits)
  {
    if n == 0 {
    } else {
      ScheduleCompliant(n - 1, p, most, limits);
      ScheduleTimes(n - 1, p, most);
      PacketFits(p, most, limits);
      PacketCompliant(Schedule(n - 1, p, most), (n - 1) * MINUTE_SECONDS, p, most, PacketLimit(limits, p), limits);
    }
  }

  lemma {:induction false} BytesOfSum(a: seq<Upload>, b: seq<Upload>)
    ensures Bytes(a + b) == Bytes(a) + Bytes(b)
  {
    if b == [] {
      assert a + b == a;
    } else {
      assert (a + b)[..|a + b| - 1] == a + b[..|b| - 1];
      BytesOfSum(a, b[..|b| - 1]);
    }
  }

  /** The uploads, asked for in one scope. */
  function Requests(uploads: seq<Upload>, s: Scope): (r: seq<Request>)
    ensures |r| == |uploads| && forall i :: 0 <= i < |r| ==> r[i] == Request(s, uploads[i].at, uploads[i].size)
  {
    seq(|uploads|, i requires 0 <= i < |uploads| => Request(s, uploads[i].at, uploads[i].size))
  }

  lemma {:induction false} HistoryOfRequests(uploads: seq<Upload>, s: Scope, t: Scope)
    ensures HistoryOf(Requests(uploads, s), t)
         == if t == s || (s.Anonymous? && t == GlobalAnonymous) then uploads else []
  {
    if uploads == [] {
    } else {
      var front, u := uploads[..|uploads| - 1], uploads[|uploads| - 1];
      HistoryOfRequests(front, s, t);
      assert Requests(uploads, s)[..|uploads| - 1] == Requests(front, s);
      HistoryOfFront(Requests(uploads, s), t);
      assert front + [u] == uploads;
    }
  }

  lemma {:induction false} CompliantInOrder(history: seq<Upload>, limits: Limits, i: nat, j: nat)
    requires Compliant(history, limits) && i <= j < |history|
    ensures history[i].at <= history[j].at
  {
    if j < |history| - 1 { CompliantInOrder(history[..|history| - 1], limits, i, j); }
  }

  lemma {:induction false} AllWithin(history: seq<Upload>, start: int, end: int)
    requires forall i :: 0 <= i < |history| ==> start <= history[i].at < end
    ensures Within(history, start, end) == history
  {
    if history == [] {
    } else {
      AllWithin(history[..|history| - 1], start, end);
    }
  }

  lemma {:induction false} RequestsOrdered(uploads: seq<Upload>, s: Scope, limits: Limits)
    requires Compliant(uploads, limits) && s != GlobalAnonymous
    ensures Ordered(Requests(uploads, s))
  {
    forall i, j | 0 <= i < j < |uploads| ensures uploads[i].at <= uploads[j].at {
      CompliantInOrder(uploads, limits, i, j);
    }
  }

  lemma {:induction false} RequestsCompliant(limits: Scope -> Limits, uploads: seq<Upload>, s: Scope)
    requires Compliant(uploads, limits(s)) && (s.Anonymous? ==> Compliant(uploads, limits(GlobalAnonymous)))
    ensures AllCompliant(limits, Requests(uploads, s))
  {
    forall t ensures Compliant(HistoryOf(Requests(uploads, s), t), limits(t)) {
      HistoryOfRequests(uploads, s, t);
    }
  }

  /** What a compliant run gets through is all that was asked for. */
  lemma {:induction false} WholeHour(limits: Scope -> Limits, requests: seq<Request>, s: Scope, uploads: seq<Upload>)
    requires Ordered(requests) && AllCompliant(limits, requests) && HistoryOf(requests, s) == uploads
    requires forall i :: 0 <= i < |uploads| ==> 0 <= uploads[i].at < HOUR_SECONDS
    ensures HourBytes(limits, requests, s, 0) == Bytes(uploads)
  {
    AdmittedWholeIffCompliant(limits, requests);
    AllWithin(uploads, 0, HOUR_SECONDS);
  }

  lemma ScheduleInHour(n: nat, p: nat, most: nat)
    requires most > 0 && n * MINUTE_SECONDS <= HOUR_SECONDS
    ensures forall i :: 0 <= i < |Schedule(n, p, most)| ==>
              0 <= Schedule(n, p, most)[i].at < HOUR_SECONDS && Schedule(n, p, most)[i].size <= most
    ensures Bytes(Schedule(n, p, most)) == n * p
  {
    ScheduleTimes(n, p, most);
    ScheduleBytes(n, p, most);
    TimesIsProduct(n, p);
  }

  /** Requests for uploads that are all allowed, made in one scope. */
  lemma {:induction false} AskForAll(limits: Scope -> Limits, s: Scope, uploads: seq<Upload>)
    returns (requests: seq<Request>)
    requires s != GlobalAnonymous && Compliant(uploads, limits(s))
    requires s.Anonymous? ==> Compliant(uploads, limits(GlobalAnonymous))
    requires forall i :: 0 <= i < |uploads| ==> 0 <= uploads[i].at < HOUR_SECONDS
    ensures requests == Requests(uploads, s) && Ordered(requests)
    ensures HourBytes(limits, requests, s, 0) == Bytes(uploads)
  {
    requests := Requests(uploads, s);
    RequestsOrdered(uploads, s, limits(s));
    RequestsCompliant(limits, uploads, s);
    HistoryOfRequests(uploads, s, s);
    WholeHour(limits, requests, s, uploads);
  }

  lemma {:induction false} Packets(limits: Scope -> Limits, s: Scope, p: nat, most: nat, n: nat)
    returns (requests: seq<Request>)
    requires most > 0 && s != GlobalAnonymous && HasRoom(limits(s), p, most) && n * MINUTE_SECONDS <= HOUR_SECONDS
    requires s.Anonymous? ==> HasRoom(limits(GlobalAnonymous), p, most)
    ensures Ordered(requests) && SizesAtMost(requests, most)
    ensures HourBytes(limits, requests, s, 0) == n * p
  {
    var uploads := Schedule(n, p, most);
    ScheduleInHour(n, p, most);
    ScheduleCompliant(n, p, most, limits(s));
    if s.Anonymous? { ScheduleCompliant(n, p, most, limits(GlobalAnonymous)); }
    requests := AskForAll(limits, s, uploads);
  }

  /** A scope whose limits, and for an anonymous actor the shared ones, have room for p bytes in a minute gets sixty
      times as many through in an hour, by uploads that are never larger than most. */
  lemma {:induction false} SixtyPackets(limits: Scope -> Limits, s: Scope, p: nat, most: nat)
    returns (requests: seq<Request>)
    requires most > 0 && s != GlobalAnonymous && HasRoom(limits(s), p, most)
    requires s.Anonymous? ==> HasRoom(limits(GlobalAnonymous), p, most)
    ensures Ordered(requests) && SizesAtMost(requests, most)
    ensures HourBytes(limits, requests, s, 0) == 60 * p
  {
    requests := Packets(limits, s, p, most, 60);
  }

  /** The bytes limit does not hold for the hour it is named after, because the deque summed has been pruned to one
      minute. Sixty times what a minute can hold is the most, and is reached, by uploads of any size allowed. */
  lemma {:induction false} HourlyBytesAreNotBounded(limits: Scope -> Limits, s: Scope, most: nat)
    returns (requests: seq<Request>)
    requires limits(s).bph > 0 && most > 0 && s != GlobalAnonymous
    ensures Ordered(requests) && SizesAtMost(requests, most)
    ensures HourBytes(limits, requests, s, 0) == 60 * ScopeMaximum(limits, s, most)
  {
    HasRoomForLess(limits(s), MinuteMaximum(limits(s), most), ScopeMaximum(limits, s, most), most);
    requests := SixtyPackets(limits, s, ScopeMaximum(limits, s, most), most);
  }

  ghost predicate HourlyLimitHolds(limits: Scope -> Limits, s: Scope, most: nat) {
    forall requests, start :: Ordered(requests) && SizesAtMost(requests, most) ==>
      HourBytes(limits, requests, s, start) <= limits(s).bph
  }

  /** Sixty minutes of so many requests keep a number of bytes. */
  predicate RequestsKeep(limits: Limits, most: nat, bytes: int) {
    limits.rpm > 0 && 60 * (limits.rpm * most) <= bytes
  }

  /** When the hourly limit of a user or an anonymous actor holds in every run: exactly when the request limit alone
      already keeps it, or, for an actor, one of the shared limits does. */
  lemma {:induction false} HourlyLimitHoldsIff(limits: Scope -> Limits, s: Scope, most: nat)
    requires limits(s).bph > 0 && most > 0 && s != GlobalAnonymous
    ensures HourlyLimitHolds(limits, s, most) <==>
      var bytes, shared := limits(s).bph, limits(GlobalAnonymous);
      || RequestsKeep(limits(s), most, bytes)
      || (s.Anonymous? && (RequestsKeep(shared, most, bytes) || 0 < 60 * shared.bph <= bytes))
  {
    if 60 * ScopeMaximum(limits, s, most) <= limits(s).bph {
      forall requests, start | Ordered(requests) && SizesAtMost(requests, most)
        ensures HourBytes(limits, requests, s, start) <= limits(s).bph
      {
        ScopeHourHolds(limits, requests, most, s, start);
      }
    } else {
      var requests := HourlyBytesAreNotBounded(limits, s, most);
      assert HourBytes(limits, requests, s, 0) > limits(s).bph;
    }
  }

  // ----- all anonymous uploads together -----

  /** The same limits for every anonymous actor, as the configuration gives them. */
  ghost predicate SameForActors(limits: Scope -> Limits, actor: Limits) {
    forall key :: limits(Anonymous(key)) == actor
  }

  /** No upload of an actor is larger than its own bytes limit, if it has one. */
  function LargestUpload(actor: Limits, most: nat): nat {
    if actor.bph > 0 then Min(most, actor.bph) else most
  }

  lemma {:induction false} ActorsSend(limits: Scope -> Limits, actor: Limits, requests: seq<Request>, most: nat)
    requires SameForActors(limits, actor) && Ordered(requests) && SizesAtMost(requests, most)
    ensures forall i :: 0 <= i < |Run(limits, requests).1| && Run(limits, requests).1[i].scope.Anonymous? ==>
              Run(limits, requests).1[i].size <= LargestUpload(actor, most)
  {
    if requests == [] {
    } else {
      var front, r := requests[..|requests| - 1], requests[|requests| - 1];
      ActorsSend(limits, actor, front, most);
      if r.scope.Anonymous? { assert limits(r.scope) == actor by { assert r.scope == Anonymous(r.scope.key); } }
    }
  }

  lemma {:induction false} SharedIsSmall(admitted: seq<Request>, largest: nat)
    requires forall i :: 0 <= i < |admitted| && admitted[i].scope.Anonymous? ==> admitted[i].size <= largest
    requires forall i :: 0 <= i < |admitted| ==> admitted[i].scope != GlobalAnonymous
    ensures forall i :: 0 <= i < |HistoryOf(admitted, GlobalAnonymous)| ==>
              HistoryOf(admitted, GlobalAnonymous)[i].size <= largest
  {
    if admitted == [] {
    } else {
      SharedIsSmall(admitted[..|admitted| - 1], largest);
    }
  }

  lemma {:induction false} NoSharedScope(limits: Scope -> Limits, requests: seq<Request>)
    requires Ordered(requests)
    ensures forall i :: 0 <= i < |Run(limits, requests).1| ==> Run(limits, requests).1[i].scope != GlobalAnonymous
  {
    if requests == [] {
    } else {
      NoSharedScope(limits, requests[..|requests| - 1]);
    }
  }

  lemma {:induction false} SharedHourHolds(limits: Scope -> Limits, actor: Limits, requests: seq<Request>, most: nat,
                                           start: int)
    requires SameForActors(limits, actor) && Ordered(requests) && SizesAtMost(requests, most)
    requires limits(GlobalAnonymous).bph > 0
    ensures HourBytes(limits, requests, GlobalAnonymous, start)
         <= 60 * MinuteMaximum(limits(GlobalAnonymous), LargestUpload(actor, most))
  {
    var largest := LargestUpload(actor, most);
    var history := HistoryOf(Run(limits, requests).1, GlobalAnonymous);
    ActorsSend(limits, actor, requests, most);
    NoSharedScope(limits, requests);
    SharedIsSmall(Run(limits, requests).1, largest);
    AdmittedHistory(limits, requests, most, GlobalAnonymous);
    forall t ensures MinuteBytes(history, t) <= MinuteMaximum(limits(GlobalAnonymous), largest) {
      MinuteHasRoom(history, limits(GlobalAnonymous), largest, t);
    }
    MinutesHoldTogether(history, MinuteMaximum(limits(GlobalAnonymous), largest), start, 60);
  }

  /** The uploads, each asked for by an actor of its own. */
  function Spread(uploads: seq<Upload>): (r: seq<Request>)
    ensures |r| == |uploads|
    ensures forall i :: 0 <= i < |r| ==> r[i] == Request(Anonymous(Decimal(i)), uploads[i].at, uploads[i].size)
  {
    seq(|uploads|, i requires 0 <= i < |uploads| => Request(Anonymous(Decimal(i)), uploads[i].at, uploads[i].size))
  }

  lemma {:induction false} SpreadShared(uploads: seq<Upload>)
    ensures HistoryOf(Spread(uploads), GlobalAnonymous) == uploads
  {
    if uploads == [] {
    } else {
      var n := |uploads| - 1;
      SpreadShared(uploads[..n]);
      assert Spread(uploads)[..n] == Spread(uploads[..n]);
      HistoryOfFront(Spread(uploads), GlobalAnonymous);
      assert uploads[..n] + [uploads[n]] == uploads;
    }
  }

  /** Nobody is charged for two of them. */
  lemma {:induction false} SpreadOnce(uploads: seq<Upload>, s: Scope, largest: nat)
    requires s != GlobalAnonymous && forall i :: 0 <= i < |uploads| ==> uploads[i].size <= largest
    ensures var h := HistoryOf(Spread(uploads), s);
            && |h| <= 1 && (h != [] ==> h[0].size <= largest)
            && (h != [] ==> exists i: nat :: i < |uploads| && s == Anonymous(Decimal(i)))
  {
    if uploads == [] {
    } else {
      var n := |uploads| - 1;
      SpreadOnce(uploads[..n], s, largest);
      assert Spread(uploads)[..n] == Spread(uploads[..n]);
      HistoryOfFront(Spread(uploads), s);
      var front := HistoryOf(Spread(uploads[..n]), s);
      if s == Anonymous(Decimal(n)) && front != [] {
        var i: nat :| i < n && s == Anonymous(Decimal(i));
        DecimalIsInjective(i, n);
        assert false;
      }
    }
  }

  lemma {:induction false} OneIsCompliant(history: seq<Upload>, actor: Limits)
    requires |history| <= 1 && (history != [] && actor.bph > 0 ==> history[0].size <= actor.bph)
    ensures Compliant(history, actor)
  {
    if history != [] {
      var u := history[0];
      assert history[..|history| - 1] == [];
      assert Compliant([], actor) && UpTo([], u.at) && Fresh([], u.at - MINUTE_SECONDS) == [] && Bytes([]) == 0;
      assert Judge([], actor, u.size) == Allowed;
    }
  }

  lemma {:induction false} SpreadCompliant(limits: Scope -> Limits, actor: Limits, uploads: seq<Upload>, most: nat)
    requires SameForActors(limits, actor) && Compliant(uploads, limits(GlobalAnonymous))
    requires forall i :: 0 <= i < |uploads| ==> uploads[i].size <= LargestUpload(actor, most)
    ensures AllCompliant(limits, Spread(uploads))
  {
    forall s ensures Compliant(HistoryOf(Spread(uploads), s), limits(s)) {
      if s == GlobalAnonymous {
        SpreadShared(uploads);
      } else {
        SpreadOnce(uploads, s, LargestUpload(actor, most));
        if HistoryOf(Spread(uploads), s) != [] { OneIsCompliant(HistoryOf(Spread(uploads), s), actor); }
      }
    }
  }

  lemma {:induction false} SpreadOrdered(uploads: seq<Upload>, limits: Limits)
    requires Compliant(uploads, limits)
    ensures Ordered(Spread(uploads))
  {
    forall i, j | 0 <= i < j < |uploads| ensures uploads[i].at <= uploads[j].at {
      CompliantInOrder(uploads, limits, i, j);
    }
  }

  /** Requests of as many actors for uploads that the shared limits allow. */
  lemma {:induction false} ActorsAsk(limits: Scope -> Limits, actor: Limits, uploads: seq<Upload>, most: nat)
    returns (requests: seq<Request>)
    requires SameForActors(limits, actor) && Compliant(uploads, limits(GlobalAnonymous))
    requires forall i :: 0 <= i < |uploads| ==>
               0 <= uploads[i].at < HOUR_SECONDS && uploads[i].size <= LargestUpload(actor, most)
    ensures requests == Spread(uploads) && Ordered(requests)
    ensures HourBytes(limits, requests, GlobalAnonymous, 0) == Bytes(uploads)
  {
    requests := Spread(uploads);
    SpreadOrdered(uploads, limits(GlobalAnonymous));
    SpreadCompliant(limits, actor, uploads, most);
    SpreadShared(uploads);
    WholeHour(limits, requests, GlobalAnonymous, uploads);
  }

  lemma {:induction false} SharedPackets(limits: Scope -> Limits, actor: Limits, p: nat, most: nat, largest: nat,
                                         n: nat)
    returns (requests: seq<Request>)
    requires SameForActors(limits, actor) && n * MINUTE_SECONDS <= HOUR_SECONDS
    requires 0 < largest == LargestUpload(actor, most) && HasRoom(limits(GlobalAnonymous), p, largest)
    ensures Ordered(requests) && SizesAtMost(requests, largest)
    ensures HourBytes(limits, requests, GlobalAnonymous, 0) == n * p
  {
    ScheduleInHour(n, p, largest);
    ScheduleCompliant(n, p, largest, limits(GlobalAnonymous));
    requests := ActorsAsk(limits, actor, Schedule(n, p, largest), most);
  }

  /** When the hourly limit of all anonymous uploads together holds in every run: exactly when the shared request limit
      alone already keeps it, with uploads as large as one actor may send. */
  lemma {:induction false} SharedHourlyLimitHoldsIff(limits: Scope -> Limits, actor: Limits, most: nat)
    requires SameForActors(limits, actor) && limits(GlobalAnonymous).bph > 0 && most > 0
    ensures HourlyLimitHolds(limits, GlobalAnonymous, most) <==>
      RequestsKeep(limits(GlobalAnonymous), LargestUpload(actor, most), limits(GlobalAnonymous).bph)
  {
    var shared, largest := limits(GlobalAnonymous), LargestUpload(actor, most);
    if RequestsKeep(shared, largest, shared.bph) {
      forall requests, start | Ordered(requests) && SizesAtMost(requests, most)
        ensures HourBytes(limits, requests, GlobalAnonymous, start) <= shared.bph
      {
        SharedHourHolds(limits, actor, requests, most, start);
      }
    } else {
      var requests := SharedPackets(limits, actor, MinuteMaximum(shared, largest), most, largest, 60);
      assert HourBytes(limits, requests, GlobalAnonymous, 0) > shared.bph;
    }
  }
}
