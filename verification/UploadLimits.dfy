/**
 * In-memory upload limits: one sliding window of (time, size) per authenticated user, per anonymous
 * actor, and one for all anonymous uploads together. One call is one atomic step.
 */
module UploadLimits {
  import opened Basics

  datatype Upload = Upload(at: int, size: nat)

  const HOUR_SECONDS := 3600

  /** The deque after dropping its front while the front is not after the cutoff. */
  function Fresh(events: seq<Upload>, cutoff: int): seq<Upload> {
    if events != [] && events[0].at <= cutoff then Fresh(events[1..], cutoff) else events
  }

  function Bytes(events: seq<Upload>): nat {
    if events == [] then 0 else Bytes(events[..|events| - 1]) + events[|events| - 1].size
  }

  datatype Limits = Limits(rpm: int, bph: int)

  datatype Verdict = Allowed | RateExceeded | BandwidthExceeded

  /** The verdict on the events of the last minute. */
  function Judge(recent: seq<Upload>, limits: Limits, size: nat): Verdict {
    if limits.rpm > 0 && |recent| >= limits.rpm then RateExceeded
    else if limits.bph > 0 && Bytes(recent) + size > limits.bph then BandwidthExceeded
    else Allowed
  }

  lemma {:induction false} FreshTwice(events: seq<Upload>, older: int, cutoff: int)
    requires older <= cutoff
    ensures Fresh(Fresh(events, older), cutoff) == Fresh(events, cutoff)
    ensures Fresh(Fresh(events, cutoff), older) == Fresh(events, cutoff)
  {
    if events != [] && events[0].at <= cutoff { FreshTwice(events[1..], older, cutoff); }
  }

  class WindowCounter {
    var events: seq<Upload>

    constructor ()
      ensures events == []
    {
      events := [];
    }

    method Prune(now: int, windowSeconds: int)
      modifies this
      ensures events == Fresh(old(events), now - windowSeconds)
    {
      var cutoff := now - windowSeconds;
      while events != [] && events[0].at <= cutoff
        invariant Fresh(events, cutoff) == Fresh(old(events), cutoff)
        decreases |events|
      {
        events := events[1..];
      }
    }

    method Count(now: int, windowSeconds: int) returns (n: nat)
      modifies this
      ensures events == Fresh(old(events), now - windowSeconds) && n == |events|
    {
      Prune(now, windowSeconds);
      n := |events|;
    }

    method BytesUsed(now: int, windowSeconds: int) returns (total: nat)
      modifies this
      ensures events == Fresh(old(events), now - windowSeconds) && total == Bytes(events)
    {
      Prune(now, windowSeconds);
      total := 0;
      for i := 0 to |events|
        invariant total == Bytes(events[..i])
      {
        assert events[..i + 1][..i] == events[..i];
        total := total + events[i].size;
      }
      assert events[..|events|] == events;
    }

    method Add(now: int, size: nat)
      modifies this
      ensures events == old(events) + [Upload(now, size)]
    {
      events := events + [Upload(now, size)];
    }
  }

  /** The window a counter keeps: of a user, of an anonymous actor, or of all anonymous uploads. */
  datatype Scope = User(key: string) | Anonymous(key: string) | GlobalAnonymous

  class InMemoryRateLimiter {
    var anonWindows: map<string, WindowCounter>
    var userWindows: map<string, WindowCounter>
    const globalAnon: WindowCounter

    /** No two scopes share a counter. */
    ghost predicate Valid()
      reads this
    {
      && (forall a, b :: a in anonWindows && b in anonWindows && anonWindows[a] == anonWindows[b] ==> a == b)
      && (forall a, b :: a in userWindows && b in userWindows && userWindows[a] == userWindows[b] ==> a == b)
      && (forall a, b :: a in anonWindows && b in userWindows ==> anonWindows[a] != userWindows[b])
      && globalAnon !in anonWindows.Values && globalAnon !in userWindows.Values
    }

    ghost function Window(s: Scope): seq<Upload>
      reads this, anonWindows.Values, userWindows.Values, globalAnon
    {
      match s
      case User(key) => if key in userWindows then userWindows[key].events else []
      case Anonymous(key) => if key in anonWindows then anonWindows[key].events else []
      case GlobalAnonymous => globalAnon.events
    }

    constructor ()
      ensures Valid() && forall s :: Window(s) == []
    {
      anonWindows, userWindows := map[], map[];
      globalAnon := new WindowCounter();
    }

    /** Counts the last minute, then sums the last hour of the deque just pruned to that minute. */
    method EnforceCounter(counter: WindowCounter, now: int, limits: Limits, size: nat) returns (verdict: Verdict)
      modifies counter
      ensures counter.events == Fresh(old(counter.events), now - MINUTE_SECONDS)
      ensures verdict == Judge(counter.events, limits, size)
    {
      FreshTwice(counter.events, now - HOUR_SECONDS, now - MINUTE_SECONDS);
      var requests := counter.Count(now, MINUTE_SECONDS);
      if limits.rpm > 0 && requests >= limits.rpm { return RateExceeded; }
      var used := counter.BytesUsed(now, HOUR_SECONDS);
      if limits.bph > 0 && used + size > limits.bph { return BandwidthExceeded; }
      return Allowed;
    }

    method EnforceUserUpload(key: string, now: int, size: nat, limits: Limits) returns (verdict: Verdict)
      requires Valid()
      modifies this`userWindows, userWindows.Values
      ensures Valid()
      ensures var recent := Fresh(old(Window(User(key))), now - MINUTE_SECONDS);
        && verdict == Judge(recent, limits, size)
        && Window(User(key)) == (if verdict == Allowed then recent + [Upload(now, size)] else recent)
      ensures forall s :: s != User(key) ==> Window(s) == old(Window(s))
    {
      if key !in userWindows {
        var window := new WindowCounter();
        userWindows := userWindows[key := window];
      }
      var counter := userWindows[key];
      verdict := EnforceCounter(counter, now, limits, size);
      if verdict != Allowed { return; }
      counter.Add(now, size);
    }

    /** The actor's window is checked first; the shared window is looked at only if that allows. */
    method EnforceAnonymousUpload(key: string, now: int, size: nat, limits: Limits, globalLimits: Limits)
      returns (verdict: Verdict)
      requires Valid()
      modifies this`anonWindows, anonWindows.Values, globalAnon
      ensures Valid()
      ensures var recent := Fresh(old(Window(Anonymous(key))), now - MINUTE_SECONDS);
        var shared := Fresh(old(Window(GlobalAnonymous)), now - MINUTE_SECONDS);
        var own := Judge(recent, limits, size);
        && verdict == (if own != Allowed then own else Judge(shared, globalLimits, size))
        && Window(Anonymous(key)) == (if verdict == Allowed then recent + [Upload(now, size)] else recent)
        && Window(GlobalAnonymous) == (if own != Allowed then old(Window(GlobalAnonymous))
                                       else if verdict == Allowed then shared + [Upload(now, size)] else shared)
      ensures forall s :: s != Anonymous(key) && s != GlobalAnonymous ==> Window(s) == old(Window(s))
    {
      if key !in anonWindows {
        var window := new WindowCounter();
        anonWindows := anonWindows[key := window];
      }
      var counter := anonWindows[key];
      verdict := EnforceCounter(counter, now, limits, size);
      if verdict != Allowed { return; }
      verdict := EnforceCounter(globalAnon, now, globalLimits, size);
      if verdict != Allowed { return; }
      counter.Add(now, size);
      globalAnon.Add(now, size);
    }
  }

  // ----- runs over every scope -----

  /** A request of a user or of an anonymous actor. */
  datatype Request = Request(scope: Scope, at: int, size: nat)

  type Windows = map<Scope, seq<Upload>>

  function At(w: Windows, s: Scope): seq<Upload> {
    if s in w then w[s] else []
  }

  /** The scopes an admitted request is charged to. */
  predicate Charges(r: Request, s: Scope) {
    s == r.scope || (r.scope.Anonymous? && s == GlobalAnonymous)
  }

  /** What one call does to the windows, as the two methods state it. */
  function Serve(limits: Scope -> Limits, w: Windows, r: Request): (Windows, Verdict) {
    var cutoff := r.at - MINUTE_SECONDS;
    var recent := Fresh(At(w, r.scope), cutoff);
    var shared := Fresh(At(w, GlobalAnonymous), cutoff);
    var own := Judge(recent, limits(r.scope), r.size);
    var upload := Upload(r.at, r.size);
    if own != Allowed then (w[r.scope := recent], own)
    else if !r.scope.Anonymous? then (w[r.scope := recent + [upload]], Allowed)
    else
      var all := Judge(shared, limits(GlobalAnonymous), r.size);
      if all != Allowed then (w[r.scope := recent][GlobalAnonymous := shared], all)
      else (w[r.scope := recent + [upload]][GlobalAnonymous := shared + [upload]], Allowed)
  }

  /** The windows after the requests, and the requests admitted. */
  function Run(limits: Scope -> Limits, requests: seq<Request>): (Windows, seq<Request>) {
    if requests == [] then (map[], [])
    else
      var (w, admitted) := Run(limits, requests[..|requests| - 1]);
      var r := requests[|requests| - 1];
      var (w', verdict) := Serve(limits, w, r);
      (w', if verdict == Allowed then admitted + [r] else admitted)
  }

  ghost predicate Ordered(requests: seq<Request>) {
    && (forall i, j :: 0 <= i < j < |requests| ==> requests[i].at <= requests[j].at)
    && (forall i :: 0 <= i < |requests| ==> requests[i].scope != GlobalAnonymous)
  }

  /** Everything ever admitted that a scope is charged for. */
  function HistoryOf(admitted: seq<Request>, s: Scope): seq<Upload> {
    if admitted == [] then []
    else
      var earlier, r := HistoryOf(admitted[..|admitted| - 1], s), admitted[|admitted| - 1];
      if Charges(r, s) then earlier + [Upload(r.at, r.size)] else earlier
  }

  ghost predicate UpTo(history: seq<Upload>, time: int) {
    forall i :: 0 <= i < |history| ==> history[i].at <= time
  }

  /** In order of time, each upload was allowed by the uploads of the minute before it. */
  ghost predicate Compliant(history: seq<Upload>, limits: Limits) {
    history == [] ||
    (var before, u := history[..|history| - 1], history[|history| - 1];
     && Compliant(before, limits) && UpTo(before, u.at)
     && Judge(Fresh(before, u.at - MINUTE_SECONDS), limits, u.size) == Allowed)
  }

  lemma {:induction false} FreshKeepsNewest(events: seq<Upload>, cutoff: int, u: Upload)
    requires cutoff < u.at
    ensures Fresh(events + [u], cutoff) == Fresh(events, cutoff) + [u]
  {
    if events != [] && events[0].at <= cutoff {
      assert (events + [u])[1..] == events[1..] + [u];
      FreshKeepsNewest(events[1..], cutoff, u);
    }
  }

  /** A window agrees with its whole history on everything after the cutoff. */
  ghost predicate Agrees(window: seq<Upload>, history: seq<Upload>, cutoff: int) {
    Fresh(window, cutoff) == Fresh(history, cutoff)
  }

  lemma AgreesLater(window: seq<Upload>, history: seq<Upload>, older: int, cutoff: int)
    requires Agrees(window, history, older) && older <= cutoff
    ensures Agrees(window, history, cutoff) && Agrees(Fresh(window, cutoff), history, cutoff)
  {
    FreshTwice(window, older, cutoff);
    FreshTwice(history, older, cutoff);
    FreshTwice(window, cutoff, cutoff);
  }

  lemma AgreesAppend(window: seq<Upload>, history: seq<Upload>, cutoff: int, u: Upload)
    requires Agrees(window, history, cutoff) && cutoff < u.at
    ensures Agrees(window + [u], history + [u], cutoff)
  {
    FreshKeepsNewest(window, cutoff, u);
    FreshKeepsNewest(history, cutoff, u);
  }

  ghost predicate WindowInv(window: seq<Upload>, history: seq<Upload>, limits: Limits, clock: int) {
    UpTo(history, clock) && Agrees(window, history, clock - MINUTE_SECONDS) && Compliant(history, limits)
  }

  lemma HistoryAppend(admitted: seq<Request>, r: Request, s: Scope)
    ensures HistoryOf(admitted + [r], s) == if Charges(r, s) then HistoryOf(admitted, s) + [Upload(r.at, r.size)]
                                            else HistoryOf(admitted, s)
  {
    assert (admitted + [r])[..|admitted|] == admitted;
  }

  /** A pruned window that allows an upload keeps the invariant with the upload in it, and without. */
  lemma WindowStep(window: seq<Upload>, history: seq<Upload>, limits: Limits, clock: int, u: Upload)
    requires WindowInv(window, history, limits, clock) && clock <= u.at
    ensures WindowInv(window, history, limits, u.at)
    ensures WindowInv(Fresh(window, u.at - MINUTE_SECONDS), history, limits, u.at)
    ensures Judge(Fresh(window, u.at - MINUTE_SECONDS), limits, u.size) == Allowed ==>
              WindowInv(Fresh(window, u.at - MINUTE_SECONDS) + [u], history + [u], limits, u.at)
  {
    var cutoff := u.at - MINUTE_SECONDS;
    AgreesLater(window, history, clock - MINUTE_SECONDS, cutoff);
    AgreesAppend(Fresh(window, cutoff), history, cutoff, u);
    assert (history + [u])[..|history|] == history;
  }

  lemma {:induction false} ServeScope(limits: Scope -> Limits, w: Windows, r: Request, s: Scope)
    requires r.scope != GlobalAnonymous
    ensures var (w', verdict) := Serve(limits, w, r);
      var recent := Fresh(At(w, s), r.at - MINUTE_SECONDS);
      if verdict == Allowed && Charges(r, s)
      then At(w', s) == recent + [Upload(r.at, r.size)] && Judge(recent, limits(s), r.size) == Allowed
      else At(w', s) == recent || At(w', s) == At(w, s)
  {
  }

  lemma {:induction false} RunKeepsInv(limits: Scope -> Limits, requests: seq<Request>, clock: int, s: Scope)
    requires Ordered(requests) && forall i :: 0 <= i < |requests| ==> requests[i].at <= clock
    ensures WindowInv(At(Run(limits, requests).0, s), HistoryOf(Run(limits, requests).1, s), limits(s), clock)
  {
    if requests == [] {
    } else {
      var before, r := requests[..|requests| - 1], requests[|requests| - 1];
      RunKeepsInv(limits, before, r.at, s);
      ServeKeepsInv(limits, Run(limits, before).0, Run(limits, before).1, r, s);
      LaterClock(At(Run(limits, requests).0, s), HistoryOf(Run(limits, requests).1, s), limits(s), r.at, clock);
    }
  }

  lemma {:induction false} ServeKeepsInv(limits: Scope -> Limits, w: Windows, admitted: seq<Request>, r: Request,
                                         s: Scope)
    requires r.scope != GlobalAnonymous && WindowInv(At(w, s), HistoryOf(admitted, s), limits(s), r.at)
    ensures var (w', verdict) := Serve(limits, w, r);
            var admitted' := if verdict == Allowed then admitted + [r] else admitted;
            WindowInv(At(w', s), HistoryOf(admitted', s), limits(s), r.at)
  {
    ServeScope(limits, w, r, s);
    HistoryAppend(admitted, r, s);
    WindowStep(At(w, s), HistoryOf(admitted, s), limits(s), r.at, Upload(r.at, r.size));
  }

  lemma LaterClock(window: seq<Upload>, history: seq<Upload>, limits: Limits, clock: int, later: int)
    requires WindowInv(window, history, limits, clock) && clock <= later
    ensures WindowInv(window, history, limits, later)
  {
    AgreesLater(window, history, clock - MINUTE_SECONDS, later - MINUTE_SECONDS);
  }

  // ----- main results -----

  /** The admitted requests after the cutoff, whatever scope they belong to. */
  function Recent(admitted: seq<Request>, cutoff: int): seq<Request> {
    if admitted == [] then []
    else
      var earlier, r := Recent(admitted[..|admitted| - 1], cutoff), admitted[|admitted| - 1];
      if r.at > cutoff then earlier + [r] else earlier
  }

  lemma {:induction false} FreshDropsOld(events: seq<Upload>, cutoff: int)
    requires UpTo(events, cutoff)
    ensures Fresh(events, cutoff) == []
  {
    if events == [] {
    } else {
      FreshDropsOld(events[1..], cutoff);
    }
  }

  lemma RecentKept(before: seq<Request>, r: Request, cutoff: int, s: Scope)
    requires r.at > cutoff && Fresh(HistoryOf(before, s), cutoff) == HistoryOf(Recent(before, cutoff), s)
    ensures Fresh(HistoryOf(before + [r], s), cutoff) == HistoryOf(Recent(before, cutoff) + [r], s)
  {
    HistoryAppend(before, r, s);
    HistoryAppend(Recent(before, cutoff), r, s);
    FreshKeepsNewest(HistoryOf(before, s), cutoff, Upload(r.at, r.size));
  }

  lemma RecentDropped(before: seq<Request>, r: Request, cutoff: int, s: Scope)
    requires r.at <= cutoff && (Charges(r, s) ==> UpTo(HistoryOf(before, s), r.at))
    requires Fresh(HistoryOf(before, s), cutoff) == HistoryOf(Recent(before, cutoff), s)
    ensures Fresh(HistoryOf(before + [r], s), cutoff) == HistoryOf(Recent(before, cutoff), s)
  {
    HistoryAppend(before, r, s);
    if Charges(r, s) {
      FreshDropsOld(HistoryOf(before, s) + [Upload(r.at, r.size)], cutoff);
      FreshDropsOld(HistoryOf(before, s), cutoff);
    }
  }

  lemma CompliantFront(history: seq<Upload>, u: Upload, limits: Limits)
    requires Compliant(history + [u], limits)
    ensures Compliant(history, limits) && UpTo(history, u.at)
    ensures Judge(Fresh(history, u.at - MINUTE_SECONDS), limits, u.size) == Allowed
  {
    assert (history + [u])[..|history|] == history;
  }

  lemma {:induction false} RecentHistory(admitted: seq<Request>, cutoff: int, s: Scope, limits: Limits)
    requires Compliant(HistoryOf(admitted, s), limits)
    ensures Fresh(HistoryOf(admitted, s), cutoff) == HistoryOf(Recent(admitted, cutoff), s)
  {
    if admitted == [] {
    } else {
      var before, r := admitted[..|admitted| - 1], admitted[|admitted| - 1];
      assert admitted == before + [r];
      HistoryAppend(before, r, s);
      if Charges(r, s) { CompliantFront(HistoryOf(before, s), Upload(r.at, r.size), limits); }
      RecentHistory(before, cutoff, s, limits);
      if r.at > cutoff { RecentKept(before, r, cutoff, s); } else { RecentDropped(before, r, cutoff, s); }
    }
  }

  /** At any time, pruning a scope's deque to the last minute gives exactly the admitted uploads of the last
      minute that the scope is charged for. One list of recent admissions serves every scope, so the shared
      anonymous window is the union of the actors' windows. */
  lemma {:induction false} DequesAgreeWithHistory(limits: Scope -> Limits, requests: seq<Request>, now: int, s: Scope)
    requires Ordered(requests) && forall i :: 0 <= i < |requests| ==> requests[i].at <= now
    ensures var (w, admitted) := Run(limits, requests);
      Fresh(At(w, s), now - MINUTE_SECONDS) == HistoryOf(Recent(admitted, now - MINUTE_SECONDS), s)
  {
    RunKeepsInv(limits, requests, now, s);
    RecentHistory(Run(limits, requests).1, now - MINUTE_SECONDS, s, limits(s));
  }

  /** Uploads of a history inside a half-open window. */
  function Within(history: seq<Upload>, start: int, end: int): seq<Upload> {
    if history == [] then []
    else
      var earlier, u := Within(history[..|history| - 1], start, end), history[|history| - 1];
      if start <= u.at < end then earlier + [u] else earlier
  }

  lemma BytesAppend(events: seq<Upload>, u: Upload)
    ensures Bytes(events + [u]) == Bytes(events) + u.size
  {
    assert (events + [u])[..|events|] == events;
  }

  lemma {:induction false} NothingWithin(history: seq<Upload>, start: int, end: int, time: int)
    requires UpTo(history, time) && time < start
    ensures Within(history, start, end) == []
  {
    if history == [] {
    } else {
      NothingWithin(history[..|history| - 1], start, end, time);
    }
  }

  /** The uploads of a window are among those its last upload was judged on. */
  lemma {:induction false} WindowIsRecent(history: seq<Upload>, limits: Limits, start: int, end: int, cutoff: int)
    requires Compliant(history, limits) && cutoff < start
    ensures |Within(history, start, end)| <= |Fresh(history, cutoff)|
    ensures Bytes(Within(history, start, end)) <= Bytes(Fresh(history, cutoff))
  {
    if history == [] {
    } else {
      var before, u := history[..|history| - 1], history[|history| - 1];
      assert history == before + [u];
      if u.at > cutoff {
        WindowIsRecent(before, limits, start, end, cutoff);
        FreshKeepsNewest(before, cutoff, u);
        BytesAppend(Fresh(before, cutoff), u);
        BytesAppend(Within(before, start, end), u);
      } else {
        NothingWithin(history, start, end, u.at);
      }
    }
  }

  lemma {:induction false} CompliantWindow(history: seq<Upload>, limits: Limits, start: int)
    requires Compliant(history, limits)
    ensures limits.rpm > 0 ==> |Within(history, start, start + MINUTE_SECONDS)| <= limits.rpm
    ensures limits.bph > 0 ==> Bytes(Within(history, start, start + MINUTE_SECONDS)) <= limits.bph
  {
    if history == [] {
    } else {
      var before, u := history[..|history| - 1], history[|history| - 1];
      var end := start + MINUTE_SECONDS;
      CompliantWindow(before, limits, start);
      if start <= u.at < end {
        WindowIsRecent(before, limits, start, end, u.at - MINUTE_SECONDS);
        BytesAppend(Within(before, start, end), u);
      }
    }
  }

  /** Over every run, any minute holds at most rpm admissions and at most bph bytes, for each user, for each
      anonymous actor and for all anonymous uploads together. */
  lemma {:induction false} MinuteBounds(limits: Scope -> Limits, requests: seq<Request>, s: Scope, start: int)
    requires Ordered(requests)
    ensures var uploads := Within(HistoryOf(Run(limits, requests).1, s), start, start + MINUTE_SECONDS);
      && (limits(s).rpm > 0 ==> |uploads| <= limits(s).rpm)
      && (limits(s).bph > 0 ==> Bytes(uploads) <= limits(s).bph)
  {
    RunKeepsInv(limits, requests, if requests == [] then 0 else requests[|requests| - 1].at, s);
    CompliantWindow(HistoryOf(Run(limits, requests).1, s), limits(s), start);
  }

  /** A denied request is charged to no scope. */
  lemma {:induction false} DeniedAddsNothing(limits: Scope -> Limits, requests: seq<Request>, r: Request, s: Scope)
    requires r.scope != GlobalAnonymous
    requires Serve(limits, Run(limits, requests).0, r).1 != Allowed
    ensures Run(limits, requests + [r]).1 == Run(limits, requests).1
    ensures var before, after := At(Run(limits, requests).0, s), At(Run(limits, requests + [r]).0, s);
      Fresh(after, r.at - MINUTE_SECONDS) == Fresh(before, r.at - MINUTE_SECONDS)
  {
    assert (requests + [r])[..|requests|] == requests;
    ServeScope(limits, Run(limits, requests).0, r, s);
    FreshTwice(At(Run(limits, requests).0, s), r.at - MINUTE_SECONDS, r.at - MINUTE_SECONDS);
  }

  // ----- which runs are admitted whole -----

  lemma HistoryOfFront(requests: seq<Request>, s: Scope)
    requires requests != []
    ensures var front := HistoryOf(requests[..|requests| - 1], s);
            var r := requests[|requests| - 1];
            HistoryOf(requests, s) == if Charges(r, s) then front + [Upload(r.at, r.size)] else front
  {
  }

  /** In every scope each upload is allowed by those of the minute before it. */
  ghost predicate AllCompliant(limits: Scope -> Limits, requests: seq<Request>) {
    forall s :: Compliant(HistoryOf(requests, s), limits(s))
  }

  /** Exactly then all requests are admitted. */
  lemma {:induction false} AdmittedWholeIffCompliant(limits: Scope -> Limits, requests: seq<Request>)
    requires Ordered(requests)
    ensures Run(limits, requests).1 == requests <==> AllCompliant(limits, requests)
  {
    if Run(limits, requests).1 == requests {
      forall s ensures Compliant(HistoryOf(requests, s), limits(s)) {
        RunKeepsInv(limits, requests, if requests == [] then 0 else requests[|requests| - 1].at, s);
      }
    }
    if AllCompliant(limits, requests) {
      CompliantIsAdmitted(limits, requests);
    }
  }

  lemma {:induction false} FrontCompliant(limits: Scope -> Limits, front: seq<Request>, r: Request)
    requires AllCompliant(limits, front + [r])
    ensures AllCompliant(limits, front)
  {
    forall s ensures Compliant(HistoryOf(front, s), limits(s)) {
      assert Compliant(HistoryOf(front + [r], s), limits(s));
      HistoryAppend(front, r, s);
      if Charges(r, s) { CompliantFront(HistoryOf(front, s), Upload(r.at, r.size), limits(s)); }
    }
  }

  lemma {:induction false} CompliantIsAdmitted(limits: Scope -> Limits, requests: seq<Request>)
    requires Ordered(requests) && AllCompliant(limits, requests)
    ensures Run(limits, requests).1 == requests
  {
    if requests == [] {
    } else {
      var front, r := requests[..|requests| - 1], requests[|requests| - 1];
      assert requests == front + [r];
      FrontCompliant(limits, front, r);
      CompliantIsAdmitted(limits, front);
      NextIsAllowed(limits, front, r);
    }
  }

  lemma {:induction false} NextIsAllowed(limits: Scope -> Limits, front: seq<Request>, r: Request)
    requires Ordered(front) && (forall i :: 0 <= i < |front| ==> front[i].at <= r.at)
    requires Run(limits, front).1 == front && AllCompliant(limits, front + [r])
    ensures Serve(limits, Run(limits, front).0, r).1 == Allowed
  {
    AllowedInScope(limits, front, r, r.scope);
    if r.scope.Anonymous? { AllowedInScope(limits, front, r, GlobalAnonymous); }
    ServeAllows(limits, Run(limits, front).0, r);
  }

  lemma {:induction false} ServeAllows(limits: Scope -> Limits, w: Windows, r: Request)
    requires Judge(Fresh(At(w, r.scope), r.at - MINUTE_SECONDS), limits(r.scope), r.size) == Allowed
    requires r.scope.Anonymous? ==>
               Judge(Fresh(At(w, GlobalAnonymous), r.at - MINUTE_SECONDS), limits(GlobalAnonymous), r.size) == Allowed
    ensures Serve(limits, w, r).1 == Allowed
  {
  }

  lemma {:induction false} AllowedInScope(limits: Scope -> Limits, front: seq<Request>, r: Request, s: Scope)
    requires Ordered(front) && (forall i :: 0 <= i < |front| ==> front[i].at <= r.at)
    requires Run(limits, front).1 == front && Charges(r, s) && Compliant(HistoryOf(front + [r], s), limits(s))
    ensures Judge(Fresh(At(Run(limits, front).0, s), r.at - MINUTE_SECONDS), limits(s), r.size) == Allowed
  {
    HistoryAppend(front, r, s);
    CompliantFront(HistoryOf(front, s), Upload(r.at, r.size), limits(s));
    RunKeepsInv(limits, front, r.at, s);
  }
}
