/**
 * Single-use delete capabilities: the table commands, and concurrent confirmations of an album's deletion
 * interleaved with revocation, clean-up and deletion.
 */
module Capabilities {
  import opened Basics

  /** A row, with the serial number of its creation: selectors may come again, serials do not. */
  datatype Capability = Capability(serial: nat, album: string, user: string, expires: int,
                                   consumedAt: Option<int>, revokedAt: Option<int>)

  type Table = map<string, Capability>  // by selector

  datatype Owner = OfAlbum(album: string) | OfUser(user: string)

  /** The reasons a row is deleted for: the three clean-ups, and the cascades of its album and its user. */
  datatype Rule =
    | ExpiredBy(now: int) | ConsumedBy(cutoff: int) | RevokedBy(cutoff: int)
    | AlbumDeleted(album: string) | UserDeleted(user: string)

  predicate Unspent(c: Capability) { c.consumedAt.None? && c.revokedAt.None? }

  predicate Consumable(c: Capability, album: string, now: int) {
    c.album == album && Unspent(c) && c.expires > now
  }

  predicate Owns(owner: Owner, c: Capability) {
    match owner
    case OfAlbum(album) => c.album == album
    case OfUser(user) => c.user == user
  }

  predicate Removes(rule: Rule, c: Capability) {
    match rule
    case ExpiredBy(now) => c.expires <= now
    case ConsumedBy(cutoff) => c.consumedAt.Some? && c.consumedAt.value <= cutoff
    case RevokedBy(cutoff) => c.revokedAt.Some? && c.revokedAt.value <= cutoff
    case AlbumDeleted(album) => c.album == album
    case UserDeleted(user) => c.user == user
  }

  function AfterConsume(rows: Table, selector: string, album: string, now: int): Table {
    if selector in rows && Consumable(rows[selector], album, now)
    then rows[selector := rows[selector].(consumedAt := Some(now))] else rows
  }

  function AfterRevoke(rows: Table, owner: Owner, now: int): Table {
    map s | s in rows :: if Owns(owner, rows[s]) && Unspent(rows[s]) then rows[s].(revokedAt := Some(now)) else rows[s]
  }

  function AfterRemove(rows: Table, rule: Rule): Table {
    map s | s in rows && !Removes(rule, rows[s]) :: rows[s]
  }

  /** The commands on the table, each of them atomic. */
  class CapabilityTable {
    var rows: Table

    constructor ()
      ensures rows == map[]
    {
      rows := map[];
    }

    /** INSERT: a selector that is taken violates the primary key. */
    method Create(selector: string, c: Capability) returns (ok: bool)
      modifies this
      ensures ok <==> selector !in old(rows)
      ensures rows == if ok then old(rows)[selector := c] else old(rows)
    {
      ok := selector !in rows;
      if ok {
        rows := rows[selector := c];
      }
    }

    method Get(selector: string) returns (c: Option<Capability>)
      ensures c == if selector in rows then Some(rows[selector]) else None
    {
      c := if selector in rows then Some(rows[selector]) else None;
    }

    /** One UPDATE: of any number of callers at most one gets the row. */
    method Consume(selector: string, album: string, now: int) returns (c: Option<Capability>)
      modifies this
      ensures rows == AfterConsume(old(rows), selector, album, now)
      ensures c.Some? <==> selector in old(rows) && Consumable(old(rows)[selector], album, now)
      ensures c.Some? ==> rows[selector] == c.value && !Consumable(c.value, album, now)
    {
      if selector in rows && Consumable(rows[selector], album, now) {
        rows := rows[selector := rows[selector].(consumedAt := Some(now))];
        return Some(rows[selector]);
      }
      return None;
    }

    method Revoke(owner: Owner, now: int) returns (count: nat)
      modifies this
      ensures rows == AfterRevoke(old(rows), owner, now)
      ensures count == |set s | s in old(rows) && Owns(owner, old(rows)[s]) && Unspent(old(rows)[s])|
      ensures forall s :: s in rows && Owns(owner, rows[s]) ==> !Unspent(rows[s])
    {
      count := |set s | s in rows && Owns(owner, rows[s]) && Unspent(rows[s])|;
      rows := map s | s in rows ::
        if Owns(owner, rows[s]) && Unspent(rows[s]) then rows[s].(revokedAt := Some(now)) else rows[s];
    }

    method Remove(rule: Rule)
      modifies this
      ensures rows == AfterRemove(old(rows), rule)
    {
      rows := map s | s in rows && !Removes(rule, rows[s]) :: rows[s];
    }
  }

  // ----- the system -----

  datatype Page = DeletedPage | Refused

  /** One confirmation request, between its awaits. */
  datatype Session =
    | Won(serial: nat, album: string, user: string)
    | Deleting(album: string)
    | Lost(selector: string, album: string, user: string)
    | LostKnowing(current: Option<Capability>, album: string, user: string)
    | Answered(page: Page)

  datatype Consumption = Consumption(serial: nat, album: string, now: int)

  /** The tables and the requests, and a record of all that happened: births of capabilities by serial, consumptions
      in order, serials ever revoked, and serials for which delete_album was called, in order. */
  datatype State = State(rows: Table, albums: set<string>, users: set<string>, sessions: seq<Session>,
                         births: map<nat, Capability>, next: nat, log: seq<Consumption>, revoked: set<nat>,
                         deletions: seq<nat>)

  datatype Action =
    | AddAlbum(album: string) | AddUser(user: string)
    | Create(selector: string, album: string, user: string, expires: int)
    | Confirm(selector: string, album: string, user: string, now: int)
    | FindUser(i: nat) | DeleteAlbum(i: nat, allowed: bool)
    | ReadCapability(i: nat) | ReadAlbum(i: nat)
    | Revoke(owner: Owner, now: int)
    | CleanUp(rule: Rule)

  function Revoking(rows: Table, owner: Owner): set<nat> {
    set s | s in rows && Owns(owner, rows[s]) && Unspent(rows[s]) :: rows[s].serial
  }

  function Next(s: State, a: Action): State {
    match a
    case AddAlbum(album) => s.(albums := s.albums + {album})
    case AddUser(user) => s.(users := s.users + {user})
    case Create(selector, album, user, expires) =>
      if selector in s.rows || album !in s.albums || user !in s.users then s
      else
        var c := Capability(s.next, album, user, expires, None, None);
        s.(rows := s.rows[selector := c], births := s.births[s.next := c], next := s.next + 1)
    case Confirm(selector, album, user, now) =>
      if selector in s.rows && Consumable(s.rows[selector], album, now) then
        var c := s.rows[selector];
        s.(rows := AfterConsume(s.rows, selector, album, now), log := s.log + [Consumption(c.serial, album, now)],
           sessions := s.sessions + [Won(c.serial, album, c.user)])
      else s.(sessions := s.sessions + [Lost(selector, album, user)])
    case FindUser(i) =>
      if i < |s.sessions| && s.sessions[i].Won? then
        if s.sessions[i].user !in s.users then s.(sessions := s.sessions[i := Answered(Refused)])
        else s.(sessions := s.sessions[i := Deleting(s.sessions[i].album)],
                deletions := s.deletions + [s.sessions[i].serial])
      else s
    case DeleteAlbum(i, allowed) =>
      if i < |s.sessions| && s.sessions[i].Deleting? then
        var album := s.sessions[i].album;
        if album in s.albums && allowed then
          s.(albums := s.albums - {album}, rows := AfterRemove(s.rows, AlbumDeleted(album)),
             sessions := s.sessions[i := Answered(DeletedPage)])
        else s.(sessions := s.sessions[i := Answered(Refused)])
      else s
    case ReadCapability(i) =>
      if i < |s.sessions| && s.sessions[i].Lost? then
        var l := s.sessions[i];
        var current := if l.selector in s.rows then Some(s.rows[l.selector]) else None;
        s.(sessions := s.sessions[i := LostKnowing(current, l.album, l.user)])
      else s
    case ReadAlbum(i) =>
      if i < |s.sessions| && s.sessions[i].LostKnowing? then
        var l := s.sessions[i];
        var gone := l.current.Some? && l.current.value.user == l.user && l.current.value.consumedAt.Some?
                    && l.album !in s.albums;
        s.(sessions := s.sessions[i := Answered(if gone then DeletedPage else Refused)])
      else s
    case Revoke(owner, now) =>
      s.(rows := AfterRevoke(s.rows, owner, now), revoked := s.revoked + Revoking(s.rows, owner))
    case CleanUp(rule) =>
      s.(rows := AfterRemove(s.rows, rule),
         albums := if rule.AlbumDeleted? then s.albums - {rule.album} else s.albums,
         users := if rule.UserDeleted? then s.users - {rule.user} else s.users)
  }

  function Exec(s: State, actions: seq<Action>): State {
    if actions == [] then s else Next(Exec(s, actions[..|actions| - 1]), actions[|actions| - 1])
  }

  const EMPTY := State(map[], {}, {}, [], map[], 0, [], {}, [])

  // ----- invariants -----

  predicate Logged(log: seq<Consumption>, serial: nat) {
    exists i :: 0 <= i < |log| && log[i].serial == serial
  }

  /** A row is what was created, and remembers what happened to it. */
  predicate RowInv(c: Capability, births: map<nat, Capability>, log: seq<Consumption>, revoked: set<nat>) {
    && c.serial in births && births[c.serial] == c.(consumedAt := None, revokedAt := None)
    && (c.consumedAt.Some? <==> Logged(log, c.serial))
    && (c.revokedAt.Some? <==> c.serial in revoked)
  }

  predicate RowsInv(s: State) {
    && (forall k :: k in s.births ==> k < s.next)
    && (forall k :: k in s.rows ==> RowInv(s.rows[k], s.births, s.log, s.revoked))
    && (forall k, l :: k in s.rows && l in s.rows && k != l ==> s.rows[k].serial != s.rows[l].serial)
  }

  /** The foreign keys. */
  predicate KeysInv(s: State) {
    forall k :: k in s.rows ==> s.rows[k].album in s.albums && s.rows[k].user in s.users
  }

  predicate EntryInv(e: Consumption, births: map<nat, Capability>, revoked: set<nat>) {
    && e.serial in births && births[e.serial].album == e.album && e.now < births[e.serial].expires
    && e.serial !in revoked
  }

  predicate LogInv(s: State) {
    && (forall i :: 0 <= i < |s.log| ==> EntryInv(s.log[i], s.births, s.revoked))
    && (forall i, j :: 0 <= i < j < |s.log| ==> s.log[i].serial != s.log[j].serial)
    && (forall k :: k in s.revoked ==> k in s.births)
  }

  /** Each consumption has one winner, who calls delete_album at most once. */
  predicate SessionsInv(sessions: seq<Session>, log: seq<Consumption>, deletions: seq<nat>) {
    && (forall i :: 0 <= i < |sessions| && sessions[i].Won? ==>
          Logged(log, sessions[i].serial) && sessions[i].serial !in deletions)
    && (forall i, j :: 0 <= i < j < |sessions| && sessions[i].Won? && sessions[j].Won? ==>
          sessions[i].serial != sessions[j].serial)
    && (forall i :: 0 <= i < |deletions| ==> Logged(log, deletions[i]))
    && (forall i, j :: 0 <= i < j < |deletions| ==> deletions[i] != deletions[j])
  }

  predicate Inv(s: State) {
    RowsInv(s) && KeysInv(s) && LogInv(s) && SessionsInv(s.sessions, s.log, s.deletions)
  }

  lemma LoggedNext(log: seq<Consumption>, e: Consumption, serial: nat)
    ensures Logged(log + [e], serial) <==> Logged(log, serial) || serial == e.serial
  {
    if Logged(log, serial) {
      var i :| 0 <= i < |log| && log[i].serial == serial;
      assert (log + [e])[i].serial == serial;
    }
    if serial == e.serial { assert (log + [e])[|log|].serial == serial; }
  }

  lemma CreateKeepsInv(s: State, a: Action)
    requires Inv(s) && a.Create?
    ensures Inv(Next(s, a))
  {
    if a.selector !in s.rows && a.album in s.albums && a.user in s.users {
      assert s.next !in s.births;
      assert !Logged(s.log, s.next) by {
        forall i | 0 <= i < |s.log| ensures s.log[i].serial != s.next {
          assert EntryInv(s.log[i], s.births, s.revoked);
        }
      }
      forall i | 0 <= i < |s.log| ensures EntryInv(s.log[i], Next(s, a).births, s.revoked) {
        assert EntryInv(s.log[i], s.births, s.revoked);
      }
      forall k | k in s.rows ensures RowInv(s.rows[k], Next(s, a).births, s.log, s.revoked) {
        assert RowInv(s.rows[k], s.births, s.log, s.revoked);
      }
    }
  }

  lemma WinKeepsSessions(sessions: seq<Session>, log: seq<Consumption>, deletions: seq<nat>, e: Consumption,
                         user: string)
    requires SessionsInv(sessions, log, deletions) && !Logged(log, e.serial)
    ensures SessionsInv(sessions + [Won(e.serial, e.album, user)], log + [e], deletions)
  {
    forall k: nat ensures Logged(log + [e], k) <==> Logged(log, k) || k == e.serial { LoggedNext(log, e, k); }
  }

  lemma ConsumeKeepsRows(s: State, selector: string, album: string, now: int)
    requires RowsInv(s) && LogInv(s) && selector in s.rows && Consumable(s.rows[selector], album, now)
    ensures var e := Consumption(s.rows[selector].serial, album, now);
            var s' := s.(rows := AfterConsume(s.rows, selector, album, now), log := s.log + [e]);
            RowsInv(s') && LogInv(s')
  {
    var e := Consumption(s.rows[selector].serial, album, now);
    var rows' := AfterConsume(s.rows, selector, album, now);
    assert RowInv(s.rows[selector], s.births, s.log, s.revoked);
    assert EntryInv(e, s.births, s.revoked);
    forall k | k in rows' ensures RowInv(rows'[k], s.births, s.log + [e], s.revoked) {
      assert RowInv(s.rows[k], s.births, s.log, s.revoked);
      LoggedNext(s.log, e, s.rows[k].serial);
    }
    forall i | 0 <= i < |s.log| ensures s.log[i].serial != e.serial { }
  }

  lemma ConfirmKeepsInv(s: State, a: Action)
    requires Inv(s) && a.Confirm?
    ensures Inv(Next(s, a))
  {
    if a.selector in s.rows && Consumable(s.rows[a.selector], a.album, a.now) {
      var c := s.rows[a.selector];
      assert RowInv(c, s.births, s.log, s.revoked);
      ConsumeKeepsRows(s, a.selector, a.album, a.now);
      WinKeepsSessions(s.sessions, s.log, s.deletions, Consumption(c.serial, a.album, a.now), c.user);
      assert KeysInv(Next(s, a));
    }
  }

  lemma FindUserKeepsInv(s: State, i: nat)
    requires Inv(s)
    ensures Inv(Next(s, FindUser(i)))
  {
  }

  /** A session that has not won may go on to anything but winning. */
  lemma AnswerKeepsSessions(sessions: seq<Session>, log: seq<Consumption>, deletions: seq<nat>, i: nat, next: Session)
    requires SessionsInv(sessions, log, deletions) && i < |sessions| && !next.Won?
    ensures SessionsInv(sessions[i := next], log, deletions)
  {
  }

  lemma DeleteAlbumKeepsInv(s: State, i: nat, allowed: bool)
    requires Inv(s)
    ensures Inv(Next(s, DeleteAlbum(i, allowed)))
  {
    if i < |s.sessions| && s.sessions[i].Deleting? {
      RemoveKeepsRows(s, AlbumDeleted(s.sessions[i].album), s.albums - {s.sessions[i].album}, s.users);
      AnswerKeepsSessions(s.sessions, s.log, s.deletions, i, Next(s, DeleteAlbum(i, allowed)).sessions[i]);
    }
  }

  lemma OtherStepKeepsInv(s: State, a: Action)
    requires Inv(s) && (a.AddAlbum? || a.AddUser? || a.ReadCapability? || a.ReadAlbum?)
    ensures Inv(Next(s, a))
  {
    if (a.ReadCapability? || a.ReadAlbum?) && a.i < |s.sessions| {
      AnswerKeepsSessions(s.sessions, s.log, s.deletions, a.i, Answered(Refused));
    }
  }

  lemma RevokeKeepsInv(s: State, owner: Owner, now: int)
    requires Inv(s)
    ensures Inv(Next(s, Revoke(owner, now)))
  {
    var s' := Next(s, Revoke(owner, now));
    forall k | k in s.rows ensures RowInv(s'.rows[k], s.births, s.log, s'.revoked) {
      assert RowInv(s.rows[k], s.births, s.log, s.revoked);
      RevokingSerial(s, owner, k);
    }
    forall i | 0 <= i < |s.log| ensures EntryInv(s.log[i], s.births, s'.revoked) {
      assert EntryInv(s.log[i], s.births, s.revoked);
      LoggedIsNotRevoked(s, owner, i);
    }
    forall k | k in Revoking(s.rows, owner) ensures k in s.births {
      var sel :| sel in s.rows && s.rows[sel].serial == k;
      assert RowInv(s.rows[sel], s.births, s.log, s.revoked);
    }
  }

  lemma LoggedIsNotRevoked(s: State, owner: Owner, i: nat)
    requires RowsInv(s) && i < |s.log|
    ensures s.log[i].serial !in Revoking(s.rows, owner)
  {
    assert Logged(s.log, s.log[i].serial);
    forall k | k in s.rows && Unspent(s.rows[k]) ensures s.rows[k].serial != s.log[i].serial {
      assert RowInv(s.rows[k], s.births, s.log, s.revoked);
    }
  }

  lemma RevokingSerial(s: State, owner: Owner, k: string)
    requires RowsInv(s) && k in s.rows
    ensures s.rows[k].serial in Revoking(s.rows, owner) <==> Owns(owner, s.rows[k]) && Unspent(s.rows[k])
  {
    if s.rows[k].serial in Revoking(s.rows, owner) {
      var l :| l in s.rows && Owns(owner, s.rows[l]) && Unspent(s.rows[l]) && s.rows[l].serial == s.rows[k].serial;
      assert l == k;
    }
  }

  lemma RemoveKeepsRows(s: State, rule: Rule, albums: set<string>, users: set<string>)
    requires RowsInv(s) && KeysInv(s)
    requires albums == if rule.AlbumDeleted? then s.albums - {rule.album} else s.albums
    requires users == if rule.UserDeleted? then s.users - {rule.user} else s.users
    ensures RowsInv(s.(rows := AfterRemove(s.rows, rule)))
    ensures KeysInv(s.(rows := AfterRemove(s.rows, rule), albums := albums, users := users))
  {
  }

  lemma StepKeepsInv(s: State, a: Action)
    requires Inv(s)
    ensures Inv(Next(s, a))
  {
    match a
    case Create(_, _, _, _) => CreateKeepsInv(s, a);
    case Confirm(_, _, _, _) => ConfirmKeepsInv(s, a);
    case FindUser(i) => FindUserKeepsInv(s, i);
    case Revoke(owner, now) => RevokeKeepsInv(s, owner, now);
    case CleanUp(rule) => RemoveKeepsRows(s, rule, Next(s, a).albums, Next(s, a).users);
    case DeleteAlbum(i, allowed) => DeleteAlbumKeepsInv(s, i, allowed);
    case _ => OtherStepKeepsInv(s, a);
  }

  lemma {:induction false} InvInEveryRun(actions: seq<Action>)
    ensures Inv(Exec(EMPTY, actions))
  {
    if actions == [] {
    } else {
      InvInEveryRun(actions[..|actions| - 1]);
      StepKeepsInv(Exec(EMPTY, actions[..|actions| - 1]), actions[|actions| - 1]);
    }
  }

  // ----- what every interleaving keeps -----

  /** However confirmations, revocations and clean-ups interleave: a capability is consumed at most once, never both
      consumed and revoked, and only for its own album before its expiry. */
  lemma ConsumedAtMostOnce(actions: seq<Action>)
    ensures var s := Exec(EMPTY, actions);
            && (forall i, j :: 0 <= i < j < |s.log| ==> s.log[i].serial != s.log[j].serial)
            && (forall i :: 0 <= i < |s.log| ==> s.log[i].serial !in s.revoked)
            && (forall i :: 0 <= i < |s.log| ==>
                  && s.log[i].serial in s.births
                  && s.births[s.log[i].serial].album == s.log[i].album
                  && s.log[i].now < s.births[s.log[i].serial].expires)
  {
    InvInEveryRun(actions);
    var s := Exec(EMPTY, actions);
    assert forall i :: 0 <= i < |s.log| ==> EntryInv(s.log[i], s.births, s.revoked);
  }

  /** Concurrent confirmations call delete_album at most once for each capability, and only after consuming it. */
  lemma DeletesAtMostOnce(actions: seq<Action>)
    ensures var s := Exec(EMPTY, actions);
            && (forall i, j :: 0 <= i < j < |s.deletions| ==> s.deletions[i] != s.deletions[j])
            && (forall i :: 0 <= i < |s.deletions| ==> Logged(s.log, s.deletions[i]))
  {
    InvInEveryRun(actions);
  }

  /** The capability was created, and is revoked or no longer in the table. */
  predicate Dead(s: State, serial: nat) {
    serial in s.births && (serial in s.revoked || forall k :: k in s.rows ==> s.rows[k].serial != serial)
  }

  lemma DeadStep(s: State, a: Action, serial: nat)
    requires Inv(s) && Dead(s, serial)
    ensures Dead(Next(s, a), serial)
    ensures Logged(Next(s, a).log, serial) <==> Logged(s.log, serial)
  {
    match a
    case Confirm(selector, album, user, now) =>
      if selector in s.rows && Consumable(s.rows[selector], album, now) {
        assert RowInv(s.rows[selector], s.births, s.log, s.revoked);
        LoggedNext(s.log, Consumption(s.rows[selector].serial, album, now), serial);
      }
    case _ =>
  }

  /** Once revoked or deleted, a capability stays unusable for the rest of every run. */
  lemma {:induction false} DeadForever(before: seq<Action>, after: seq<Action>, serial: nat)
    requires Dead(Exec(EMPTY, before), serial)
    ensures Dead(Exec(EMPTY, before + after), serial)
    ensures Logged(Exec(EMPTY, before + after).log, serial) <==> Logged(Exec(EMPTY, before).log, serial)
  {
    if after == [] {
      assert before + after == before;
    } else {
      var front := after[..|after| - 1];
      assert (before + after)[..|before + after| - 1] == before + front;
      DeadForever(before, front, serial);
      InvInEveryRun(before + front);
      DeadStep(Exec(EMPTY, before + front), after[|after| - 1], serial);
    }
  }

  // ----- the confirmation that lost -----

  /** The row the late confirmation reads. */
  function RowOf(s: State, l: Session): Option<Capability>
    requires l.Lost?
  {
    if l.selector in s.rows then Some(s.rows[l.selector]) else None
  }

  /** It was consumed, by the user who confirms. */
  predicate ConsumedBySame(c: Option<Capability>, user: string) {
    c.Some? && c.value.user == user && c.value.consumedAt.Some?
  }

  lemma {:induction false} KnowingStays(s: State, between: seq<Action>, i: nat)
    requires i < |s.sessions| && s.sessions[i].LostKnowing?
    requires forall k :: 0 <= k < |between| ==> between[k] != ReadAlbum(i)
    ensures i < |Exec(s, between).sessions| && Exec(s, between).sessions[i] == s.sessions[i]
  {
    if between == [] {
    } else {
      KnowingStays(s, between[..|between| - 1], i);
      KnowingStep(Exec(s, between[..|between| - 1]), between[|between| - 1], i);
    }
  }

  lemma KnowingStep(s: State, a: Action, i: nat)
    requires i < |s.sessions| && s.sessions[i].LostKnowing? && a != ReadAlbum(i)
    ensures i < |Next(s, a).sessions| && Next(s, a).sessions[i] == s.sessions[i]
  {
  }

  /** A set of albums that loses one loses it in some step. */
  lemma {:induction false} LosingStep(s: State, between: seq<Action>, album: string) returns (n: nat)
    requires album in s.albums && album !in Exec(s, between).albums
    ensures n < |between|
    ensures album in Exec(s, between[..n]).albums && album !in Next(Exec(s, between[..n]), between[n]).albums
  {
    var last := |between| - 1;
    if album in Exec(s, between[..last]).albums {
      n := last;
    } else {
      n := LosingStep(s, between[..last], album);
      assert between[..last][..n] == between[..n];
    }
  }

  /** The step deletes the album: its owner, a clean-up, or a confirmation that won. */
  predicate DeletesAlbum(s: State, a: Action, album: string) {
    || a == CleanUp(AlbumDeleted(album))
    || (a.DeleteAlbum? && a.allowed && a.i < |s.sessions| && s.sessions[a.i] == Deleting(album))
  }

  /** A late confirmation reads the row, and later the album, with anything at all in between but its own second read.
      It is told "deleted" exactly when the row had been consumed for the same user and the album is gone by then. */
  lemma LateConfirmation(actions: seq<Action>, between: seq<Action>, i: nat)
    requires i < |Exec(EMPTY, actions).sessions| && Exec(EMPTY, actions).sessions[i].Lost?
    requires forall k :: 0 <= k < |between| ==> between[k] != ReadAlbum(i)
    ensures var s := Exec(EMPTY, actions);
            var t := Exec(Next(s, ReadCapability(i)), between);
            var l := s.sessions[i];
            i < |t.sessions| && Next(t, ReadAlbum(i)).sessions[i]
              == Answered(if ConsumedBySame(RowOf(s, l), l.user) && l.album !in t.albums then DeletedPage else Refused)
  {
    KnowingStays(Next(Exec(EMPTY, actions), ReadCapability(i)), between, i);
  }

  /** The row goes with the album. So when the row read was the album's own, the album was still there at the first
      read, and a deletion lies between the two: without one the late confirmation is refused. */
  lemma LatePageMeansDeletionBetween(actions: seq<Action>, between: seq<Action>, i: nat) returns (n: nat)
    requires i < |Exec(EMPTY, actions).sessions| && Exec(EMPTY, actions).sessions[i].Lost?
    requires forall k :: 0 <= k < |between| ==> between[k] != ReadAlbum(i)
    requires var s := Exec(EMPTY, actions);
             RowOf(s, s.sessions[i]).Some? ==> RowOf(s, s.sessions[i]).value.album == s.sessions[i].album
    ensures var s := Exec(EMPTY, actions);
            var first := Next(s, ReadCapability(i));
            var t := Exec(first, between);
            i < |t.sessions| && (Next(t, ReadAlbum(i)).sessions[i] == Answered(DeletedPage) ==>
              && s.sessions[i].album in first.albums
              && n < |between| && DeletesAlbum(Exec(first, between[..n]), between[n], s.sessions[i].album))
  {
    var s := Exec(EMPTY, actions);
    var first := Next(s, ReadCapability(i));
    var album := s.sessions[i].album;
    InvInEveryRun(actions);
    LateConfirmation(actions, between, i);
    n := 0;
    if ConsumedBySame(RowOf(s, s.sessions[i]), s.sessions[i].user) && album !in Exec(first, between).albums {
      n := LosingStep(first, between, album);
    }
  }

  lemma ExecLast(s: State, before: seq<Action>, a: Action)
    ensures Exec(s, before + [a]) == Next(Exec(s, before), a)
  {
    assert (before + [a])[..|before|] == before;
  }

  function SetUp(selector: string, album: string, user: string, expires: int): seq<Action> {
    [AddAlbum(album)] + [AddUser(user)] + [Create(selector, album, user, expires)]
  }

  lemma AfterSetUp(selector: string, album: string, user: string, expires: int)
    ensures var c := Capability(0, album, user, expires, None, None);
            Exec(EMPTY, SetUp(selector, album, user, expires))
            == State(map[selector := c], {album}, {user}, [], map[0 := c], 1, [], {}, [])
  {
    ExecLast(EMPTY, [], AddAlbum(album));
    assert [] + [AddAlbum(album)] == [AddAlbum(album)];
    ExecLast(EMPTY, [AddAlbum(album)], AddUser(user));
    ExecLast(EMPTY, [AddAlbum(album)] + [AddUser(user)], Create(selector, album, user, expires));
  }

  /** One confirmation wins, the other loses. */
  lemma AfterTwo(selector: string, album: string, user: string, now: int, expires: int)
    requires now < expires
    ensures var two := Confirm(selector, album, user, now);
            var s := Exec(EMPTY, SetUp(selector, album, user, expires) + [two] + [two]);
            && s.sessions == [Won(0, album, user)] + [Lost(selector, album, user)]
            && s.rows == map[selector := Capability(0, album, user, expires, Some(now), None)]
            && s.users == {user} && s.albums == {album}
  {
    var two := Confirm(selector, album, user, now);
    var start := SetUp(selector, album, user, expires);
    AfterSetUp(selector, album, user, expires);
    ExecLast(EMPTY, start, two);
    ExecLast(EMPTY, start + [two], two);
  }

  lemma LoserReads(s: State, w: Session, l: Session)
    requires s.sessions == [w] + [l] && l.Lost? && l.selector in s.rows
    ensures var t := Next(s, ReadCapability(1));
            t.sessions == [w] + [LostKnowing(Some(s.rows[l.selector]), l.album, l.user)]
            && t.albums == s.albums && t.users == s.users
  {
  }

  lemma WinnerIsFound(s: State, w: Session, l: Session)
    requires s.sessions == [w] + [l] && w.Won? && w.user in s.users
    ensures var t := Next(s, FindUser(0)); t.sessions == [Deleting(w.album)] + [l] && t.albums == s.albums
  {
  }

  lemma WinnerDeletes(s: State, album: string, l: Session)
    requires s.sessions == [Deleting(album)] + [l] && album in s.albums
    ensures var t := Next(s, DeleteAlbum(0, true));
            t.sessions == [Answered(DeletedPage)] + [l] && t.albums == s.albums - {album}
  {
  }

  lemma LoserAnswers(s: State, w: Session, l: Session)
    requires s.sessions == [w] + [l] && l.LostKnowing? && ConsumedBySame(l.current, l.user) && l.album !in s.albums
    ensures Next(s, ReadAlbum(1)).sessions[1] == Answered(DeletedPage)
  {
  }

  lemma FindAndDelete(s: State)
    ensures Exec(s, [FindUser(0)] + [DeleteAlbum(0, true)]) == Next(Next(s, FindUser(0)), DeleteAlbum(0, true))
  {
    ExecLast(s, [], FindUser(0));
    assert [] + [FindUser(0)] == [FindUser(0)];
    ExecLast(s, [FindUser(0)], DeleteAlbum(0, true));
  }

  /** From where one confirmation has won and the other lost. */
  lemma LateAnswer(s: State, w: Session, l: Session)
    requires s.sessions == [w] + [l] && w.Won? && l.Lost? && w.album == l.album
    requires w.user in s.users && w.album in s.albums && l.selector in s.rows
    requires ConsumedBySame(Some(s.rows[l.selector]), l.user)
    ensures var t := Exec(Next(s, ReadCapability(1)), [FindUser(0)] + [DeleteAlbum(0, true)]);
            |t.sessions| == 2 && Next(t, ReadAlbum(1)).sessions[1] == Answered(DeletedPage)
  {
    var first := Next(s, ReadCapability(1));
    var knowing := LostKnowing(Some(s.rows[l.selector]), l.album, l.user);
    LoserReads(s, w, l);
    FindAndDelete(first);
    WinnerIsFound(first, w, knowing);
    WinnerDeletes(Next(first, FindUser(0)), w.album, knowing);
    LoserAnswers(Next(Next(first, FindUser(0)), DeleteAlbum(0, true)), Answered(DeletedPage), knowing);
  }

  /** It does happen: two confirmations, the first of which deletes the album between the second one's reads. */
  lemma LatePageCanBeShown(selector: string, album: string, user: string, now: int, expires: int)
    requires now < expires
    ensures var two := Confirm(selector, album, user, now);
            var s := Exec(EMPTY, SetUp(selector, album, user, expires) + [two] + [two]);
            var t := Exec(Next(s, ReadCapability(1)), [FindUser(0)] + [DeleteAlbum(0, true)]);
            && |s.sessions| == 2 && s.sessions[1].Lost?
            && |t.sessions| == 2 && Next(t, ReadAlbum(1)).sessions[1] == Answered(DeletedPage)
  {
    var two := Confirm(selector, album, user, now);
    AfterTwo(selector, album, user, now, expires);
    LateAnswer(Exec(EMPTY, SetUp(selector, album, user, expires) + [two] + [two]), Won(0, album, user),
               Lost(selector, album, user));
  }
}
