/**
 * An append racing a reordering of the same album. An append reads the largest position and then inserts; a reordering
 * writes the positions asked for and, where they are too tight, writes again to renumber the media it listed. The
 * append holds a lock on the album's row, which a reordering does not ask for, so its commands come in between.
 */
module AlbumRaces {
  import opened Basics
  import opened AlbumOrder

  datatype Append = Unread | Chosen(position: int) | Inserted(position: int)

  /** A reordering before its first write, between its writes, and after its last. */
  datatype Reordering = Unwritten | Written | Settled

  /** The album before the race, the new media, and the positions asked for. */
  datatype Setup = Setup(before: Rows, id: string, positions: Rows)

  /** The rows, and of the first write: whether it saw the new media, the rows it left and how it listed them. */
  datatype Race = Race(rows: Rows, append: Append, reordering: Reordering, seen: bool, merged: Rows, items: seq<Item>)

  datatype Action = ReadMax(position: int) | Insert | Write(items: seq<Item>) | Renumber

  ghost predicate ValidSetup(c: Setup) {
    Gaps(c.before) && c.id !in c.before
  }

  predicate Enabled(c: Setup, s: Race, a: Action) {
    match a
    case ReadMax(position) => s.append.Unread? && IsNextPosition(s.rows, position)
    case Insert => s.append.Chosen?
    case Write(items) => s.reordering.Unwritten? && IsListing(Merged(s.rows, c.positions), items)
    case Renumber => s.reordering.Written?
  }

  function Next(c: Setup, s: Race, a: Action): Race {
    if !Enabled(c, s, a) then s
    else match a
      case ReadMax(position) => s.(append := Chosen(position))
      case Insert => s.(rows := s.rows[c.id := s.append.position], append := Inserted(s.append.position))
      case Write(items) =>
        var merged := Merged(s.rows, c.positions);
        Race(merged, s.append, if Gaps(merged) then Settled else Written, c.id in s.rows, merged, items)
      case Renumber => s.(rows := Merged(s.rows, Renumbered(s.items)), reordering := Settled)
  }

  function Exec(c: Setup, actions: seq<Action>): Race {
    if actions == [] then Race(c.before, Unread, Unwritten, false, map[], [])
    else Next(c, Exec(c, actions[..|actions| - 1]), actions[|actions| - 1])
  }

  /** Both are through. */
  predicate Over(s: Race) {
    s.append.Inserted? && s.reordering.Settled?
  }

  /** What the reordering makes of the media it saw. */
  function Left(merged: Rows, items: seq<Item>): Rows {
    if Gaps(merged) then merged else Renumbered(items)
  }

  // ----- invariants -----

  /** The rows, given those without the new media where the other party does not know of it. */
  predicate WithNew(c: Setup, s: Race, others: Rows) {
    s.rows == if s.append.Inserted? && !s.seen then others[c.id := s.append.position] else others
  }

  predicate Inv(c: Setup, s: Race) {
    && (c.id in s.rows <==> s.append.Inserted?)
    && match s.reordering
       case Unwritten =>
         && !s.seen && Gaps(s.rows) && WithNew(c, s, c.before)
         && (!s.append.Unread? ==> IsNextPosition(c.before, s.append.position))
       case Written =>
         IsListing(s.merged, s.items) && !Gaps(s.merged) && WithNew(c, s, s.merged) && SeenInv(c, s)
       case Settled =>
         IsListing(s.merged, s.items) && WithNew(c, s, Left(s.merged, s.items)) && SeenInv(c, s)
  }

  /** What the first write saw. */
  predicate SeenInv(c: Setup, s: Race) {
    && (c.id in s.merged <==> s.seen) && (s.seen ==> s.append.Inserted?)
    && (!s.seen ==> s.merged == Merged(c.before, c.positions))
  }

  lemma InsertKeepsGaps(before: Rows, id: string, position: int)
    requires Gaps(before) && id !in before && IsNextPosition(before, position)
    ensures Gaps(before[id := position])
  {
  }

  lemma ReadKeepsInv(c: Setup, s: Race, position: int)
    requires ValidSetup(c) && Inv(c, s)
    ensures Inv(c, Next(c, s, ReadMax(position)))
  {
  }

  lemma InsertKeepsInv(c: Setup, s: Race)
    requires ValidSetup(c) && Inv(c, s)
    ensures Inv(c, Next(c, s, Insert))
  {
    if s.append.Chosen? && s.reordering.Unwritten? {
      InsertKeepsGaps(c.before, c.id, s.append.position);
    }
  }

  lemma WriteKeepsInv(c: Setup, s: Race, items: seq<Item>)
    requires ValidSetup(c) && Inv(c, s)
    ensures Inv(c, Next(c, s, Write(items)))
  {
  }

  lemma RenumberWithNew(c: Setup, s: Race)
    requires IsListing(s.merged, s.items) && WithNew(c, s, s.merged) && SeenInv(c, s)
    ensures WithNew(c, s.(rows := Merged(s.rows, Renumbered(s.items))), Renumbered(s.items))
  {
    RenumberedKeys(s.merged, s.items);
  }

  lemma RenumberKeepsInv(c: Setup, s: Race)
    requires ValidSetup(c) && Inv(c, s)
    ensures Inv(c, Next(c, s, Renumber))
  {
    if s.reordering.Written? {
      RenumberWithNew(c, s);
      RenumberedKeys(s.merged, s.items);
    }
  }

  lemma {:induction false} InvInEveryRun(c: Setup, actions: seq<Action>)
    requires ValidSetup(c)
    ensures Inv(c, Exec(c, actions))
  {
    if actions == [] {
    } else {
      var s := Exec(c, actions[..|actions| - 1]);
      InvInEveryRun(c, actions[..|actions| - 1]);
      match actions[|actions| - 1]
      case ReadMax(position) => ReadKeepsInv(c, s, position);
      case Insert => InsertKeepsInv(c, s);
      case Write(items) => WriteKeepsInv(c, s, items);
      case Renumber => RenumberKeepsInv(c, s);
    }
  }

  // ----- when the gaps survive -----

  /** Some media is closer than 2. */
  predicate Collides(position: int, rows: Rows) {
    exists a :: a in rows && -2 < rows[a] - position < 2
  }

  lemma AddedKeepsGaps(rows: Rows, id: string, position: int)
    requires Gaps(rows) && id !in rows
    ensures Gaps(rows[id := position]) <==> !Collides(position, rows)
  {
    if Collides(position, rows) {
      var a :| a in rows && -2 < rows[a] - position < 2;
      assert a in rows[id := position] && id in rows[id := position];
    }
  }

  lemma LeftHasGaps(merged: Rows, items: seq<Item>)
    requires IsListing(merged, items)
    ensures Gaps(Left(merged, items)) && Left(merged, items).Keys == merged.Keys
  {
    RenumberedGaps(merged, items);
    RenumberedKeys(merged, items);
  }

  /** However the commands of one append and one reordering interleave: once both are through, the gaps have survived
      exactly when the first write saw the new media, or the position that the append had read is not next to one that
      the reordering gives to the others. */
  lemma GapsSurviveRaceIff(c: Setup, actions: seq<Action>)
    requires ValidSetup(c) && Over(Exec(c, actions))
    ensures var s := Exec(c, actions);
            Gaps(s.rows) <==> s.seen || !Collides(s.append.position, Left(s.merged, s.items))
  {
    var s := Exec(c, actions);
    InvInEveryRun(c, actions);
    LeftHasGaps(s.merged, s.items);
    if !s.seen { AddedKeepsGaps(Left(s.merged, s.items), c.id, s.append.position); }
  }

  /** What that position is next to, when the first write did not see the new media: the positions asked for, if they
      have the gaps, and otherwise the round numbers. */
  lemma CollisionExactly(c: Setup, actions: seq<Action>)
    requires ValidSetup(c) && Over(Exec(c, actions)) && !Exec(c, actions).seen
    ensures var s := Exec(c, actions);
            var asked := Merged(c.before, c.positions);
            && IsListing(asked, s.items)
            && (Gaps(asked) ==> Left(s.merged, s.items) == asked)
            && (!Gaps(asked) ==> (Collides(s.append.position, Left(s.merged, s.items))
                                  <==> exists i :: 0 <= i < |s.items| && !KeepsAway(s.append.position, i)))
  {
    var s := Exec(c, actions);
    InvInEveryRun(c, actions);
    if !Gaps(s.merged) { RoundCollision(s.merged, s.items, s.append.position); }
  }

  lemma RoundCollision(rows: Rows, items: seq<Item>, position: int)
    requires IsListing(rows, items)
    ensures Collides(position, Renumbered(items)) <==> exists i :: 0 <= i < |items| && !KeepsAway(position, i)
  {
    RenumberedKeys(rows, items);
    if Collides(position, Renumbered(items)) {
      var a :| a in Renumbered(items) && -2 < Renumbered(items)[a] - position < 2;
      var i := RenumberedPlace(rows, items, a);
      assert !KeepsAway(position, i);
    }
    if exists i :: 0 <= i < |items| && !KeepsAway(position, i) {
      var i :| 0 <= i < |items| && !KeepsAway(position, i);
      RenumberedAt(items, i);
      assert items[i].id in Renumbered(items);
    }
  }

  lemma ExecLast(c: Setup, before: seq<Action>, a: Action)
    ensures Exec(c, before + [a]) == Next(c, Exec(c, before), a)
  {
    assert (before + [a])[..|before|] == before;
  }

  /** No album is safe, and no renumbering is needed: while an append has read where to go, a reordering moves any one
      media there. */
  lemma EveryAlbumCanBreak(before: Rows, id: string, moved: string, position: int, items: seq<Item>)
    requires Gaps(before) && id !in before && moved in before && IsNextPosition(before, position)
    requires IsListing(Merged(before, map[moved := position]), items)
    ensures var c := Setup(before, id, map[moved := position]);
            var s := Exec(c, [ReadMax(position)] + [Write(items)] + [Insert]);
            Over(s) && moved in s.rows && id in s.rows && s.rows[moved] == s.rows[id] == position && !Gaps(s.rows)
  {
    var c := Setup(before, id, map[moved := position]);
    ExecLast(c, [], ReadMax(position));
    assert [] + [ReadMax(position)] == [ReadMax(position)];
    ExecLast(c, [ReadMax(position)], Write(items));
    ExecLast(c, [ReadMax(position)] + [Write(items)], Insert);
    MoveKeepsGaps(before, moved, position);
  }

  lemma MoveKeepsGaps(before: Rows, moved: string, position: int)
    requires Gaps(before) && moved in before && IsNextPosition(before, position)
    ensures Gaps(Merged(before, map[moved := position]))
  {
  }
}
