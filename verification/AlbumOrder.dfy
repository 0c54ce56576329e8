/** The sparse positions of an album's media: appending, deleting, reordering, and renumbering when they get tight. */
module AlbumOrder {
  import opened Basics

  type Rows = map<string, int>  // media id to position

  datatype Item = Item(id: string, position: int)

  datatype OrderError = EmptyOrder | NotInAlbum(id: string) | Duplicate(id: string)

  /** The distances the renumbering test is about: no two positions are closer than 2. */
  predicate Gaps(rows: Rows) {
    forall a, b :: a in rows && b in rows && a != b ==> rows[a] - rows[b] >= 2 || rows[b] - rows[a] >= 2
  }

  predicate NoTies(rows: Rows) {
    forall a, b :: a in rows && b in rows && a != b ==> rows[a] != rows[b]
  }

  predicate Lists(items: seq<Item>, id: string) { exists i :: 0 <= i < |items| && items[i].id == id }

  /** What a query ordered by position may return: ties come in any order. */
  predicate IsListing(rows: Rows, items: seq<Item>) {
    && (forall id :: id in rows ==> Lists(items, id))
    && (forall i :: 0 <= i < |items| ==> items[i].id in rows && rows[items[i].id] == items[i].position)
    && (forall i, j :: 0 <= i < j < |items| ==> items[i].id != items[j].id && items[i].position <= items[j].position)
  }

  /** The rows after the given positions are written to those that exist. */
  function Merged(rows: Rows, positions: Rows): Rows {
    map id | id in rows :: if id in positions then positions[id] else rows[id]
  }

  /** Positions 1000, 2000, ... along a listing. */
  function Renumbered(items: seq<Item>): Rows {
    if items == [] then map[] else Renumbered(items[..|items| - 1])[items[|items| - 1].id := |items| * 1000]
  }

  /** The order payload as positions: the first entry that is unknown or repeated is the error. */
  function Validated(rows: Rows, order: seq<Item>): Result<Rows, OrderError> {
    if order == [] then Ok(map[])
    else match Validated(rows, order[..|order| - 1])
      case Err(e) => Err(e)
      case Ok(positions) =>
        var last := order[|order| - 1];
        if last.id !in rows then Err(NotInAlbum(last.id))
        else if last.id in positions then Err(Duplicate(last.id))
        else Ok(positions[last.id := last.position])
  }

  // ----- facts about listings -----

  lemma {:induction false} SomeMinimum(rows: Rows)
    requires rows != map[]
    ensures exists m :: m in rows && forall id :: id in rows ==> rows[m] <= rows[id]
    decreases |rows|
  {
    var a := Member(rows.Keys);
    var rest := rows - {a};
    var best := a;
    if rest != map[] {
      OneLess(rows, a);
      SomeMinimum(rest);
      var m :| m in rest && forall id :: id in rest ==> rest[m] <= rest[id];
      best := if rows[a] <= rows[m] then a else m;
    }
    forall id | id in rows ensures rows[best] <= rows[id] {
      assert id == a || (id in rest && rest[id] == rows[id]);
    }
  }

  /** Adding the largest at the end keeps a listing. */
  lemma ListingNext(done: Rows, items: seq<Item>, id: string, position: int)
    requires IsListing(done, items) && id !in done && forall d :: d in done ==> done[d] <= position
    ensures IsListing(done[id := position], items + [Item(id, position)])
  {
    var items' := items + [Item(id, position)];
    forall d | d in done[id := position] ensures Lists(items', d) {
      if d == id {
        assert items'[|items|].id == id;
      } else {
        var i :| 0 <= i < |items| && items[i].id == d;
        assert items'[i].id == d;
      }
    }
    forall i | 0 <= i < |items| ensures items[i].id != id && items[i].position <= position {
      assert items[i].id in done;
    }
  }

  /** In a listing every row has its place. */
  lemma PlaceOf(rows: Rows, items: seq<Item>, id: string) returns (i: nat)
    requires IsListing(rows, items) && id in rows
    ensures i < |items| && items[i] == Item(id, rows[id])
  {
    assert Lists(items, id);
    i :| i < |items| && items[i].id == id;
  }

  /** Without ties there is one listing. */
  lemma {:induction false} ListingIsUnique(rows: Rows, a: seq<Item>, b: seq<Item>)
    requires NoTies(rows) && IsListing(rows, a) && IsListing(rows, b)
    ensures a == b
    decreases |rows|
  {
    ListingIsEmpty(rows, a);
    ListingIsEmpty(rows, b);
    if rows != map[] {
      var last := SameLast(rows, a, b);
      ListingFront(rows, a);
      ListingFront(rows, b);
      NoTiesWithout(rows, last);
      ListingIsUnique(rows - {last}, a[..|a| - 1], b[..|b| - 1]);
      FrontAndLast(a, b);
    }
  }

  lemma NoTiesWithout(rows: Rows, id: string)
    requires NoTies(rows)
    ensures NoTies(rows - {id})
  {
  }

  lemma FrontAndLast<T>(a: seq<T>, b: seq<T>)
    requires a != [] && b != [] && a[..|a| - 1] == b[..|b| - 1] && a[|a| - 1] == b[|b| - 1]
    ensures a == b
  {
    assert a == a[..|a| - 1] + [a[|a| - 1]] && b == b[..|b| - 1] + [b[|b| - 1]];
  }

  lemma ListingIsEmpty(rows: Rows, items: seq<Item>)
    requires IsListing(rows, items)
    ensures items == [] <==> rows == map[]
  {
    if items != [] {
      assert items[0].id in rows;
    }
    forall id | id in rows ensures items != [] {
      var i := PlaceOf(rows, items, id);
    }
  }

  lemma SameLast(rows: Rows, a: seq<Item>, b: seq<Item>) returns (last: string)
    requires NoTies(rows) && IsListing(rows, a) && IsListing(rows, b) && a != [] && b != []
    ensures last in rows && a[|a| - 1] == b[|b| - 1] == Item(last, rows[last])
  {
    last := a[|a| - 1].id;
    LastIsLargest(rows, a);
    LastIsLargest(rows, b);
    assert b[|b| - 1].id in rows && last in rows;
  }

  lemma LastIsLargest(rows: Rows, items: seq<Item>)
    requires IsListing(rows, items) && items != []
    ensures forall id :: id in rows ==> rows[id] <= rows[items[|items| - 1].id]
  {
    forall id | id in rows ensures rows[id] <= rows[items[|items| - 1].id] {
      var i := PlaceOf(rows, items, id);
    }
  }

  lemma FrontLists(rows: Rows, items: seq<Item>, id: string)
    requires IsListing(rows, items) && items != [] && id in rows && id != items[|items| - 1].id
    ensures Lists(items[..|items| - 1], id)
  {
    var i := PlaceOf(rows, items, id);
    assert items[..|items| - 1][i].id == id;
  }

  lemma ListingFront(rows: Rows, items: seq<Item>)
    requires IsListing(rows, items) && items != []
    ensures IsListing(rows - {items[|items| - 1].id}, items[..|items| - 1])
    ensures |rows - {items[|items| - 1].id}| < |rows|
  {
    var last := items[|items| - 1].id;
    forall id | id in rows - {last} ensures Lists(items[..|items| - 1], id) {
      FrontLists(rows, items, id);
    }
    OneLess(rows, last);
  }

  // ----- renumbering -----

  /** The test over neighbours is the test over all pairs. */
  lemma NeighboursSuffice(rows: Rows, items: seq<Item>)
    requires IsListing(rows, items)
    ensures (forall i :: 0 < i < |items| ==> items[i].position - items[i - 1].position >= 2) <==> Gaps(rows)
  {
    if forall i :: 0 < i < |items| ==> items[i].position - items[i - 1].position >= 2 {
      forall a, b | a in rows && b in rows && a != b ensures rows[a] - rows[b] >= 2 || rows[b] - rows[a] >= 2 {
        var i := PlaceOf(rows, items, a);
        var j := PlaceOf(rows, items, b);
        if i < j { assert items[j - 1].position >= items[i].position; }
        if j < i { assert items[i - 1].position >= items[j].position; }
      }
    }
    if Gaps(rows) {
      forall i | 0 < i < |items| ensures items[i].position - items[i - 1].position >= 2 {
        assert items[i].id in rows && items[i - 1].id in rows;
      }
    }
  }

  lemma {:induction false} RenumberedAt(items: seq<Item>, i: nat)
    requires i < |items| && forall j, k :: 0 <= j < k < |items| ==> items[j].id != items[k].id
    ensures items[i].id in Renumbered(items) && Renumbered(items)[items[i].id] == (i + 1) * 1000
  {
    if i < |items| - 1 { RenumberedAt(items[..|items| - 1], i); }
  }

  lemma {:induction false} RenumberedIsListed(items: seq<Item>, id: string)
    requires id in Renumbered(items)
    ensures Lists(items, id)
  {
    var n := |items| - 1;
    if id == items[n].id {
    } else {
      RenumberedIsListed(items[..n], id);
      var i :| 0 <= i < n && items[..n][i].id == id;
      assert items[i].id == id;
    }
  }

  lemma RenumberedKeys(rows: Rows, items: seq<Item>)
    requires IsListing(rows, items)
    ensures Renumbered(items).Keys == rows.Keys && Merged(rows, Renumbered(items)) == Renumbered(items)
  {
    forall id ensures id in Renumbered(items) <==> id in rows {
      if id in rows {
        var i := PlaceOf(rows, items, id);
        RenumberedAt(items, i);
      }
      if id in Renumbered(items) {
        RenumberedIsListed(items, id);
      }
    }
  }

  /** Where a media of the listing ends up. */
  lemma RenumberedPlace(rows: Rows, items: seq<Item>, id: string) returns (i: nat)
    requires IsListing(rows, items) && id in rows
    ensures i < |items| && items[i] == Item(id, rows[id])
    ensures id in Renumbered(items) && Renumbered(items)[id] == (i + 1) * 1000
  {
    i := PlaceOf(rows, items, id);
    RenumberedAt(items, i);
  }

  lemma RenumberedGaps(rows: Rows, items: seq<Item>)
    requires IsListing(rows, items)
    ensures Gaps(Renumbered(items))
  {
    RenumberedKeys(rows, items);
    forall a, b | a in rows && b in rows && a != b
      ensures Renumbered(items)[a] - Renumbered(items)[b] >= 2 || Renumbered(items)[b] - Renumbered(items)[a] >= 2
    {
      var i := RenumberedPlace(rows, items, a);
      var j := RenumberedPlace(rows, items, b);
    }
  }

  /** What reordering promises of the rows it leaves: the same media, well spaced, in the order of the merged
      positions. */
  predicate Reordered(merged: Rows, after: Rows) {
    && after.Keys == merged.Keys
    && Gaps(after)
    && (forall a, b :: a in merged && b in merged && merged[a] < merged[b] ==> after[a] < after[b])
    && (Gaps(merged) ==> after == merged)
  }

  lemma RenumberedIsReordered(merged: Rows, items: seq<Item>)
    requires IsListing(merged, items) && !Gaps(merged)
    ensures Reordered(merged, Renumbered(items))
  {
    RenumberedKeys(merged, items);
    RenumberedGaps(merged, items);
    var after := Renumbered(items);
    forall a, b | a in merged && b in merged
      ensures merged[a] < merged[b] ==> after[a] < after[b]
    {
      var i := RenumberedPlace(merged, items, a);
      var j := RenumberedPlace(merged, items, b);
    }
  }

  function IdsOf(items: seq<Item>): (r: seq<string>)
    ensures |r| == |items| && forall i :: 0 <= i < |r| ==> r[i] == items[i].id
  {
    seq(|items|, i requires 0 <= i < |items| => items[i].id)
  }

  /** The same media with the positions of other rows. */
  function Placed(items: seq<Item>, rows: Rows): (r: seq<Item>)
    requires forall i :: 0 <= i < |items| ==> items[i].id in rows
    ensures |r| == |items| && forall i :: 0 <= i < |r| ==> r[i] == Item(items[i].id, rows[items[i].id])
  {
    seq(|items|, i requires 0 <= i < |items| => Item(items[i].id, rows[items[i].id]))
  }

  lemma PlacedInOrder(merged: Rows, after: Rows, items: seq<Item>, i: nat, j: nat)
    requires Reordered(merged, after) && IsListing(after, items) && i < j < |items|
    ensures items[i].id in merged && items[j].id in merged && merged[items[i].id] <= merged[items[j].id]
  {
    assert items[i].id in after && items[j].id in after;
  }

  lemma PlacedIsListing(merged: Rows, after: Rows, items: seq<Item>)
    requires Reordered(merged, after) && IsListing(after, items)
    ensures forall i :: 0 <= i < |items| ==> items[i].id in merged
    ensures IsListing(merged, Placed(items, merged))
  {
    assert forall i :: 0 <= i < |items| ==> items[i].id in after;
    var placed := Placed(items, merged);
    forall id | id in merged ensures Lists(placed, id) {
      var i := PlaceOf(after, items, id);
      assert placed[i].id == id;
    }
    forall i, j | 0 <= i < j < |placed|
      ensures placed[i].id != placed[j].id && placed[i].position <= placed[j].position
    {
      PlacedInOrder(merged, after, items, i, j);
    }
  }

  lemma PlacedIds(items: seq<Item>, rows: Rows)
    requires forall i :: 0 <= i < |items| ==> items[i].id in rows
    ensures IdsOf(Placed(items, rows)) == IdsOf(items)
  {
  }

  /** A listing by the positions asked for, and any other, if they make no ties. */
  lemma SameOrder(merged: Rows, items: seq<Item>, asked: seq<Item>)
    requires (forall i :: 0 <= i < |items| ==> items[i].id in merged) && IsListing(merged, Placed(items, merged))
    requires IsListing(merged, asked) && NoTies(merged)
    ensures IdsOf(items) == IdsOf(asked)
  {
    ListingIsUnique(merged, Placed(items, merged), asked);
    PlacedIds(items, merged);
  }

  /** What the album lists after a reordering, renumbered or not, is a listing by the positions asked for; and when
      those make no ties, it is the one there is. */
  lemma OrderIsTheMergedOrder(merged: Rows, after: Rows, items: seq<Item>, asked: seq<Item>)
    requires Reordered(merged, after) && IsListing(after, items) && IsListing(merged, asked)
    ensures forall i :: 0 <= i < |items| ==> items[i].id in merged
    ensures IsListing(merged, Placed(items, merged))
    ensures NoTies(merged) ==> IdsOf(items) == IdsOf(asked)
  {
    PlacedIsListing(merged, after, items);
    if NoTies(merged) { SameOrder(merged, items, asked); }
  }

  /** Every entry names a media of the album, and no media is named twice. */
  predicate WellFormed(rows: Rows, order: seq<Item>) {
    && (forall i :: 0 <= i < |order| ==> order[i].id in rows)
    && (forall i, j :: 0 <= i < j < |order| ==> order[i].id != order[j].id)
  }

  /** The positions are those of the entries. */
  predicate IsMapOf(positions: Rows, order: seq<Item>) {
    && (forall i :: 0 <= i < |order| ==> order[i].id in positions && positions[order[i].id] == order[i].position)
    && (forall id :: id in positions ==> Lists(order, id))
  }

  lemma WellFormedNext(rows: Rows, front: seq<Item>, last: Item)
    ensures WellFormed(rows, front + [last]) <==> WellFormed(rows, front) && last.id in rows && !Lists(front, last.id)
  {
    var order := front + [last];
    assert order[|front|] == last && forall i :: 0 <= i < |front| ==> order[i] == front[i];
    if WellFormed(rows, order) {
      forall i | 0 <= i < |front| ensures front[i].id != last.id && front[i].id in rows {
        assert order[i].id != order[|front|].id;
      }
      forall i, j | 0 <= i < j < |front| ensures front[i].id != front[j].id { assert order[i].id != order[j].id; }
    }
  }

  lemma ListsNext(front: seq<Item>, last: Item, id: string)
    ensures Lists(front + [last], id) <==> Lists(front, id) || id == last.id
  {
    var order := front + [last];
    if Lists(front, id) {
      var i :| 0 <= i < |front| && front[i].id == id;
      assert order[i].id == id;
    }
    if id == last.id { assert order[|front|].id == id; }
  }

  lemma MapNext(positions: Rows, front: seq<Item>, last: Item)
    requires IsMapOf(positions, front)
    ensures last.id in positions <==> Lists(front, last.id)
    ensures last.id !in positions ==> IsMapOf(positions[last.id := last.position], front + [last])
  {
    if last.id !in positions {
      forall id | id in positions[last.id := last.position] ensures Lists(front + [last], id) {
        ListsNext(front, last, id);
      }
    }
  }

  /** An order payload passes exactly when it is well formed, and then is the map of its entries. */
  lemma {:induction false} ValidatedExactly(rows: Rows, order: seq<Item>)
    ensures Validated(rows, order).Ok? <==> WellFormed(rows, order)
    ensures Validated(rows, order).Ok? ==> IsMapOf(Validated(rows, order).value, order)
  {
    if order == [] {
    } else {
      var front, last := order[..|order| - 1], order[|order| - 1];
      assert order == front + [last];
      ValidatedExactly(rows, front);
      WellFormedNext(rows, front, last);
      if Validated(rows, front).Ok? { MapNext(Validated(rows, front).value, front, last); }
    }
  }

  // ----- the album -----

  /** Halfway through a sort: what is done comes before what is left. */
  predicate Parted(rows: Rows, left: Rows, done: Rows) {
    && (forall id :: id in rows ==> id in left || id in done)
    && (forall id :: id in left ==> id !in done && id in rows && left[id] == rows[id])
    && (forall id :: id in done ==> id in rows && done[id] == rows[id])
    && (forall d, id :: d in done && id in left ==> done[d] <= left[id])
  }

  lemma PartedNext(rows: Rows, left: Rows, done: Rows, id: string)
    requires Parted(rows, left, done) && id in left && forall other :: other in left ==> left[id] <= left[other]
    ensures Parted(rows, left - {id}, done[id := left[id]])
    ensures id !in done && forall d :: d in done ==> done[d] <= left[id]
  {
  }

  lemma OneLess(rows: Rows, id: string)
    requires id in rows
    ensures |rows - {id}| < |rows|
  {
    assert rows.Keys == (rows - {id}).Keys + {id};
  }

  class Album {
    var rows: Rows

    constructor ()
      ensures rows == map[]
    {
      rows := map[];
    }

    /** SELECT ... ORDER BY position. */
    method ListMedia() returns (items: seq<Item>)
      ensures IsListing(rows, items)
    {
      items := [];
      ghost var done: Rows := map[];
      var left := rows;
      while left != map[]
        invariant Parted(rows, left, done) && IsListing(done, items)
        decreases |left|
      {
        SomeMinimum(left);
        var id :| id in left && forall other :: other in left ==> left[id] <= left[other];
        PartedNext(rows, left, done, id);
        OneLess(left, id);
        ListingNext(done, items, id, left[id]);
        items := items + [Item(id, left[id])];
        done := done[id := left[id]];
        left := left - {id};
      }
      assert done == rows;
    }

    /** create_media_with_next_position. An id that is taken violates the primary key. */
    method Append(id: string) returns (ok: bool)
      modifies this
      ensures ok <==> id !in old(rows)
      ensures !ok ==> rows == old(rows)
      ensures ok ==> exists position ::
                rows == old(rows)[id := position] && IsNextPosition(old(rows), position)
      ensures Step(old(rows), Appending(id), rows)
    {
      if id in rows {
        return false;
      }
      var position := 1000;
      var items := ListMedia();
      if items != [] {
        position := items[|items| - 1].position + 1000;
        LastIsLargest(rows, items);
        assert items[|items| - 1].id in rows;
      } else {
        ListingIsEmpty(rows, items);
      }
      assert IsNextPosition(rows, position);
      rows := rows[id := position];
      return true;
    }

    method Delete(id: string) returns (found: bool)
      modifies this
      ensures found <==> id in old(rows)
      ensures rows == old(rows) - {id}
      ensures Step(old(rows), Deleting(id), rows)
    {
      found := id in rows;
      rows := rows - {id};
    }

    /** update_media_positions, one UPDATE for each entry, then the query. */
    method UpdatePositions(positions: Rows) returns (items: seq<Item>)
      modifies this
      ensures rows == Merged(old(rows), positions)
      ensures IsListing(rows, items)
    {
      var left := positions.Keys;
      while left != {}
        invariant left <= positions.Keys && rows.Keys == old(rows).Keys
        invariant forall id :: id in rows ==>
                    rows[id] == if id in positions && id !in left then positions[id] else old(rows)[id]
        decreases left
      {
        ghost var some := Member(left);
        var id :| id in left;
        if id in rows {
          rows := rows[id := positions[id]];
        }
        left := left - {id};
      }
      items := ListMedia();
    }

    /** reorder_album. The error cases come first and change nothing. */
    method Reorder(order: seq<Item>) returns (r: Result<seq<Item>, OrderError>)
      modifies this
      ensures order == [] ==> r == Err(EmptyOrder)
      ensures order != [] && Validated(old(rows), order).Err? ==> r == Err(Validated(old(rows), order).error)
      ensures order != [] && Validated(old(rows), order).Ok? ==>
                r.Ok? && IsListing(rows, r.value)
                && Reordered(Merged(old(rows), Validated(old(rows), order).value), rows)
      ensures r.Err? ==> rows == old(rows)
      ensures Step(old(rows), Reordering(order), rows)
    {
      if order == [] {
        return Err(EmptyOrder);
      }
      var positions: Rows := map[];
      for i := 0 to |order|
        invariant Validated(rows, order[..i]) == Ok(positions)
        invariant rows == old(rows)
      {
        assert order[..i + 1][..i] == order[..i];
        if order[i].id !in rows {
          ErrorStays(rows, order, i + 1);
          return Err(NotInAlbum(order[i].id));
        }
        if order[i].id in positions {
          ErrorStays(rows, order, i + 1);
          return Err(Duplicate(order[i].id));
        }
        positions := positions[order[i].id := order[i].position];
      }
      assert order[..|order|] == order;
      var reordered := UpdatePositions(positions);
      ghost var merged := rows;
      NeighboursSuffice(merged, reordered);
      var tight := NeedsRebalance(reordered);
      if tight {
        RenumberedKeys(merged, reordered);
        RenumberedIsReordered(merged, reordered);
        reordered := UpdatePositions(Renumbered(reordered));
      }
      return Ok(reordered);
    }
  }

  lemma {:induction false} ErrorStays(rows: Rows, order: seq<Item>, i: nat)
    requires i <= |order| && Validated(rows, order[..i]).Err?
    ensures Validated(rows, order) == Validated(rows, order[..i])
    decreases |order|
  {
    if i == |order| {
      assert order[..i] == order;
    } else {
      assert order[..|order| - 1][..i] == order[..i];
      ErrorStays(rows, order[..|order| - 1], i);
    }
  }

  predicate IsNextPosition(rows: Rows, position: int) {
    if rows == map[] then position == 1000
    else
      && (exists id :: id in rows && position == rows[id] + 1000)
      && (forall id :: id in rows ==> rows[id] + 1000 <= position)
  }

  /** _needs_rebalance: some neighbours are closer than 2. */
  method NeedsRebalance(items: seq<Item>) returns (tight: bool)
    ensures tight <==> exists i :: 0 < i < |items| && items[i].position - items[i - 1].position < 2
  {
    var i := 1;
    while i < |items|
      invariant 1 <= i
      invariant forall j :: 0 < j < i && j < |items| ==> items[j].position - items[j - 1].position >= 2
    {
      if items[i].position - items[i - 1].position < 2 {
        return true;
      }
      i := i + 1;
    }
    return false;
  }

  // ----- runs -----

  datatype Operation = Appending(id: string) | Deleting(id: string) | Reordering(order: seq<Item>)

  /** What one call may do to the rows. */
  ghost predicate Step(before: Rows, op: Operation, after: Rows) {
    match op
    case Appending(id) =>
      if id in before then after == before
      else exists position :: IsNextPosition(before, position) && after == before[id := position]
    case Deleting(id) => after == before - {id}
    case Reordering(order) =>
      if order == [] || Validated(before, order).Err? then after == before
      else Reordered(Merged(before, Validated(before, order).value), after)
  }

  /** The states of a run that starts with an empty album. */
  ghost predicate Run(ops: seq<Operation>, states: seq<Rows>) {
    && |states| == |ops| + 1 && states[0] == map[]
    && forall i :: 0 <= i < |ops| ==> Step(states[i], ops[i], states[i + 1])
  }

  lemma StepKeepsGaps(before: Rows, op: Operation, after: Rows)
    requires Gaps(before) && Step(before, op, after)
    ensures Gaps(after)
  {
  }

  /** In every run, whatever positions are asked for, no two positions are ever closer than 2. */
  lemma {:induction false} GapsInEveryRun(ops: seq<Operation>, states: seq<Rows>, i: nat)
    requires Run(ops, states) && i < |states|
    ensures Gaps(states[i])
  {
    if i == 0 {
    } else {
      GapsInEveryRun(ops, states, i - 1);
      StepKeepsGaps(states[i - 1], ops[i - 1], states[i]);
    }
  }

  /** The pair is not named in a payload, and neither is taken away. */
  predicate LeavesAlone(op: Operation, a: string, b: string) {
    match op
    case Appending(_) => true
    case Deleting(id) => id != a && id != b
    case Reordering(order) => forall i :: 0 <= i < |order| ==> order[i].id != a && order[i].id != b
  }

  lemma NotNamed(positions: Rows, order: seq<Item>, id: string)
    requires IsMapOf(positions, order) && forall i :: 0 <= i < |order| ==> order[i].id != id
    ensures id !in positions
  {
  }

  lemma StepKeepsOrder(before: Rows, op: Operation, after: Rows, a: string, b: string)
    requires Gaps(before) && Step(before, op, after) && LeavesAlone(op, a, b)
    requires a in before && b in before && before[a] < before[b]
    ensures a in after && b in after && after[a] < after[b]
  {
    if op.Reordering? && op.order != [] && Validated(before, op.order).Ok? {
      var positions := Validated(before, op.order).value;
      ValidatedExactly(before, op.order);
      NotNamed(positions, op.order, a);
      NotNamed(positions, op.order, b);
      assert Merged(before, positions)[a] < Merged(before, positions)[b];
    }
  }

  /** Two media keep their order through every run of calls that do not name them. */
  lemma {:induction false} OrderIsStable(ops: seq<Operation>, states: seq<Rows>, i: nat, j: nat, a: string, b: string)
    requires Run(ops, states) && i <= j < |states|
    requires forall k :: i <= k < j ==> LeavesAlone(ops[k], a, b)
    requires a in states[i] && b in states[i] && states[i][a] < states[i][b]
    ensures a in states[j] && b in states[j] && states[j][a] < states[j][b]
  {
    if i < j {
      OrderIsStable(ops, states, i, j - 1, a, b);
      GapsInEveryRun(ops, states, j - 1);
      StepKeepsOrder(states[j - 1], ops[j - 1], states[j], a, b);
    }
  }

  /** A new media is listed last, after all that are there in their order. */
  lemma AppendedIsListedLast(before: Rows, id: string, after: Rows, items: seq<Item>)
    requires Gaps(before) && Step(before, Appending(id), after) && id !in before && IsListing(before, items)
    ensures IsListing(after, items + [Item(id, after[id])]) && Gaps(after)
  {
    ListingNext(before, items, id, after[id]);
  }

  lemma IdsNext(items: seq<Item>, it: Item)
    ensures IdsOf(items + [it]) == IdsOf(items) + [it.id]
  {
  }

  lemma IdsOfRun(before: seq<string>, ids: seq<string>, front: seq<Item>, last: Item)
    requires ids != [] && last.id == ids[|ids| - 1] && IdsOf(front) == before + ids[..|ids| - 1]
    ensures IdsOf(front + [last]) == before + ids
  {
    IdsNext(front, last);
    assert before + ids[..|ids| - 1] + [last.id] == before + ids;
  }

  /** A run of appends of new media. */
  ghost predicate Appends(ids: seq<string>, states: seq<Rows>) {
    && |states| == |ids| + 1
    && forall i :: 0 <= i < |ids| ==> ids[i] !in states[i] && Step(states[i], Appending(ids[i]), states[i + 1])
  }

  lemma AppendsFront(ids: seq<string>, states: seq<Rows>)
    requires Appends(ids, states) && ids != []
    ensures var n := |ids| - 1;
            && Appends(ids[..n], states[..n + 1]) && states[..n + 1][0] == states[0] && states[..n + 1][n] == states[n]
            && ids[n] !in states[n] && Step(states[n], Appending(ids[n]), states[n + 1])
  {
  }

  /** And it keeps its place: after any run of appends, the album lists what it listed before the run, and then the new
      media in the order they came. */
  lemma {:induction false} AppendsListInOrder(items: seq<Item>, ids: seq<string>, states: seq<Rows>)
    returns (listed: seq<Item>)
    requires Appends(ids, states) && Gaps(states[0]) && IsListing(states[0], items)
    ensures IsListing(states[|ids|], listed) && Gaps(states[|ids|])
    ensures IdsOf(listed) == IdsOf(items) + ids
  {
    if ids == [] {
      listed := items;
      assert IdsOf(items) + ids == IdsOf(items);
    } else {
      var n := |ids| - 1;
      AppendsFront(ids, states);
      var front := AppendsListInOrder(items, ids[..n], states[..n + 1]);
      var last := Item(ids[n], states[n + 1][ids[n]]);
      AppendedIsListedLast(states[n], ids[n], states[n + 1], front);
      listed := front + [last];
      IdsOfRun(IdsOf(items), ids, front, last);
    }
  }

  /** Rows with gaps have no ties, so no other listing. */
  lemma GapsListOnce(rows: Rows, a: seq<Item>, b: seq<Item>)
    requires Gaps(rows) && IsListing(rows, a) && IsListing(rows, b)
    ensures a == b
  {
    ListingIsUnique(rows, a, b);
  }

  // ----- two commands are not one -----

  /** Reordering writes twice. An append that falls between the two writes is not in the list that is renumbered: the
      gaps survive exactly when its position keeps away from the round numbers the others get. */
  lemma AppendBetweenWrites(merged: Rows, items: seq<Item>, id: string, position: int)
    requires IsListing(merged, items) && id !in merged
    ensures Gaps(Merged(merged[id := position], Renumbered(items)))
       <==> forall i :: 0 <= i < |items| ==> KeepsAway(position, i)
  {
    var last := Renumbered(items)[id := position];
    RenumberedKeys(merged, items);
    assert Merged(merged[id := position], Renumbered(items)) == last;
    if forall i :: 0 <= i < |items| ==> KeepsAway(position, i) {
      AwayKeepsGaps(merged, items, id, position);
    }
    if Gaps(last) {
      forall i | 0 <= i < |items| ensures KeepsAway(position, i) {
        RenumberedAt(items, i);
        assert items[i].id in last && id in last;
      }
    }
  }

  lemma AwayKeepsGaps(merged: Rows, items: seq<Item>, id: string, position: int)
    requires IsListing(merged, items) && id !in merged
    requires forall i :: 0 <= i < |items| ==> KeepsAway(position, i)
    ensures Gaps(Renumbered(items)[id := position])
  {
    RenumberedKeys(merged, items);
    RenumberedGaps(merged, items);
    forall a | a in merged ensures Renumbered(items)[a] - position >= 2 || position - Renumbered(items)[a] >= 2 {
      var i := RenumberedPlace(merged, items, a);
      assert KeepsAway(position, i);
    }
  }

  predicate KeepsAway(position: int, i: nat) {
    position - (i + 1) * 1000 >= 2 || (i + 1) * 1000 - position >= 2
  }

  /** So the gaps are not safe from a concurrent append: two media moved to 0 and 1, and a third appended at 1001. */
  lemma AppendBetweenWritesCanBreakTheGaps(merged: Rows, items: seq<Item>)
    requires merged == map["a" := 0, "b" := 1] && items == [Item("a", 0), Item("b", 1)]
    ensures IsListing(merged, items) && IsNextPosition(merged, 1001)
    ensures !Gaps(Merged(merged["c" := 1001], Renumbered(items)))
  {
    assert items[0].id == "a" && items[1].id == "b";
    assert merged["b"] + 1000 == 1001;
    AppendBetweenWrites(merged, items, "c", 1001);
    assert !KeepsAway(1001, 0);
  }
}
