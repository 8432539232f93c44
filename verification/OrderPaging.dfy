/** Keyset paging over a store's orders, newest first, in both directions and with a cap on how far one can page. */
module OrderPaging {
  import opened Wrappers

  const PAGE_SIZE: nat := 8
  const REACHABLE_ORDER_CAP: nat := 200

  /** The sort key of an order; a number stands for the order id, ordered as the database orders it. */
  datatype Key = Key(created: int, id: nat)

  /** `a` comes before `b`: later creation first, and the larger id first among equals. */
  predicate Before(a: Key, b: Key) {
    a.created > b.created || (a.created == b.created && a.id > b.id)
  }

  /** A table of orders, listed in display order; ids make the keys distinct. */
  predicate Descending(s: seq<Key>) {
    forall i, j | 0 <= i < j < |s| :: Before(s[i], s[j])
  }

  datatype Direction = Current | Next | Previous

  datatype Cursor = Cursor(direction: Direction, boundary: Option<Key>, offset: int)

  const START := Cursor(Current, None, 0)

  // The query

  /** Those of the first `n` keys that come after the boundary, in order. */
  function After(s: seq<Key>, b: Key, n: nat): seq<Key>
    requires n <= |s|
    decreases n
  {
    if n == 0 then []
    else if Before(b, s[n - 1]) then After(s, b, n - 1) + [s[n - 1]]
    else After(s, b, n - 1)
  }

  function Ahead(s: seq<Key>, b: Key, n: nat): seq<Key>
    requires n <= |s|
    decreases n
  {
    if n == 0 then []
    else if Before(s[n - 1], b) then Ahead(s, b, n - 1) + [s[n - 1]]
    else Ahead(s, b, n - 1)
  }

  function Reversed(s: seq<Key>): seq<Key> {
    seq(|s|, i requires 0 <= i < |s| => s[|s| - 1 - i])
  }

  function Take(s: seq<Key>, n: nat): seq<Key> {
    if |s| <= n then s else s[..n]
  }

  /** `queryPage`: filtered by the boundary, in display order or, when moving back, in the opposite order. */
  function QueryPage(table: seq<Key>, direction: Direction, boundary: Option<Key>): seq<Key> {
    var rows :=
      if boundary.None? then table
      else if direction.Previous? then Ahead(table, boundary.value, |table|)
      else After(table, boundary.value, |table|);
    Take(if direction.Previous? then Reversed(rows) else rows, PAGE_SIZE + 1)
  }

  datatype Rendering = ContextChanged | Rendered(page: seq<Key>, next: Option<Cursor>, previous: Option<Cursor>,
                                                 back: Cursor)

  function ShownPage(records: seq<Key>, direction: Direction): seq<Key> {
    if direction.Previous? then Reversed(Take(records, PAGE_SIZE)) else Take(records, PAGE_SIZE)
  }

  /** The page with its links; `more` says whether the query returned a record beyond the page. */
  function Linked(c: Cursor, page: seq<Key>, more: bool): Rendering {
    var hasPrevious := c.offset > 0 && page != [];
    var hasNext := page != [] && c.offset + |page| < REACHABLE_ORDER_CAP && (c.direction.Previous? || more);
    Rendered(
      page,
      if hasNext then Some(Cursor(Next, Some(page[|page| - 1]), c.offset + |page|)) else None,
      if hasPrevious then
        Some(Cursor(Previous, Some(page[0]), if c.offset < PAGE_SIZE then 0 else c.offset - PAGE_SIZE))
      else None,
      c)
  }

  /** `list` for a cursor. */
  function Render(table: seq<Key>, c: Cursor): Rendering {
    if c.offset < 0 || c.offset >= REACHABLE_ORDER_CAP || (!c.direction.Current? && c.boundary.None?) then
      ContextChanged
    else
      var records := QueryPage(table, c.direction, c.boundary);
      Linked(c, ShownPage(records, c.direction), |records| > PAGE_SIZE)
  }

  // A table that does not change

  /** The page that starts at `offset`. */
  function PageAt(table: seq<Key>, offset: nat): seq<Key>
    requires offset <= |table|
  {
    Take(table[offset..], PAGE_SIZE)
  }

  /** A cursor that some links lead to: its boundary is the neighbour of the page it stands for. */
  predicate Reachable(table: seq<Key>, c: Cursor) {
    && 0 <= c.offset < REACHABLE_ORDER_CAP && c.offset % PAGE_SIZE == 0
    && match c.direction
       case Current => c.boundary.None? && c.offset == 0
       case Next => 0 < c.offset < |table| && c.boundary == Some(table[c.offset - 1])
       case Previous => c.offset + PAGE_SIZE < |table| && c.boundary == Some(table[c.offset + PAGE_SIZE])
  }

  lemma {:induction false} AfterAt(s: seq<Key>, i: nat, n: nat)
    requires Descending(s) && i < |s| && n <= |s|
    ensures After(s, s[i], n) == if n <= i then [] else s[i + 1..n]
    decreases n
  {
    if n > 0 {
      AfterAt(s, i, n - 1);
      if n - 1 < i {
        assert Before(s[n - 1], s[i]);
      } else if n - 1 > i {
        assert Before(s[i], s[n - 1]);
        assert s[i + 1..n] == s[i + 1..n - 1] + [s[n - 1]];
      }
    }
  }

  lemma {:induction false} AheadAt(s: seq<Key>, i: nat, n: nat)
    requires Descending(s) && i < |s| && n <= |s|
    ensures Ahead(s, s[i], n) == if n <= i then s[..n] else s[..i]
    decreases n
  {
    if n > 0 {
      AheadAt(s, i, n - 1);
      if n - 1 < i {
        assert Before(s[n - 1], s[i]);
        assert s[..n] == s[..n - 1] + [s[n - 1]];
      } else if n - 1 > i {
        assert Before(s[i], s[n - 1]);
      }
    }
  }

  lemma RecordsAt(table: seq<Key>, c: Cursor)
    requires Descending(table) && Reachable(table, c)
    ensures !c.direction.Previous? ==>
              && c.offset <= |table|
              && QueryPage(table, c.direction, c.boundary) == Take(table[c.offset..], PAGE_SIZE + 1)
    ensures c.direction.Previous? ==>
              QueryPage(table, c.direction, c.boundary) == Take(Reversed(table[..c.offset + PAGE_SIZE]), PAGE_SIZE + 1)
  {
    match c.direction
    case Current => assert table[0..] == table;
    case Next =>
      AfterAt(table, c.offset - 1, |table|);
      assert table[c.offset..|table|] == table[c.offset..];
    case Previous => AheadAt(table, c.offset + PAGE_SIZE, |table|);
  }

  lemma TakeReversed(rows: seq<Key>)
    requires |rows| >= PAGE_SIZE
    ensures Reversed(Take(Take(Reversed(rows), PAGE_SIZE + 1), PAGE_SIZE)) == rows[|rows| - PAGE_SIZE..]
  {
    var last := rows[|rows| - PAGE_SIZE..];
    var first := Take(Reversed(rows), PAGE_SIZE + 1);
    assert Take(first, PAGE_SIZE) == Reversed(rows)[..PAGE_SIZE];
    assert Reversed(rows)[..PAGE_SIZE] == Reversed(last);
  }

  lemma PageOfReachable(table: seq<Key>, c: Cursor)
    requires Descending(table) && Reachable(table, c)
    ensures c.offset <= |table|
    ensures ShownPage(QueryPage(table, c.direction, c.boundary), c.direction) == PageAt(table, c.offset)
    ensures c.direction.Previous? || |QueryPage(table, c.direction, c.boundary)| > PAGE_SIZE <==>
              c.offset + PAGE_SIZE < |table|
  {
    RecordsAt(table, c);
    if c.direction.Previous? {
      var rows := table[..c.offset + PAGE_SIZE];
      TakeReversed(rows);
      assert rows[c.offset..] == table[c.offset..c.offset + PAGE_SIZE] == Take(table[c.offset..], PAGE_SIZE);
    }
  }

  lemma LinksOfReachable(table: seq<Key>, c: Cursor, page: seq<Key>, more: bool)
    requires Reachable(table, c) && c.offset <= |table| && page == PageAt(table, c.offset)
    requires c.direction.Previous? || more <==> c.offset + PAGE_SIZE < |table|
    ensures var r := Linked(c, page, more);
            && (r.next.Some? <==> c.offset + PAGE_SIZE < |table| && c.offset + PAGE_SIZE < REACHABLE_ORDER_CAP)
            && (r.previous.Some? <==> c.offset > 0)
            && (r.next.Some? ==> Reachable(table, r.next.value) && r.next.value.offset == c.offset + PAGE_SIZE)
            && (r.previous.Some? ==>
                  Reachable(table, r.previous.value) && r.previous.value.offset == c.offset - PAGE_SIZE)
  {
  }

  /**
  Every reachable cursor renders the page at its offset, and its links are the neighbouring pages, present exactly
  when there is something to show within the cap.
  */
  lemma ReachableRenders(table: seq<Key>, c: Cursor)
    requires Descending(table) && Reachable(table, c)
    ensures var r := Render(table, c);
            && c.offset <= |table| && r.Rendered? && r.page == PageAt(table, c.offset)
            && (r.next.Some? <==> c.offset + PAGE_SIZE < |table| && c.offset + PAGE_SIZE < REACHABLE_ORDER_CAP)
            && (r.previous.Some? <==> c.offset > 0)
            && (r.next.Some? ==> Reachable(table, r.next.value) && r.next.value.offset == c.offset + PAGE_SIZE)
            && (r.previous.Some? ==>
                  Reachable(table, r.previous.value) && r.previous.value.offset == c.offset - PAGE_SIZE)
  {
    PageOfReachable(table, c);
    var records := QueryPage(table, c.direction, c.boundary);
    LinksOfReachable(table, c, ShownPage(records, c.direction), |records| > PAGE_SIZE);
  }

  datatype Move = GoNext | GoPrevious | GoBack

  /** Following a link of the rendered page; a link that is not there leaves the reader where they are. */
  function Follow(table: seq<Key>, c: Cursor, m: Move): Cursor {
    match Render(table, c)
    case ContextChanged => c
    case Rendered(_, next, previous, back) =>
      match m
      case GoNext => if next.Some? then next.value else c
      case GoPrevious => if previous.Some? then previous.value else c
      case GoBack => back
  }

  function Walk(table: seq<Key>, c: Cursor, moves: seq<Move>): Cursor
    decreases |moves|
  {
    if moves == [] then c else Walk(table, Follow(table, c, moves[0]), moves[1..])
  }

  lemma {:induction false} WalkStaysReachable(table: seq<Key>, c: Cursor, moves: seq<Move>)
    requires Descending(table) && Reachable(table, c)
    ensures Reachable(table, Walk(table, c, moves))
    decreases |moves|
  {
    if moves != [] {
      ReachableRenders(table, c);
      WalkStaysReachable(table, Follow(table, c, moves[0]), moves[1..]);
    }
  }

  /** Whatever links are followed, the page shown is the page at the cursor's offset. */
  lemma AnyWalkRenders(table: seq<Key>, moves: seq<Move>)
    requires Descending(table)
    ensures var c := Walk(table, START, moves);
            0 <= c.offset <= |table| && Render(table, c).Rendered? && Render(table, c).page == PageAt(table, c.offset)
  {
    WalkStaysReachable(table, START, moves);
    ReachableRenders(table, Walk(table, START, moves));
  }

  /** Next and then previous, or previous and then next, shows the same page again; so does the back cursor. */
  lemma ThereAndBack(table: seq<Key>, c: Cursor)
    requires Descending(table) && Reachable(table, c)
    ensures var r := Render(table, c);
            && r.Rendered? && Render(table, r.back) == r
            && (r.next.Some? ==> Shows(table, Follow(table, r.next.value, GoPrevious), r.page))
            && (r.previous.Some? ==> Shows(table, Follow(table, r.previous.value, GoNext), r.page))
  {
    ReachableRenders(table, c);
    var r := Render(table, c);
    if r.next.Some? {
      NeighbourShows(table, c, r.next.value, GoPrevious);
    }
    if r.previous.Some? {
      NeighbourShows(table, c, r.previous.value, GoNext);
    }
  }

  predicate Shows(table: seq<Key>, c: Cursor, page: seq<Key>) {
    Render(table, c).Rendered? && Render(table, c).page == page
  }

  lemma NeighbourShows(table: seq<Key>, c: Cursor, d: Cursor, m: Move)
    requires Descending(table) && Reachable(table, c) && Reachable(table, d)
    requires (m.GoPrevious? && d.offset == c.offset + PAGE_SIZE)
             || (m.GoNext? && d.offset + PAGE_SIZE == c.offset && c.offset < |table|)
    ensures Shows(table, Follow(table, d, m), Render(table, c).page)
  {
    ReachableRenders(table, c);
    ReachableRenders(table, d);
    ReachableRenders(table, Follow(table, d, m));
  }

  /** All the pages from a cursor on, following next links. */
  function Listing(table: seq<Key>, c: Cursor): seq<Key>
    decreases REACHABLE_ORDER_CAP - c.offset
  {
    match Render(table, c)
    case ContextChanged => []
    case Rendered(page, next, _, _) => if next.None? then page else page + Listing(table, next.value)
  }

  /** How much of a table can be reached. */
  function Reach(table: seq<Key>): nat {
    if |table| < REACHABLE_ORDER_CAP then |table| else REACHABLE_ORDER_CAP
  }

  lemma PageThenRest(table: seq<Key>, offset: nat)
    requires offset <= Reach(table)
    ensures offset % PAGE_SIZE == 0 && offset + PAGE_SIZE < Reach(table) ==>
              table[offset..Reach(table)] == PageAt(table, offset) + table[offset + PAGE_SIZE..Reach(table)]
    ensures offset % PAGE_SIZE == 0 && offset + PAGE_SIZE >= Reach(table) && offset < REACHABLE_ORDER_CAP ==>
              PageAt(table, offset) == table[offset..Reach(table)]
  {
  }

  lemma {:induction false} ListingFrom(table: seq<Key>, c: Cursor)
    requires Descending(table) && Reachable(table, c)
    ensures c.offset <= Reach(table) && Listing(table, c) == table[c.offset..Reach(table)]
    decreases REACHABLE_ORDER_CAP - c.offset
  {
    ReachableRenders(table, c);
    PageThenRest(table, c.offset);
    var r := Render(table, c);
    if r.next.Some? {
      ListingFrom(table, r.next.value);
    }
  }

  /** Next links list exactly the first orders up to the cap, with no gap and no repeat. */
  lemma ListsTheFirst(table: seq<Key>)
    requires Descending(table)
    ensures Listing(table, START) == table[..Reach(table)]
  {
    ListingFrom(table, START);
  }

  // A table that changes between pages

  lemma {:induction false} AfterKeeps(s: seq<Key>, b: Key, n: nat)
    requires n <= |s| && Descending(s)
    ensures forall i | 0 <= i < |After(s, b, n)| :: Before(b, After(s, b, n)[i])
    ensures Descending(After(s, b, n))
    ensures forall i | 0 <= i < |After(s, b, n)| :: exists j :: 0 <= j < n && s[j] == After(s, b, n)[i]
    decreases n
  {
    if n > 0 {
      AfterKeeps(s, b, n - 1);
      var init := After(s, b, n - 1);
      forall i | 0 <= i < |init|
        ensures Before(init[i], s[n - 1])
      {
        var j :| 0 <= j < n - 1 && s[j] == init[i];
      }
      if Before(b, s[n - 1]) {
        forall i | 0 <= i < |After(s, b, n)|
          ensures exists j :: 0 <= j < n && s[j] == After(s, b, n)[i]
        {
          if i == |init| {
            assert s[n - 1] == After(s, b, n)[i];
          } else {
            var j :| 0 <= j < n - 1 && s[j] == init[i];
          }
        }
      }
    }
  }

  /** The pages that following next links shows when the table is another one each time. */
  function NextListing(tables: seq<seq<Key>>, c: Cursor): seq<Key>
    decreases |tables|
  {
    if tables == [] then []
    else match Render(tables[0], c)
      case ContextChanged => []
      case Rendered(page, next, _, _) => if next.None? then page else page + NextListing(tables[1..], next.value)
  }

  /** A cursor reached by next links only. */
  predicate Forward(c: Cursor) {
    && 0 <= c.offset <= REACHABLE_ORDER_CAP && c.offset % PAGE_SIZE == 0
    && (c == START || (c.direction.Next? && c.boundary.Some?))
  }

  /** What a page reached by next links promises. */
  predicate ForwardRendering(c: Cursor, r: Rendering) {
    r.Rendered? ==>
      && Descending(r.page) && |r.page| <= PAGE_SIZE
      && (c.boundary.Some? ==> forall i | 0 <= i < |r.page| :: Before(c.boundary.value, r.page[i]))
      && (r.next.Some? ==>
            && |r.page| == PAGE_SIZE && Forward(r.next.value)
            && r.next.value.boundary == Some(r.page[|r.page| - 1]) && r.next.value.offset == c.offset + PAGE_SIZE)
  }

  lemma ForwardPage(table: seq<Key>, c: Cursor)
    requires Descending(table) && Forward(c)
    ensures ForwardRendering(c, Render(table, c))
  {
    if c.boundary.Some? {
      AfterKeeps(table, c.boundary.value, |table|);
    }
    var records := QueryPage(table, c.direction, c.boundary);
    assert Descending(records) && |records| <= PAGE_SIZE + 1;
    assert c.boundary.Some? ==> forall i | 0 <= i < |records| :: Before(c.boundary.value, records[i]);
    if c.offset < REACHABLE_ORDER_CAP {
      ForwardLinks(c, records);
    }
  }

  lemma ForwardLinks(c: Cursor, records: seq<Key>)
    requires Descending(records) && Forward(c) && c.offset < REACHABLE_ORDER_CAP
    requires c.boundary.Some? ==> forall i | 0 <= i < |records| :: Before(c.boundary.value, records[i])
    ensures ForwardRendering(c, Linked(c, ShownPage(records, c.direction), |records| > PAGE_SIZE))
  {
  }

  /** Even if orders come and go meanwhile, next links never go back, never repeat an order, and stop at the cap. */
  lemma {:induction false} NextNeverRepeats(tables: seq<seq<Key>>, c: Cursor)
    requires Forward(c) && forall t | t in tables :: Descending(t)
    ensures Descending(NextListing(tables, c)) && |NextListing(tables, c)| <= REACHABLE_ORDER_CAP - c.offset
    ensures c.boundary.Some? ==> forall i | 0 <= i < |NextListing(tables, c)| ::
              Before(c.boundary.value, NextListing(tables, c)[i])
    decreases |tables|
  {
    if tables != [] && Render(tables[0], c).Rendered? {
      ForwardPage(tables[0], c);
      var r := Render(tables[0], c);
      if r.next.Some? {
        NextNeverRepeats(tables[1..], r.next.value);
        var rest := NextListing(tables[1..], r.next.value);
        var last := r.page[|r.page| - 1];
        forall i, j | 0 <= i < |r.page| && 0 <= j < |rest|
          ensures Before(r.page[i], rest[j])
        {
          assert Before(last, rest[j]);
        }
      }
    }
  }

  /** What is listed comes newest first, and among orders of one time the larger id first, across all pages. */
  lemma NewestFirst(tables: seq<seq<Key>>, i: nat, j: nat)
    requires forall t | t in tables :: Descending(t)
    requires i < j < |NextListing(tables, START)|
    ensures var a, b := NextListing(tables, START)[i], NextListing(tables, START)[j];
            b.created < a.created || (b.created == a.created && b.id < a.id)
  {
    NextNeverRepeats(tables, START);
    assert Before(NextListing(tables, START)[i], NextListing(tables, START)[j]);
  }

  /** The order by which pages are asked for: by time, then by id, backwards; any two orders are comparable. */
  lemma BeforeMeans(a: Key, b: Key)
    ensures Before(a, b) <==> a.created >= b.created && (a.created == b.created ==> a.id > b.id)
    ensures a != b ==> (Before(a, b) <==> !Before(b, a))
  {
  }
}
