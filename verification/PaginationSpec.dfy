/**
 Cursor pagination over a table ordered by id. A cursor is the id of a row; zero stands for no
 cursor, since ids start at one.
 */
module PaginationSpec {
  import opened Common

  datatype Row = Row(id: nat, name: string, verified: bool)

  ghost predicate Ordered(rows: seq<Row>) {
    && (forall i :: 0 <= i < |rows| ==> 0 < rows[i].id)
    && (forall i, j :: 0 <= i < j < |rows| ==> rows[i].id < rows[j].id)
  }

  // ----- queries -----

  predicate Selected(r: Row, status: string) {
    status == "" || r.verified == (status == "active" || status == "verified")
  }

  function Filter(rows: seq<Row>, status: string): seq<Row> {
    if rows == [] then []
    else (if Selected(rows[0], status) then [rows[0]] else []) + Filter(rows[1..], status)
  }

  predicate Inside(r: Row, after: nat, before: nat) {
    r.id > after && (before == 0 || r.id < before)
  }

  /** The rows strictly between the two cursors. */
  function Between(rows: seq<Row>, after: nat, before: nat): seq<Row> {
    if rows == [] then []
    else (if Inside(rows[0], after, before) then [rows[0]] else []) + Between(rows[1..], after, before)
  }

  function Reverse(s: seq<Row>): seq<Row> {
    seq(|s|, i requires 0 <= i < |s| => s[|s| - 1 - i])
  }

  function Take(s: seq<Row>, n: nat): seq<Row> {
    if |s| <= n then s else s[..n]
  }

  /** The last rows of a list, in the list's order. */
  function TakeLast(s: seq<Row>, n: nat): seq<Row> {
    if |s| <= n then s else s[|s| - n..]
  }

  /** What the database returns: rows between the cursors, in the direction's order, up to `n`. */
  function Fetch(rows: seq<Row>, after: nat, before: nat, forward: bool, n: nat): seq<Row> {
    var s := Between(rows, after, before);
    Take(if forward then s else Reverse(s), n)
  }

  // ----- one page -----

  datatype Page = Page(edges: seq<Row>, hasNext: bool, hasPrev: bool, startId: nat, endId: nat, total: nat)

  /** The rows of a page, ascending, from the rows fetched for it. */
  function Edges(fetched: seq<Row>, limit: nat, forward: bool): seq<Row> {
    var kept := Take(fetched, limit);
    if forward then kept else Reverse(kept)
  }

  function WithFlags(edges: seq<Row>, more: bool, after: nat, before: nat, forward: bool, total: nat): Page {
    if edges == [] then Page([], false, false, 0, 0, total)
    else Page(edges,
              if forward then more else before > 0,
              if forward then after > 0 else more,
              edges[0].id, edges[|edges| - 1].id, total)
  }

  /** Fetch one row too many, trim it, and put the page in ascending order. */
  function PageOf(rows: seq<Row>, limit: nat, after: nat, before: nat, forward: bool): Page {
    var fetched := Fetch(rows, after, before, forward, limit + 1);
    WithFlags(Edges(fetched, limit, forward), |fetched| > limit, after, before, forward, |rows|)
  }

  lemma ReverseOfTaken(s: seq<Row>, n: nat)
    requires n <= |s|
    ensures Reverse(Reverse(s)[..n]) == s[|s| - n..]
  {
  }

  lemma {:induction false} ForwardContents(rows: seq<Row>, limit: nat, after: nat, before: nat)
    ensures PageOf(rows, limit, after, before, true).edges == Take(Between(rows, after, before), limit)
  {
    var s := Between(rows, after, before);
    if |s| > limit {
      assert s[..limit + 1][..limit] == s[..limit];
    }
  }

  /** The first rows of a reversed list, reversed back, are the list's last rows. */
  lemma LastRows(s: seq<Row>, limit: nat)
    ensures Edges(Take(Reverse(s), limit + 1), limit, false) == TakeLast(s, limit)
  {
    var back := Reverse(s);
    if |s| > limit {
      assert Take(Take(back, limit + 1), limit) == back[..limit];
      ReverseOfTaken(s, limit);
    } else {
      assert back[..|s|] == back;
      ReverseOfTaken(s, |s|);
    }
  }

  lemma {:induction false} BackwardContents(rows: seq<Row>, limit: nat, after: nat, before: nat)
    ensures PageOf(rows, limit, after, before, false).edges == TakeLast(Between(rows, after, before), limit)
  {
    LastRows(Between(rows, after, before), limit);
  }

  /** A forward page is the first rows between the cursors, a backward page the last ones. */
  lemma {:induction false} PageContents(rows: seq<Row>, limit: nat, after: nat, before: nat, forward: bool)
    ensures var s := Between(rows, after, before);
            PageOf(rows, limit, after, before, forward).edges
              == if forward then Take(s, limit) else TakeLast(s, limit)
  {
    if forward {
      ForwardContents(rows, limit, after, before);
    } else {
      BackwardContents(rows, limit, after, before);
    }
  }

  // ----- rows between cursors -----

  lemma {:induction false} BetweenOrdered(rows: seq<Row>, after: nat, before: nat)
    requires Ordered(rows)
    ensures var s := Between(rows, after, before);
            && Ordered(s)
            && forall i :: 0 <= i < |s| ==> s[i] in rows && Inside(s[i], after, before)
  {
    if rows != [] {
      BetweenOrdered(rows[1..], after, before);
      var t := Between(rows[1..], after, before);
      assert forall i :: 0 <= i < |t| ==> t[i] in rows[1..];
    }
  }

  lemma {:induction false} AllInside(rows: seq<Row>, after: nat, before: nat)
    requires forall i :: 0 <= i < |rows| ==> Inside(rows[i], after, before)
    ensures Between(rows, after, before) == rows
  {
    if rows != [] {
      AllInside(rows[1..], after, before);
    }
  }

  lemma {:induction false} NoneInside(rows: seq<Row>, after: nat, before: nat)
    requires forall i :: 0 <= i < |rows| ==> !Inside(rows[i], after, before)
    ensures Between(rows, after, before) == []
  {
    if rows != [] {
      NoneInside(rows[1..], after, before);
    }
  }

  lemma {:induction false} BetweenSplit(s: seq<Row>, t: seq<Row>, after: nat, before: nat)
    ensures Between(s + t, after, before) == Between(s, after, before) + Between(t, after, before)
  {
    if s == [] {
      assert s + t == t;
    } else {
      var head := if Inside(s[0], after, before) then [s[0]] else [];
      var rest, last := Between(s[1..], after, before), Between(t, after, before);
      assert (s + t)[1..] == s[1..] + t;
      BetweenSplit(s[1..], t, after, before);
      assert head + (rest + last) == (head + rest) + last;
    }
  }

  lemma {:induction false} MiddleInside(rows: seq<Row>, p: nat, q: nat, after: nat, before: nat)
    requires p <= q <= |rows|
    requires forall i :: 0 <= i < p || q <= i < |rows| ==> !Inside(rows[i], after, before)
    requires forall i :: p <= i < q ==> Inside(rows[i], after, before)
    ensures Between(rows, after, before) == rows[p..q]
  {
    var head, middle, tail := rows[..p], rows[p..q], rows[q..];
    assert rows == head + (middle + tail);
    BetweenSplit(head, middle + tail, after, before);
    BetweenSplit(middle, tail, after, before);
    NoneInside(head, after, before);
    AllInside(middle, after, before);
    NoneInside(tail, after, before);
  }

  lemma {:induction false} BetweenTwice(rows: seq<Row>, after: nat, before: nat, after': nat, before': nat)
    requires after <= after' && (before == 0 || 0 < before' <= before)
    ensures Between(Between(rows, after, before), after', before') == Between(rows, after', before')
  {
    if rows != [] {
      var head, rest := rows[0], Between(rows[1..], after, before);
      BetweenTwice(rows[1..], after, before, after', before');
      if Inside(head, after, before) {
        BetweenSplit([head], rest, after', before');
        assert Between([head][1..], after', before') == [];
      } else {
        assert [] + rest == rest;
      }
    }
  }

  lemma {:induction false} TailBehind(s: seq<Row>, after: nat, before: nat, k: nat)
    requires Ordered(s) && k < |s| && forall i :: 0 <= i < |s| ==> Inside(s[i], after, before)
    ensures Between(s, s[k].id, before) == s[k + 1..]
  {
    MiddleInside(s, k + 1, |s|, s[k].id, before);
  }

  /** Moving the first cursor to the row at `k` leaves exactly the rows behind it. */
  lemma {:induction false} RowsAfter(rows: seq<Row>, after: nat, before: nat, k: nat)
    requires Ordered(rows) && k < |Between(rows, after, before)|
    ensures var s := Between(rows, after, before); Between(rows, s[k].id, before) == s[k + 1..]
  {
    var s := Between(rows, after, before);
    BetweenOrdered(rows, after, before);
    BetweenTwice(rows, after, before, s[k].id, before);
    TailBehind(s, after, before, k);
  }

  /** Moving the second cursor to the row at `k` leaves exactly the rows before it. */
  lemma {:induction false} RowsBefore(rows: seq<Row>, after: nat, before: nat, k: nat)
    requires Ordered(rows) && k < |Between(rows, after, before)|
    ensures var s := Between(rows, after, before); Between(rows, after, s[k].id) == s[..k]
  {
    var s := Between(rows, after, before);
    BetweenOrdered(rows, after, before);
    BetweenTwice(rows, after, before, after, s[k].id);
    MiddleInside(s, 0, k, after, s[k].id);
  }

  lemma {:induction false} FilterOrdered(rows: seq<Row>, status: string)
    requires Ordered(rows)
    ensures var s := Filter(rows, status);
            Ordered(s) && forall i :: 0 <= i < |s| ==> s[i] in rows
  {
    if rows != [] {
      FilterOrdered(rows[1..], status);
      var t := Filter(rows[1..], status);
      assert forall i :: 0 <= i < |t| ==> t[i] in rows[1..];
    }
  }

  // ----- the page flags -----

  /** On a non-empty forward page, "has next" is true exactly when rows remain behind it. */
  lemma {:induction false} NextFlagExact(rows: seq<Row>, limit: nat, after: nat, before: nat)
    requires Ordered(rows) && 0 < limit
    ensures var page := PageOf(rows, limit, after, before, true);
            && (page.edges == [] <==> Between(rows, after, before) == [])
            && (page.hasNext <==> page.edges != [] && Between(rows, page.endId, before) != [])
  {
    var s, page := Between(rows, after, before), PageOf(rows, limit, after, before, true);
    PageContents(rows, limit, after, before, true);
    if s != [] {
      RowsAfter(rows, after, before, |page.edges| - 1);
    }
  }

  /** On a non-empty backward page, "has previous" is true exactly when rows remain before it. */
  lemma {:induction false} PrevFlagExact(rows: seq<Row>, limit: nat, after: nat, before: nat)
    requires Ordered(rows) && 0 < limit
    ensures var page := PageOf(rows, limit, after, before, false);
            && (page.edges == [] <==> Between(rows, after, before) == [])
            && (page.hasPrev <==> page.edges != [] && Between(rows, after, page.startId) != [])
  {
    var s, page := Between(rows, after, before), PageOf(rows, limit, after, before, false);
    PageContents(rows, limit, after, before, false);
    if s != [] {
      RowsBefore(rows, after, before, |s| - |page.edges|);
    }
  }

  // ----- walks -----

  /** Follow end cursors while "has next" is set. */
  function WalkForward(rows: seq<Row>, limit: nat, after: nat, before: nat): seq<Row>
    requires Ordered(rows) && 0 < limit
    decreases |Between(rows, after, before)|
  {
    var page := PageOf(rows, limit, after, before, true);
    if !page.hasNext then page.edges
    else
      ForwardPageSplits(rows, limit, after, before);
      page.edges + WalkForward(rows, limit, page.endId, before)
  }

  /** Follow start cursors while "has previous" is set. */
  function WalkBackward(rows: seq<Row>, limit: nat, after: nat, before: nat): seq<Row>
    requires Ordered(rows) && 0 < limit
    decreases |Between(rows, after, before)|
  {
    var page := PageOf(rows, limit, after, before, false);
    if !page.hasPrev then page.edges
    else
      BackwardPageSplits(rows, limit, after, before);
      WalkBackward(rows, limit, after, page.startId) + page.edges
  }

  /** A page and the rows behind it make up the rows between the cursors. */
  lemma {:induction false} ForwardPageSplits(rows: seq<Row>, limit: nat, after: nat, before: nat)
    requires Ordered(rows) && 0 < limit && PageOf(rows, limit, after, before, true).hasNext
    ensures var page := PageOf(rows, limit, after, before, true);
            && page.edges + Between(rows, page.endId, before) == Between(rows, after, before)
            && |Between(rows, page.endId, before)| < |Between(rows, after, before)|
  {
    var s, page := Between(rows, after, before), PageOf(rows, limit, after, before, true);
    ForwardContents(rows, limit, after, before);
    RowsAfter(rows, after, before, |page.edges| - 1);
    assert s[..|page.edges|] + s[|page.edges|..] == s;
  }

  /** The rows before a page and the page make up the rows between the cursors. */
  lemma {:induction false} BackwardPageSplits(rows: seq<Row>, limit: nat, after: nat, before: nat)
    requires Ordered(rows) && 0 < limit && PageOf(rows, limit, after, before, false).hasPrev
    ensures var page := PageOf(rows, limit, after, before, false);
            && Between(rows, after, page.startId) + page.edges == Between(rows, after, before)
            && |Between(rows, after, page.startId)| < |Between(rows, after, before)|
  {
    var s, page := Between(rows, after, before), PageOf(rows, limit, after, before, false);
    BackwardContents(rows, limit, after, before);
    var k := |s| - |page.edges|;
    RowsBefore(rows, after, before, k);
    assert s[..k] + s[k..] == s;
  }

  /** Walking forward yields every row between the cursors once, in order. */
  lemma {:induction false} ForwardWalkIsComplete(rows: seq<Row>, limit: nat, after: nat, before: nat)
    requires Ordered(rows) && 0 < limit
    ensures WalkForward(rows, limit, after, before) == Between(rows, after, before)
    decreases |Between(rows, after, before)|
  {
    var page := PageOf(rows, limit, after, before, true);
    ForwardContents(rows, limit, after, before);
    if page.hasNext {
      ForwardPageSplits(rows, limit, after, before);
      ForwardWalkIsComplete(rows, limit, page.endId, before);
    }
  }

  /** Walking backward yields every row between the cursors once, in order. */
  lemma {:induction false} BackwardWalkIsComplete(rows: seq<Row>, limit: nat, after: nat, before: nat)
    requires Ordered(rows) && 0 < limit
    ensures WalkBackward(rows, limit, after, before) == Between(rows, after, before)
    decreases |Between(rows, after, before)|
  {
    var page := PageOf(rows, limit, after, before, false);
    BackwardContents(rows, limit, after, before);
    if page.hasPrev {
      BackwardPageSplits(rows, limit, after, before);
      BackwardWalkIsComplete(rows, limit, after, page.startId);
    }
  }

  /** Both walks over a filtered table, from either end, give the filtered table. */
  lemma {:induction false} WalksReproduceTable(rows: seq<Row>, status: string, limit: nat)
    requires Ordered(rows) && 0 < limit
    ensures var s := Filter(rows, status);
            && Ordered(s)
            && WalkForward(s, limit, 0, 0) == s
            && WalkBackward(s, limit, 0, 0) == s
  {
    var s := Filter(rows, status);
    FilterOrdered(rows, status);
    ForwardWalkIsComplete(s, limit, 0, 0);
    BackwardWalkIsComplete(s, limit, 0, 0);
    AllInside(s, 0, 0);
  }

  // ----- arguments -----

  /** A cursor argument: not given, not decodable, or the id it decodes to. */
  datatype Cursor = NoCursor | Malformed | At(id: nat)

  datatype Args = Args(limit: nat, after: nat, before: nat, forward: bool)

  const DEFAULT_PAGE_SIZE := 20
  const MAX_PAGE_SIZE := 100

  function Decode(c: Cursor): nat {
    if c.At? then c.id else 0
  }

  /** Backward paging needs both `last` and a `before` cursor; anything else pages forward. */
  function Normalize(first: Option<int>, last: Option<int>, after: Cursor, before: Cursor): (r: Option<Args>)
    ensures r.Some? <==> after != Malformed && before != Malformed
    ensures r.Some? ==> 1 <= r.value.limit <= MAX_PAGE_SIZE
  {
    if after == Malformed || before == Malformed then None
    else
      var backward := last.Some? && before != NoCursor;
      var asked := if backward then last.value
                   else if first.Some? then first.value else DEFAULT_PAGE_SIZE;
      var limit := if asked <= 0 then DEFAULT_PAGE_SIZE
                   else if asked > MAX_PAGE_SIZE then MAX_PAGE_SIZE else asked;
      Some(Args(limit, Decode(after), Decode(before), !backward))
  }

  /** The rows a query returns, from its raw arguments; malformed cursors are an error. */
  function Answer(rows: seq<Row>, first: Option<int>, last: Option<int>, after: Cursor, before: Cursor)
    : Option<seq<Row>>
  {
    match Normalize(first, last, after, before)
    case None => None
    case Some(a) => Some(PageOf(rows, a.limit, a.after, a.before, a.forward).edges)
  }

  // ----- what is selected, and what a page says about itself -----

  /** The status filter keeps exactly the rows with the verification flag it names. */
  lemma {:induction false} FilterExactly(rows: seq<Row>, status: string, r: Row)
    ensures r in Filter(rows, status) <==>
            r in rows && (status == "" || (r.verified <==> status == "active" || status == "verified"))
  {
    if rows != [] {
      FilterExactly(rows[1..], status, r);
      assert r in rows <==> r == rows[0] || r in rows[1..];
    }
  }

  /** The rows strictly between the cursors, an id of zero standing for no cursor. */
  lemma {:induction false} BetweenExactly(rows: seq<Row>, after: nat, before: nat, r: Row)
    ensures r in Between(rows, after, before) <==>
            r in rows && after < r.id && (before == 0 || r.id < before)
  {
    if rows != [] {
      BetweenExactly(rows[1..], after, before, r);
      assert r in rows <==> r == rows[0] || r in rows[1..];
    }
  }

  /** Direction and page size from the raw arguments, with the numbers written out. */
  lemma NormalizeExactly(first: Option<int>, last: Option<int>, after: Cursor, before: Cursor)
    ensures var r := Normalize(first, last, after, before);
            && (r == None <==> after == Malformed || before == Malformed)
            && (r.Some? ==>
                  && (r.value.forward <==> last == None || before == NoCursor)
                  && (forall n: int :: (if r.value.forward then first else last) == Some(n) ==>
                        r.value.limit == if n <= 0 then 20 else if 100 < n then 100 else n)
                  && (r.value.forward && first == None ==> r.value.limit == 20)
                  && (after.At? ==> r.value.after == after.id) && (after == NoCursor ==> r.value.after == 0)
                  && (before.At? ==> r.value.before == before.id) && (before == NoCursor ==> r.value.before == 0))
  {
  }

  /**
   What a page says about itself besides the flag of its own direction: the total is the whole
   table's, the boundary ids are its first and last row's, the flag against the direction tells
   whether the cursor behind it was given, and an empty page says nothing.
   */
  lemma {:induction false} PageDescribed(rows: seq<Row>, limit: nat, after: nat, before: nat, forward: bool)
    ensures var page := PageOf(rows, limit, after, before, forward);
            && page.total == |rows|
            && (page.edges == [] ==> !page.hasNext && !page.hasPrev && page.startId == 0 && page.endId == 0)
            && (page.edges != [] ==>
                  && page.startId == page.edges[0].id && page.endId == page.edges[|page.edges| - 1].id
                  && (forward ==> (page.hasPrev <==> 0 < after))
                  && (!forward ==> (page.hasNext <==> 0 < before)))
  {
  }
}
