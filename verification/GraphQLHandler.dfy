/** The assets resolver: query, trim, reverse in place and build the edges. */
module GraphQLHandler {
  import opened Common
  import opened PaginationSpec

  /** Resolve a page from the raw arguments; malformed cursors are the only error. */
  method ResolveAssets(table: seq<Row>, status: string, first: Option<int>, last: Option<int>,
                       after: Cursor, before: Cursor) returns (r: Option<Page>)
    ensures match Normalize(first, last, after, before)
            case None => r == None
            case Some(a) => r == Some(PageOf(Filter(table, status), a.limit, a.after, a.before, a.forward))
    ensures Answer(Filter(table, status), first, last, after, before)
            == if r.Some? then Some(r.value.edges) else None
  {
    var args := Normalize(first, last, after, before);
    if args.None? {
      return None;
    }
    var page := FetchPage(Filter(table, status), args.value);
    return Some(page);
  }

  /** Fetch one row too many, trim it, and build the page. */
  method FetchPage(rows: seq<Row>, args: Args) returns (page: Page)
    ensures page == PageOf(rows, args.limit, args.after, args.before, args.forward)
  {
    var Args(limit, afterId, beforeId, forward) := args;
    var fetched := Fetch(rows, afterId, beforeId, forward, limit + 1);
    var hasMore := |fetched| > limit;
    if hasMore {
      fetched := fetched[..limit];
    }
    var edges := AscendingEdges(fetched, forward);
    page := SetFlags(edges, hasMore, afterId, beforeId, forward, |rows|);
  }

  /** Boundary ids and page flags; an empty page has none. */
  method SetFlags(edges: seq<Row>, hasMore: bool, afterId: nat, beforeId: nat, forward: bool, total: nat)
    returns (page: Page)
    ensures page == WithFlags(edges, hasMore, afterId, beforeId, forward, total)
  {
    var startId, endId, hasNext, hasPrev := 0, 0, false, false;
    if |edges| > 0 {
      startId, endId := edges[0].id, edges[|edges| - 1].id;
      if forward {
        hasNext, hasPrev := hasMore, afterId > 0;
      } else {
        hasPrev, hasNext := hasMore, beforeId > 0;
      }
    }
    page := Page(edges, hasNext, hasPrev, startId, endId, total);
  }

  /** The kept rows in ascending order: a backward fetch is reversed first. */
  method AscendingEdges(fetched: seq<Row>, forward: bool) returns (edges: seq<Row>)
    ensures edges == if forward then fetched else Reverse(fetched)
  {
    var assets := new Row[|fetched|](i requires 0 <= i < |fetched| => fetched[i]);
    assert assets[..] == fetched;
    if !forward {
      ReverseInPlace(assets);
    }
    edges := BuildEdges(assets);
  }

  method ReverseInPlace(a: array<Row>)
    modifies a
    ensures a[..] == Reverse(old(a[..]))
  {
    var i, j := 0, a.Length - 1;
    while i < j
      invariant 0 <= i <= j + 1 && i + j == a.Length - 1
      invariant forall k :: 0 <= k < i ==> a[k] == old(a[a.Length - 1 - k])
      invariant forall k :: j < k < a.Length ==> a[k] == old(a[a.Length - 1 - k])
      invariant forall k :: i <= k <= j ==> a[k] == old(a[k])
    {
      a[i], a[j] := a[j], a[i];
      i, j := i + 1, j - 1;
    }
  }

  method BuildEdges(a: array<Row>) returns (edges: seq<Row>)
    ensures edges == a[..]
  {
    edges := [];
    for i := 0 to a.Length
      invariant edges == a[..i]
    {
      edges := edges + [a[i]];
    }
  }
}
