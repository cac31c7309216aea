/**
 The pagination algorithm of the GraphQL Cursor Connections Specification, section 4.4, and the
 exact arguments for which the resolver agrees with it.
 */
module ConnectionSpec {
  import opened Common
  import opened PaginationSpec

  // ----- the connection specification's algorithm -----

  /** Position of the row the cursor names, or the number of rows. */
  function IndexOf(rows: seq<Row>, id: nat): (i: nat)
    ensures i <= |rows| && (i < |rows| ==> rows[i].id == id)
    ensures i == |rows| ==> forall j :: 0 <= j < |rows| ==> rows[j].id != id
  {
    if rows == [] then 0
    else if rows[0].id == id then 0
    else
      var i := IndexOf(rows[1..], id);
      assert forall j :: 1 <= j < |rows| ==> rows[j] == rows[1..][j - 1];
      i + 1
  }

  predicate Names(rows: seq<Row>, id: nat) {
    IndexOf(rows, id) < |rows|
  }

  /** Drop the rows up to the one the cursor names; a cursor naming no row is ignored. */
  function DropThrough(rows: seq<Row>, id: nat): seq<Row> {
    if Names(rows, id) then rows[IndexOf(rows, id) + 1..] else rows
  }

  /** Keep the rows ahead of the one the cursor names. */
  function KeepUntil(rows: seq<Row>, id: nat): seq<Row> {
    rows[..IndexOf(rows, id)]
  }

  function ApplyCursors(rows: seq<Row>, after: nat, before: nat): seq<Row> {
    KeepUntil(DropThrough(rows, after), before)
  }

  predicate Negative(n: Option<int>) {
    n.Some? && n.value < 0
  }

  /** The edges to return: apply the cursors, then `first`, then `last`; negative counts are errors. */
  function EdgesToReturn(rows: seq<Row>, first: Option<int>, last: Option<int>, after: Cursor, before: Cursor)
    : Option<seq<Row>>
  {
    if Negative(first) || Negative(last) then None
    else
      var s := ApplyCursors(rows, Decode(after), Decode(before));
      var t := if first.Some? then Take(s, first.value) else s;
      Some(if last.Some? then TakeLast(t, last.value) else t)
  }

  // ----- both answers as slices of the table -----

  /** The number of rows with a smaller id. */
  function Below(rows: seq<Row>, id: nat): (k: nat)
    requires Ordered(rows)
    ensures k <= |rows|
    ensures forall i :: 0 <= i < k ==> rows[i].id < id
    ensures forall i :: k <= i < |rows| ==> id <= rows[i].id
  {
    if rows == [] || id <= rows[0].id then 0
    else
      var k := Below(rows[1..], id);
      assert forall i :: 1 <= i < |rows| ==> rows[i] == rows[1..][i - 1];
      k + 1
  }

  /** The rows from position `p` up to `q`, none if these are out of order. */
  function Slice(rows: seq<Row>, p: nat, q: nat): seq<Row>
    requires q <= |rows|
  {
    if p <= q then rows[p..q] else []
  }

  /** Where the resolver cuts: behind every id up to `after`, and ahead of `before`. */
  function CutFrom(rows: seq<Row>, after: nat): (k: nat)
    requires Ordered(rows)
    ensures k <= |rows|
  {
    Below(rows, after + 1)
  }

  function CutTo(rows: seq<Row>, before: nat): (k: nat)
    requires Ordered(rows)
    ensures k <= |rows|
  {
    if before == 0 then |rows| else Below(rows, before)
  }

  /** Where the algorithm cuts: only at rows the cursors name, and `before` only if `after` left it. */
  function KeepFrom(rows: seq<Row>, after: nat): (k: nat)
    requires Ordered(rows)
    ensures k <= |rows|
  {
    if Names(rows, after) then CutFrom(rows, after) else 0
  }

  function KeepTo(rows: seq<Row>, after: nat, before: nat): (k: nat)
    requires Ordered(rows)
    ensures KeepFrom(rows, after) <= k <= |rows|
  {
    if Names(rows, before) && KeepFrom(rows, after) <= Below(rows, before) then Below(rows, before) else |rows|
  }

  lemma {:induction false} BetweenIsSlice(rows: seq<Row>, after: nat, before: nat)
    requires Ordered(rows)
    ensures Between(rows, after, before) == Slice(rows, CutFrom(rows, after), CutTo(rows, before))
  {
    var p, q := CutFrom(rows, after), CutTo(rows, before);
    if p <= q {
      MiddleInside(rows, p, q, after, before);
    } else {
      NoneInside(rows, after, before);
    }
  }

  lemma {:induction false} BelowIs(rows: seq<Row>, id: nat, k: nat)
    requires Ordered(rows) && k <= |rows|
    requires 0 < k ==> rows[k - 1].id < id
    requires k < |rows| ==> id <= rows[k].id
    ensures Below(rows, id) == k
  {
    var m := Below(rows, id);
    assert m < |rows| ==> id <= rows[m].id;
    assert forall i :: 0 <= i < k ==> rows[i].id < id;
  }

  lemma {:induction false} NamedPosition(rows: seq<Row>, id: nat, i: nat)
    requires Ordered(rows) && i < |rows| && rows[i].id == id
    ensures Below(rows, id) == i && Below(rows, id + 1) == i + 1
  {
    BelowIs(rows, id, i);
    BelowIs(rows, id + 1, i + 1);
  }

  lemma {:induction false} AfterIsSlice(rows: seq<Row>, after: nat)
    requires Ordered(rows)
    ensures DropThrough(rows, after) == rows[KeepFrom(rows, after)..]
  {
    if Names(rows, after) {
      NamedPosition(rows, after, IndexOf(rows, after));
    }
  }

  /** A row is found behind position `p` exactly when it is in the list and not ahead of `p`. */
  lemma {:induction false} IndexInTail(rows: seq<Row>, id: nat, p: nat)
    requires Ordered(rows) && p <= |rows|
    ensures p + IndexOf(rows[p..], id)
            == if Names(rows, id) && p <= Below(rows, id) then Below(rows, id) else |rows|
  {
    var s := rows[p..];
    assert forall i :: 0 <= i < |s| ==> s[i] == rows[p + i];
    var j := IndexOf(s, id);
    if j < |s| {
      NamedPosition(rows, id, p + j);
    } else if Names(rows, id) {
      var i := IndexOf(rows, id);
      NamedPosition(rows, id, i);
      assert forall k :: p <= k < |rows| ==> rows[k] == s[k - p];
    }
  }

  lemma {:induction false} UntilIsSlice(rows: seq<Row>, p: nat, before: nat)
    requires Ordered(rows) && p <= |rows|
    ensures var k := if Names(rows, before) && p <= Below(rows, before) then Below(rows, before) else |rows|;
            p <= k && KeepUntil(rows[p..], before) == rows[p..k]
  {
    IndexInTail(rows, before, p);
  }

  lemma {:induction false} ApplyCursorsIsSlice(rows: seq<Row>, after: nat, before: nat)
    requires Ordered(rows)
    ensures ApplyCursors(rows, after, before) == rows[KeepFrom(rows, after)..KeepTo(rows, after, before)]
  {
    AfterIsSlice(rows, after);
    UntilIsSlice(rows, KeepFrom(rows, after), before);
  }

  /** Slices of an ordered list are equal only where their bounds are, or where both are empty. */
  lemma SameSlice(rows: seq<Row>, p: nat, q: nat, p': nat, q': nat)
    requires Ordered(rows) && q <= |rows| && q' <= |rows|
    ensures Slice(rows, p, q) == Slice(rows, p', q') <==> (q <= p && q' <= p') || (p == p' && q == q')
  {
    var s, t := Slice(rows, p, q), Slice(rows, p', q');
    if s == t && s != [] {
      assert s[0] == rows[p] && t[0] == rows[p'];
    }
  }

  // ----- agreement -----

  /**
   The two cursors cut alike exactly when both cuts leave nothing, or when each cursor names a row
   or has no rows on the far side of it.
   */
  lemma CursorsExact(rows: seq<Row>, after: nat, before: nat)
    requires Ordered(rows)
    ensures var (p, q) := (CutFrom(rows, after), CutTo(rows, before));
            var (p', q') := (KeepFrom(rows, after), KeepTo(rows, after, before));
            Between(rows, after, before) == ApplyCursors(rows, after, before)
            <==> if q <= p then q' == p' else (Names(rows, after) || p == 0) && (Names(rows, before) || q == |rows|)
  {
    var p, q := CutFrom(rows, after), CutTo(rows, before);
    var p', q' := KeepFrom(rows, after), KeepTo(rows, after, before);
    BetweenIsSlice(rows, after, before);
    ApplyCursorsIsSlice(rows, after, before);
    SameSlice(rows, p, q, p', q');
    NoRowIsZero(rows);
  }

  /** Zero names no row: an absent cursor is one that names nothing. */
  lemma NoRowIsZero(rows: seq<Row>)
    requires Ordered(rows)
    ensures !Names(rows, 0) && CutFrom(rows, 0) == 0
  {
  }

  /**
   Agreement of a forward page of `n > 0` rows, when the algorithm keeps `x` more rows ahead of them
   and `y` more behind them. With `first`, the page is full, or holds all that is left.
   */
  predicate ForwardAgrees(x: nat, n: nat, y: nat, first: Option<int>, last: Option<int>) {
    && (match first
        case None => y == 0 && n <= DEFAULT_PAGE_SIZE
        case Some(f) =>
          || (x == 0 && f <= n && f <= MAX_PAGE_SIZE)
          || (n <= MAX_PAGE_SIZE && (f == x + n || (y == 0 && x + n <= f)))
          || (MAX_PAGE_SIZE <= n && f == x + MAX_PAGE_SIZE))
    && (match last
        case None => x == 0
        case Some(l) =>
          var page := Min(n, if first.Some? then Min(first.value, MAX_PAGE_SIZE) else DEFAULT_PAGE_SIZE);
          if x == 0 then page <= l else page == l)
  }

  /** The same for a backward page: `first` must not bite, and `last` must stay within the cap. */
  predicate BackwardAgrees(x: nat, n: nat, y: nat, first: Option<int>, last: int) {
    && (x == 0 || last <= n)
    && Min(n, last) <= MAX_PAGE_SIZE
    && (if y == 0 then first.None? || x + n <= first.value else first == Some(x + n))
  }

  /** Agreement of the rows at `p` to `q`, paged, with those at `p'` to `q'`, cut to the counts. */
  predicate BoundsAgree(p: nat, q: nat, p': nat, q': nat, first: Option<int>, last: Option<int>, backward: bool)
    requires p < q ==> p' <= p && q <= q'
  {
    if q <= p then q' <= p' || first == Some(0) || last == Some(0)
    else
      && first != Some(0) && last != Some(0)
      && if backward && last.Some? then BackwardAgrees(p - p', q - p, q' - q, first, last.value)
         else ForwardAgrees(p - p', q - p, q' - q, first, last)
  }

  /** When the resolver answers what the connection algorithm asks for, told from the arguments. */
  predicate Agrees(rows: seq<Row>, first: Option<int>, last: Option<int>, after: Cursor, before: Cursor)
    requires Ordered(rows)
  {
    if after == Malformed || before == Malformed then Negative(first) || Negative(last)
    else
      && !Negative(first) && !Negative(last)
      && var (a, b) := (Decode(after), Decode(before));
         CutsNest(rows, a, b);
         BoundsAgree(CutFrom(rows, a), CutTo(rows, b), KeepFrom(rows, a), KeepTo(rows, a, b),
                     first, last, before != NoCursor)
  }

  /** The algorithm keeps every row the resolver keeps. */
  lemma CutsNest(rows: seq<Row>, after: nat, before: nat)
    requires Ordered(rows)
    ensures CutFrom(rows, after) < CutTo(rows, before) ==>
              KeepFrom(rows, after) <= CutFrom(rows, after) && CutTo(rows, before) <= KeepTo(rows, after, before)
  {
  }

  /** End of the first `n` rows, and start of the last `n`, between two positions. */
  function FirstTo(p: nat, q: nat, n: nat): (k: nat)
    ensures k <= q
  {
    if p + n < q then p + n else q
  }

  function LastFrom(p: nat, q: nat, n: nat): (k: nat)
    ensures p <= k
  {
    if p + n < q then q - n else p
  }

  lemma TakeOfSlice(rows: seq<Row>, p: nat, q: nat, n: nat)
    requires q <= |rows|
    ensures Take(Slice(rows, p, q), n) == Slice(rows, p, FirstTo(p, q, n))
    ensures TakeLast(Slice(rows, p, q), n) == Slice(rows, LastFrom(p, q, n), q)
  {
    if p + n < q {
      var s := rows[p..q];
      assert s[..n] == rows[p..p + n];
      assert s[|s| - n..] == rows[q - n..q];
    }
  }

  /** The page that keeps up to `limit` of the rows from `p` to `q`, from either end. */
  function PageSlice(rows: seq<Row>, p: nat, q: nat, limit: nat, forward: bool): seq<Row>
    requires q <= |rows|
  {
    if forward then Slice(rows, p, FirstTo(p, q, limit)) else Slice(rows, LastFrom(p, q, limit), q)
  }

  /** The rows from `p` to `q`, cut to the first and then to the last few. */
  function CountedSlice(rows: seq<Row>, p: nat, q: nat, first: Option<int>, last: Option<int>): seq<Row>
    requires q <= |rows| && !Negative(first) && !Negative(last)
  {
    var q1 := if first.Some? then FirstTo(p, q, first.value) else q;
    var p1 := if last.Some? then LastFrom(p, q1, last.value) else p;
    Slice(rows, p1, q1)
  }

  lemma {:induction false} AnswerIsSlice(rows: seq<Row>, first: Option<int>, last: Option<int>,
                                         after: Cursor, before: Cursor)
    requires Ordered(rows) && Normalize(first, last, after, before).Some?
    ensures var a := Normalize(first, last, after, before).value;
            Answer(rows, first, last, after, before)
              == Some(PageSlice(rows, CutFrom(rows, a.after), CutTo(rows, a.before), a.limit, a.forward))
  {
    var a := Normalize(first, last, after, before).value;
    BetweenIsSlice(rows, a.after, a.before);
    PageContents(rows, a.limit, a.after, a.before, a.forward);
    TakeOfSlice(rows, CutFrom(rows, a.after), CutTo(rows, a.before), a.limit);
  }

  lemma CountsOfSlice(rows: seq<Row>, p: nat, q: nat, first: Option<int>, last: Option<int>)
    requires q <= |rows| && !Negative(first) && !Negative(last)
    ensures var s := Slice(rows, p, q);
            var t := if first.Some? then Take(s, first.value) else s;
            (if last.Some? then TakeLast(t, last.value) else t) == CountedSlice(rows, p, q, first, last)
  {
    var q1 := if first.Some? then FirstTo(p, q, first.value) else q;
    if first.Some? {
      TakeOfSlice(rows, p, q, first.value);
    }
    if last.Some? {
      TakeOfSlice(rows, p, q1, last.value);
    }
  }

  lemma {:induction false} EdgesAreSlice(rows: seq<Row>, first: Option<int>, last: Option<int>,
                                         after: Cursor, before: Cursor)
    requires Ordered(rows) && !Negative(first) && !Negative(last)
    ensures var (a, b) := (Decode(after), Decode(before));
            EdgesToReturn(rows, first, last, after, before)
              == Some(CountedSlice(rows, KeepFrom(rows, a), KeepTo(rows, a, b), first, last))
  {
    var a, b := Decode(after), Decode(before);
    ApplyCursorsIsSlice(rows, a, b);
    CountsOfSlice(rows, KeepFrom(rows, a), KeepTo(rows, a, b), first, last);
  }

  /** Equality of the two pages, reduced to their bounds. */
  lemma BoundsDecide(rows: seq<Row>, p: nat, q: nat, p': nat, q': nat, first: Option<int>, last: Option<int>,
                     limit: nat, forward: bool)
    requires Ordered(rows) && q <= |rows| && q' <= |rows| && !Negative(first) && !Negative(last)
    ensures PageSlice(rows, p, q, limit, forward) == CountedSlice(rows, p', q', first, last)
            <==> SameBounds(p, q, p', q', first, last, limit, forward)
  {
    var q1 := if first.Some? then FirstTo(p', q', first.value) else q';
    var p1 := if last.Some? then LastFrom(p', q1, last.value) else p';
    if forward {
      SameSlice(rows, p, FirstTo(p, q, limit), p1, q1);
    } else {
      SameSlice(rows, LastFrom(p, q, limit), q, p1, q1);
    }
  }

  predicate SameBounds(p: nat, q: nat, p': nat, q': nat, first: Option<int>, last: Option<int>,
                       limit: nat, forward: bool)
    requires !Negative(first) && !Negative(last)
  {
    var q1 := if first.Some? then FirstTo(p', q', first.value) else q';
    var p1 := if last.Some? then LastFrom(p', q1, last.value) else p';
    var from, to := if forward then p else LastFrom(p, q, limit), if forward then FirstTo(p, q, limit) else q;
    (to <= from && q1 <= p1) || (from == p1 && to == q1)
  }

  function Limit(n: int): nat {
    if n <= 0 then DEFAULT_PAGE_SIZE else Min(n, MAX_PAGE_SIZE)
  }

  lemma ForwardBounds(p: nat, q: nat, p': nat, q': nat, first: Option<int>, last: Option<int>)
    requires !Negative(first) && !Negative(last) && (p < q ==> p' <= p && q <= q')
    ensures var limit := if first.Some? then Limit(first.value) else DEFAULT_PAGE_SIZE;
            SameBounds(p, q, p', q', first, last, limit, true) <==> BoundsAgree(p, q, p', q', first, last, false)
  {
  }

  lemma BackwardBounds(p: nat, q: nat, p': nat, q': nat, first: Option<int>, last: Option<int>)
    requires !Negative(first) && last.Some? && !Negative(last) && (p < q ==> p' <= p && q <= q')
    ensures SameBounds(p, q, p', q', first, last, Limit(last.value), false)
            <==> BoundsAgree(p, q, p', q', first, last, true)
  {
  }

  /** The two pages are equal exactly when the bounds of what they cut from agree. */
  lemma SlicesAgree(rows: seq<Row>, p: nat, q: nat, p': nat, q': nat, first: Option<int>, last: Option<int>,
                    after: Cursor, before: Cursor)
    requires Ordered(rows) && q <= |rows| && q' <= |rows| && !Negative(first) && !Negative(last)
    requires p < q ==> p' <= p && q <= q'
    requires after != Malformed && before != Malformed
    ensures var a := Normalize(first, last, after, before).value;
            PageSlice(rows, p, q, a.limit, a.forward) == CountedSlice(rows, p', q', first, last)
            <==> BoundsAgree(p, q, p', q', first, last, before != NoCursor)
  {
    var a := Normalize(first, last, after, before).value;
    BoundsDecide(rows, p, q, p', q', first, last, a.limit, a.forward);
    if a.forward {
      ForwardBounds(p, q, p', q', first, last);
    } else {
      BackwardBounds(p, q, p', q', first, last);
    }
  }

  /**
   For every table and all arguments, the resolver returns what section 4.4 of the connection
   specification asks for if and only if `Agrees` holds.
   */
  lemma {:induction false} AgreesExactly(rows: seq<Row>, first: Option<int>, last: Option<int>,
                                         after: Cursor, before: Cursor)
    requires Ordered(rows)
    ensures Answer(rows, first, last, after, before) == EdgesToReturn(rows, first, last, after, before)
            <==> Agrees(rows, first, last, after, before)
  {
    if after != Malformed && before != Malformed && !Negative(first) && !Negative(last) {
      var a, b := Decode(after), Decode(before);
      CutsNest(rows, a, b);
      AnswerIsSlice(rows, first, last, after, before);
      EdgesAreSlice(rows, first, last, after, before);
      SlicesAgree(rows, CutFrom(rows, a), CutTo(rows, b), KeepFrom(rows, a), KeepTo(rows, a, b),
                  first, last, after, before);
    }
  }

  // ----- what agreement means for ordinary and for unusual arguments -----

  /** Paging as the specification advises always agrees: forward by `first` from a row or the start. */
  lemma OrdinaryForward(rows: seq<Row>, n: int, after: Cursor)
    requires Ordered(rows) && 1 <= n <= 100
    requires after == NoCursor || (after.At? && Names(rows, after.id))
    ensures Answer(rows, Some(n), None, after, NoCursor) == EdgesToReturn(rows, Some(n), None, after, NoCursor)
  {
    NoRowIsZero(rows);
    AgreesExactly(rows, Some(n), None, after, NoCursor);
  }

  /** ... and backward by `last` from a row. */
  lemma OrdinaryBackward(rows: seq<Row>, n: int, before: nat)
    requires Ordered(rows) && 1 <= n <= 100 && Names(rows, before)
    ensures Answer(rows, None, Some(n), NoCursor, At(before)) == EdgesToReturn(rows, None, Some(n), NoCursor, At(before))
  {
    NoRowIsZero(rows);
    assert before != 0;
    var q := Below(rows, before);
    assert CutTo(rows, before) == q == KeepTo(rows, 0, before) && KeepFrom(rows, 0) == 0 == CutFrom(rows, 0);
    assert BoundsAgree(0, q, 0, q, None, Some(n), true);
    AgreesExactly(rows, None, Some(n), NoCursor, At(before));
  }

  /** Without cursors: counts in range, a page that fits them, or an empty table. */
  lemma WithoutCursorsExact(rows: seq<Row>, first: Option<int>, last: Option<int>)
    requires Ordered(rows)
    ensures Answer(rows, first, last, NoCursor, NoCursor) == EdgesToReturn(rows, first, last, NoCursor, NoCursor)
            <==> && !Negative(first) && !Negative(last)
                 && (rows != [] ==>
                       && first != Some(0) && last != Some(0)
                       && (first.None? ==> |rows| <= 20)
                       && (first.Some? ==> first.value <= 100 || |rows| <= 100)
                       && (last.Some? ==> |rows| <= last.value || (first.Some? && first.value <= last.value)))
  {
    NoRowIsZero(rows);
    AgreesExactly(rows, first, last, NoCursor, NoCursor);
  }

  /** The table with ids 1 to `n`. */
  function Numbered(n: nat): (rows: seq<Row>)
    ensures Ordered(rows) && |rows| == n
  {
    seq(n, i requires 0 <= i < n => Row(i + 1, "", true))
  }

  lemma NumberedCuts(n: nat, id: nat)
    ensures var rows := Numbered(n);
            && (Names(rows, id) <==> 1 <= id <= n)
            && CutFrom(rows, id) == Min(id, n)
            && (0 < id ==> Below(rows, id) == Min(id - 1, n))
  {
    var rows := Numbered(n);
    BelowIs(rows, id + 1, Min(id, n));
    if 0 < id {
      BelowIs(rows, id, Min(id - 1, n));
      if id <= n {
        assert rows[id - 1].id == id;
      }
    }
  }

  predicate Departs(rows: seq<Row>, first: Option<int>, last: Option<int>, after: Cursor, before: Cursor) {
    Answer(rows, first, last, after, before) != EdgesToReturn(rows, first, last, after, before)
  }

  /** One input for each way in which counts alone lead away from the algorithm. */
  lemma CountsDepart()
    ensures Departs(Numbered(1), Some(0), None, NoCursor, NoCursor)
    ensures Departs(Numbered(0), Some(-1), None, NoCursor, NoCursor)
    ensures Departs(Numbered(101), Some(101), None, NoCursor, NoCursor)
    ensures Departs(Numbered(21), None, None, NoCursor, NoCursor)
    ensures Departs(Numbered(2), None, Some(1), NoCursor, NoCursor)
  {
    WithoutCursorsExact(Numbered(1), Some(0), None);
    WithoutCursorsExact(Numbered(0), Some(-1), None);
    WithoutCursorsExact(Numbered(101), Some(101), None);
    WithoutCursorsExact(Numbered(21), None, None);
    WithoutCursorsExact(Numbered(2), None, Some(1));
  }

  /** A cursor behind the last row is ignored by the algorithm and cuts everything here. */
  lemma UnknownCursorDeparts(n: nat, id: nat)
    requires 0 < n < id
    ensures Departs(Numbered(n), Some(1), None, At(id), NoCursor)
  {
    NoRowIsZero(Numbered(n));
    NumberedCuts(n, id);
    AgreesExactly(Numbered(n), Some(1), None, At(id), NoCursor);
  }

  /** With cursors in reverse order the algorithm, having cut at `after`, no longer finds `before`. */
  lemma ReversedCursorsDepart(n: nat, after: nat, before: nat)
    requires 0 < before <= after < n
    ensures Departs(Numbered(n), Some(1), None, At(after), At(before))
  {
    NumberedCuts(n, after);
    NumberedCuts(n, before);
    AgreesExactly(Numbered(n), Some(1), None, At(after), At(before));
  }

  /** Given `last` and `before`, the resolver ignores `first`. */
  lemma FirstIgnoredDeparts(n: nat, before: nat)
    requires 2 < before <= n
    ensures Departs(Numbered(n), Some(1), Some(1), NoCursor, At(before))
  {
    NoRowIsZero(Numbered(n));
    NumberedCuts(n, before);
    AgreesExactly(Numbered(n), Some(1), Some(1), NoCursor, At(before));
  }

  /** A cursor that cannot be decoded is an error here and names no row in the algorithm. */
  lemma MalformedCursorDeparts(rows: seq<Row>, first: nat, before: Cursor)
    requires Ordered(rows)
    ensures Departs(rows, Some(first), None, Malformed, before)
  {
    AgreesExactly(rows, Some(first), None, Malformed, before);
  }
}
