/**
 The peer-to-peer order book as a value. An order's id is its position in `orders`, so ids
 follow creation time.
 */
module OrderBook {
  import opened Common
  import opened Sums

  datatype Side = Buy | Sell

  datatype Status = Open | Partial | Filled | Cancelled

  datatype Order = Order(asset: nat, owner: string, side: Side, price: int, quantity: int,
                         filled: int, status: Status)

  datatype Trade = Trade(asset: nat, buyOrder: nat, sellOrder: nat, buyer: string, seller: string,
                         price: int, quantity: int, totalValue: int)

  datatype Book = Book(orders: seq<Order>, trades: seq<Trade>)

  datatype Error = InvalidRequest | AssetNotFound | OrderNotFound | NotCancellable

  predicate Live(o: Order) {
    o.status == Open || o.status == Partial
  }

  function Left(o: Order): int {
    o.quantity - o.filled
  }

  /** Prices ranked from the taker's side: the lowest rank is the best price for the taker. */
  function Rank(taker: Side, price: int): int {
    if taker == Buy then price else -price
  }

  /** The counter-orders the matching query selects. */
  predicate Crosses(taker: Order, o: Order) {
    && o.asset == taker.asset && o.side != taker.side && Live(o)
    && Rank(taker.side, o.price) <= Rank(taker.side, taker.price)
  }

  // ----- price-time priority -----

  /** Order `i` has priority over order `j`: a better price, or the same price and older. */
  ghost predicate Before(os: seq<Order>, taker: Side, i: nat, j: nat)
    requires i < |os| && j < |os|
  {
    var ri, rj := Rank(taker, os[i].price), Rank(taker, os[j].price);
    ri < rj || (ri == rj && i < j)
  }

  ghost predicate ByPriority(os: seq<Order>, taker: Side, cs: seq<nat>) {
    && (forall k :: 0 <= k < |cs| ==> cs[k] < |os|)
    && (forall k, l :: 0 <= k < l < |cs| ==> Before(os, taker, cs[k], cs[l]))
  }

  /** Insert the youngest order `i` behind all orders with a rank no worse than its own. */
  function Insert(os: seq<Order>, taker: Side, cs: seq<nat>, i: nat): (r: seq<nat>)
    requires i < |os| && ByPriority(os, taker, cs)
    requires forall k :: 0 <= k < |cs| ==> cs[k] < i
    ensures ByPriority(os, taker, r)
    ensures forall k :: k in r <==> k in cs || k == i
    decreases |cs|
  {
    if cs == [] then [i]
    else if Rank(taker, os[i].price) < Rank(taker, os[cs[0]].price) then [i] + cs
    else
      var rest := Insert(os, taker, cs[1..], i);
      assert forall k :: k in cs <==> k == cs[0] || k in cs[1..];
      assert forall k :: 0 <= k < |rest| ==> rest[k] in rest;
      [cs[0]] + rest
  }

  /** The counter-orders among the first `n` orders, best price first, then oldest first. */
  function Counters(os: seq<Order>, t: nat, n: nat): (cs: seq<nat>)
    requires t < |os| && n <= |os|
    ensures ByPriority(os, os[t].side, cs)
    ensures forall i: nat :: i in cs <==> i < n && Crosses(os[t], os[i])
  {
    if n == 0 then []
    else
      var cs := Counters(os, t, n - 1);
      assert forall k :: 0 <= k < |cs| ==> cs[k] in cs;
      if Crosses(os[t], os[n - 1]) then Insert(os, os[t].side, cs, n - 1) else cs
  }

  // ----- one fill -----

  function WithFill(o: Order, q: int): Order {
    o.(filled := o.filled + q, status := if o.filled + q >= o.quantity then Filled else Partial)
  }

  function MakeTrade(os: seq<Order>, t: nat, c: nat, q: int): Trade
    requires t < |os| && c < |os|
  {
    var price := os[c].price;
    var (b, s) := if os[t].side == Buy then (t, c) else (c, t);
    Trade(os[t].asset, b, s, os[b].owner, os[s].owner, price, q, price * q)
  }

  /** Trade the taker `t` against the maker `c` at the maker's price. */
  function Fill(b: Book, t: nat, c: nat): Book
    requires t < |b.orders| && c < |b.orders|
  {
    var q := Min(Left(b.orders[t]), Left(b.orders[c]));
    Book(b.orders[t := WithFill(b.orders[t], q)][c := WithFill(b.orders[c], q)],
         b.trades + [MakeTrade(b.orders, t, c, q)])
  }

  function Match(b: Book, t: nat, cs: seq<nat>): (r: Book)
    requires t < |b.orders| && forall k :: 0 <= k < |cs| ==> cs[k] < |b.orders|
    ensures |r.orders| == |b.orders|
    decreases |cs|
  {
    if cs == [] || Left(b.orders[t]) <= 0 then b
    else Match(Fill(b, t, cs[0]), t, cs[1..])
  }

  // ----- requests -----

  function NewOrder(asset: nat, owner: string, side: Side, price: int, quantity: int): Order {
    Order(asset, owner, side, price, quantity, 0, Open)
  }

  function Create(b: Book, assets: set<nat>, o: Order): Result<Book, Error> {
    if o.asset == 0 || o.price <= 0 || o.quantity <= 0 then Err(InvalidRequest)
    else if o.asset !in assets then Err(AssetNotFound)
    else
      var os := b.orders + [NewOrder(o.asset, o.owner, o.side, o.price, o.quantity)];
      Ok(Match(Book(os, b.trades), |b.orders|, Counters(os, |b.orders|, |os|)))
  }

  function Cancel(b: Book, id: nat): Result<Book, Error> {
    if id >= |b.orders| then Err(OrderNotFound)
    else if !Live(b.orders[id]) then Err(NotCancellable)
    else Ok(b.(orders := b.orders[id := b.orders[id].(status := Cancelled)]))
  }

  // ----- invariant -----

  /** The status follows from the fill level unless the order was cancelled. */
  ghost predicate OrderOk(o: Order) {
    && 0 < o.price && 0 < o.quantity && 0 <= o.filled <= o.quantity
    && match o.status
       case Open => o.filled == 0
       case Partial => 0 < o.filled < o.quantity
       case Filled => o.filled == o.quantity
       case Cancelled => o.filled < o.quantity
  }

  ghost predicate OrdersOk(os: seq<Order>) {
    forall i :: 0 <= i < |os| ==> OrderOk(os[i])
  }

  /** A trade joins a buy and a sell on one asset at a price inside both limits. */
  ghost predicate TradeOk(os: seq<Order>, t: Trade) {
    && t.buyOrder < |os| && t.sellOrder < |os|
    && var (b, s) := (os[t.buyOrder], os[t.sellOrder]);
       && b.side == Buy && s.side == Sell
       && b.asset == s.asset == t.asset
       && t.buyer == b.owner && t.seller == s.owner
       && s.price <= t.price <= b.price
       && 0 < t.quantity && t.totalValue == t.price * t.quantity
  }

  ghost predicate TradesOk(b: Book) {
    forall i :: 0 <= i < |b.trades| ==> TradeOk(b.orders, b.trades[i])
  }

  /** Quantity traded by order `i`, according to the trade log. */
  function TradedBy(ts: seq<Trade>, i: nat): seq<int> {
    seq(|ts|, k requires 0 <= k < |ts| =>
      if ts[k].buyOrder == i || ts[k].sellOrder == i then ts[k].quantity else 0)
  }

  ghost predicate FillsLogged(b: Book) {
    forall i :: 0 <= i < |b.orders| ==> b.orders[i].filled == Sum(TradedBy(b.trades, i))
  }

  function FillColumn(os: seq<Order>, asset: nat, side: Side): seq<int> {
    seq(|os|, i requires 0 <= i < |os| =>
      if os[i].asset == asset && os[i].side == side then os[i].filled else 0)
  }

  /** On each asset, what buyers got is what sellers gave. */
  ghost predicate Balanced(os: seq<Order>) {
    forall asset: nat :: Sum(FillColumn(os, asset, Buy)) == Sum(FillColumn(os, asset, Sell))
  }

  /** Orders `i` and `j` would trade with each other. */
  ghost predicate CrossedPair(os: seq<Order>, i: nat, j: nat)
    requires i < |os| && j < |os|
  {
    && os[i].side == Buy && os[j].side == Sell && os[i].asset == os[j].asset
    && Live(os[i]) && Live(os[j]) && os[j].price <= os[i].price
  }

  ghost predicate Uncrossed(os: seq<Order>) {
    forall i, j :: 0 <= i < |os| && 0 <= j < |os| ==> !CrossedPair(os, i, j)
  }

  /** The book is uncrossed apart from the taker being matched. */
  ghost predicate UncrossedBut(os: seq<Order>, t: nat) {
    forall i, j :: 0 <= i < |os| && 0 <= j < |os| && i != t && j != t ==> !CrossedPair(os, i, j)
  }

  ghost predicate Ledger(b: Book) {
    OrdersOk(b.orders) && TradesOk(b) && FillsLogged(b) && Balanced(b.orders)
  }

  ghost predicate Inv(b: Book) {
    Ledger(b) && Uncrossed(b.orders)
  }

  // ----- one fill keeps the ledger -----

  /** The makers still to be visited cross the taker and are distinct. */
  ghost predicate Ready(os: seq<Order>, t: nat, cs: seq<nat>) {
    && t < |os|
    && (forall k :: 0 <= k < |cs| ==> cs[k] < |os| && Crosses(os[t], os[cs[k]]))
    && (forall k, l :: 0 <= k < l < |cs| ==> cs[k] != cs[l])
  }

  ghost predicate Matchable(os: seq<Order>, t: nat, c: nat) {
    t < |os| && c < |os| && Crosses(os[t], os[c])
  }

  lemma FillKeepsOrders(b: Book, t: nat, c: nat)
    requires OrdersOk(b.orders) && Matchable(b.orders, t, c) && 0 < Left(b.orders[t])
    requires Live(b.orders[t])
    ensures OrdersOk(Fill(b, t, c).orders)
    ensures var q := Min(Left(b.orders[t]), Left(b.orders[c])); 0 < q
  {
  }

  lemma FillKeepsTrades(b: Book, t: nat, c: nat)
    requires OrdersOk(b.orders) && Matchable(b.orders, t, c) && 0 < Left(b.orders[t])
    requires TradesOk(b)
    ensures TradesOk(Fill(b, t, c))
  {
    var r := Fill(b, t, c);
    forall i | 0 <= i < |r.trades| ensures TradeOk(r.orders, r.trades[i]) {
      if i < |b.trades| {
        assert TradeOk(b.orders, b.trades[i]);
      }
    }
  }

  lemma TradedSnoc(ts: seq<Trade>, tr: Trade, i: nat)
    ensures Sum(TradedBy(ts + [tr], i)) == Sum(TradedBy(ts, i))
              + if tr.buyOrder == i || tr.sellOrder == i then tr.quantity else 0
  {
    var x := if tr.buyOrder == i || tr.sellOrder == i then tr.quantity else 0;
    assert TradedBy(ts + [tr], i) == TradedBy(ts, i) + [x];
    SumSnoc(TradedBy(ts, i), x);
  }

  lemma FillKeepsLog(b: Book, t: nat, c: nat)
    requires t < |b.orders| && c < |b.orders| && t != c && FillsLogged(b)
    ensures FillsLogged(Fill(b, t, c))
  {
    var r := Fill(b, t, c);
    var q := Min(Left(b.orders[t]), Left(b.orders[c]));
    forall i | 0 <= i < |r.orders| ensures r.orders[i].filled == Sum(TradedBy(r.trades, i)) {
      TradedSnoc(b.trades, MakeTrade(b.orders, t, c, q), i);
    }
  }

  lemma ColumnUpdate(os: seq<Order>, i: nat, o: Order, asset: nat, side: Side)
    requires i < |os| && o.asset == os[i].asset && o.side == os[i].side
    ensures Sum(FillColumn(os[i := o], asset, side)) == Sum(FillColumn(os, asset, side))
              + if o.asset == asset && o.side == side then o.filled - os[i].filled else 0
  {
    var col := FillColumn(os, asset, side);
    var x := if o.asset == asset && o.side == side then o.filled else 0;
    assert FillColumn(os[i := o], asset, side) == col[i := x];
    SumUpdate(col, i, x);
  }

  lemma FillKeepsBalance(b: Book, t: nat, c: nat)
    requires Matchable(b.orders, t, c) && Balanced(b.orders)
    ensures Balanced(Fill(b, t, c).orders)
  {
    var q := Min(Left(b.orders[t]), Left(b.orders[c]));
    var mid := b.orders[t := WithFill(b.orders[t], q)];
    forall asset: nat
      ensures Sum(FillColumn(Fill(b, t, c).orders, asset, Buy)) == Sum(FillColumn(Fill(b, t, c).orders, asset, Sell))
    {
      ColumnUpdate(b.orders, t, WithFill(b.orders[t], q), asset, Buy);
      ColumnUpdate(b.orders, t, WithFill(b.orders[t], q), asset, Sell);
      ColumnUpdate(mid, c, WithFill(b.orders[c], q), asset, Buy);
      ColumnUpdate(mid, c, WithFill(b.orders[c], q), asset, Sell);
    }
  }

  lemma FillKeepsLedger(b: Book, t: nat, c: nat)
    requires Ledger(b) && Matchable(b.orders, t, c) && Live(b.orders[t])
    ensures Ledger(Fill(b, t, c))
  {
    FillKeepsOrders(b, t, c);
    FillKeepsTrades(b, t, c);
    FillKeepsLog(b, t, c);
    FillKeepsBalance(b, t, c);
  }

  /** A fill only lowers what is live, and leaves the other makers alone. */
  lemma FillKeepsReady(b: Book, t: nat, cs: seq<nat>)
    requires OrdersOk(b.orders) && Ready(b.orders, t, cs) && cs != [] && Live(b.orders[t])
    ensures var os := Fill(b, t, cs[0]).orders;
            && Ready(os, t, cs[1..])
            && (Live(os[t]) <==> 0 < Left(os[t]))
            && (UncrossedBut(b.orders, t) ==> UncrossedBut(os, t))
  {
    var c, os := cs[0], Fill(b, t, cs[0]).orders;
    assert Crosses(b.orders[t], b.orders[c]);
    assert forall k :: 0 <= k < |cs[1..]| ==> cs[1..][k] == cs[k + 1];
    if UncrossedBut(b.orders, t) {
      forall i, j | 0 <= i < |os| && 0 <= j < |os| && i != t && j != t
        ensures !CrossedPair(os, i, j)
      {
        assert !CrossedPair(b.orders, i, j);
      }
    }
  }
}
