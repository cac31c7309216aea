/**
 When the marketplace handler accepts a request and what an accepted one leaves behind, told from
 the five values of the request and the stored rows alone.
 */
module OrderRequests {
  import opened Common
  import opened OrderBook
  import opened OrderBookRuns

  /** The answer to a request to trade. */
  function Ask(b: Book, assets: set<nat>, asset: nat, owner: string, side: Side, price: int, quantity: int)
    : Result<Book, Error>
  {
    Create(b, assets, Order(asset, owner, side, price, quantity, 0, Open))
  }

  /** An order is accepted if and only if its numbers are positive and its asset exists. */
  lemma CreateAcceptedExactly(b: Book, assets: set<nat>, asset: nat, owner: string, side: Side,
                              price: int, quantity: int)
    ensures var r := Ask(b, assets, asset, owner, side, price, quantity);
            && (r.Ok? <==> 0 < asset && 0 < price && 0 < quantity && asset in assets)
            && (r == Err(InvalidRequest) <==> asset == 0 || price <= 0 || quantity <= 0)
            && (r == Err(AssetNotFound) <==> 0 < asset && 0 < price && 0 < quantity && asset !in assets)
  {
  }

  /** The row at the new id has the five values asked for; other rows keep theirs. */
  lemma CreateStores(b: Book, assets: set<nat>, asset: nat, owner: string, side: Side, price: int, quantity: int)
    requires Inv(b) && Ask(b, assets, asset, owner, side, price, quantity).Ok?
    ensures var r := Ask(b, assets, asset, owner, side, price, quantity).value;
            && |r.orders| == |b.orders| + 1
            && (forall i :: 0 <= i < |b.orders| ==>
                  r.orders[i] == b.orders[i].(filled := r.orders[i].filled, status := r.orders[i].status))
            && var o := r.orders[|b.orders|];
               && o.asset == asset && o.owner == owner && o.side == side && o.price == price
               && o.quantity == quantity
  {
    var o := Order(asset, owner, side, price, quantity, 0, Open);
    CreateStartsMatching(b, assets, o);
    MatchIsGreedy(Placed(b, o), |b.orders|, Makers(b, o));
    var r := Ask(b, assets, asset, owner, side, price, quantity).value;
    assert SameTerms(Placed(b, o).orders[|b.orders|], r.orders[|b.orders|]);
    forall i | 0 <= i < |b.orders|
      ensures r.orders[i] == b.orders[i].(filled := r.orders[i].filled, status := r.orders[i].status)
    {
      assert SameTerms(Placed(b, o).orders[i], r.orders[i]) && Placed(b, o).orders[i] == b.orders[i];
    }
  }

  // ----- who trades at what price -----

  /** The trade joins order `t` with another order at that order's price. */
  ghost predicate TradesWith(os: seq<Order>, t: nat, tr: Trade)
    requires t < |os|
  {
    var other := if os[t].side == Buy then tr.sellOrder else tr.buyOrder;
    && other < |os| && tr.price == os[other].price
    && (if os[t].side == Buy then tr.buyOrder else tr.sellOrder) == t
  }

  lemma FillTradesWith(b: Book, t: nat, c: nat)
    requires t < |b.orders| && c < |b.orders|
    ensures var r := Fill(b, t, c);
            && |r.orders| == |b.orders| && |r.trades| == |b.trades| + 1
            && TradesWith(b.orders, t, r.trades[|b.trades|])
            && forall tr :: TradesWith(r.orders, t, tr) ==> TradesWith(b.orders, t, tr)
  {
  }

  lemma {:induction false} MatchTradesWith(b: Book, t: nat, cs: seq<nat>)
    requires t < |b.orders| && forall k :: 0 <= k < |cs| ==> cs[k] < |b.orders|
    ensures var r := Match(b, t, cs);
            && |b.trades| <= |r.trades|
            && forall k :: |b.trades| <= k < |r.trades| ==> TradesWith(b.orders, t, r.trades[k])
    decreases |cs|
  {
    if cs != [] && 0 < Left(b.orders[t]) {
      var mid := Fill(b, t, cs[0]);
      FillTradesWith(b, t, cs[0]);
      MatchTradesWith(mid, t, cs[1..]);
      MatchExtendsTrades(mid, t, cs[1..]);
      var r := Match(b, t, cs);
      assert r.trades[|b.trades|] == mid.trades[|b.trades|];
    }
  }

  /** A trade made for a request: its asset, its owner, within its limit, with an earlier order. */
  ghost predicate TradeServes(b: Book, tr: Trade, asset: nat, owner: string, side: Side, price: int) {
    && tr.asset == asset
    && (side == Buy ==>
          && tr.buyOrder == |b.orders| && tr.buyer == owner && tr.price <= price
          && tr.sellOrder < |b.orders|
          && var m := b.orders[tr.sellOrder];
             m.side == Sell && m.asset == asset && m.owner == tr.seller && m.price == tr.price)
    && (side == Sell ==>
          && tr.sellOrder == |b.orders| && tr.seller == owner && price <= tr.price
          && tr.buyOrder < |b.orders|
          && var m := b.orders[tr.buyOrder];
             m.side == Buy && m.asset == asset && m.owner == tr.buyer && m.price == tr.price)
  }

  lemma TradeServesRequest(b: Book, r: Book, tr: Trade, asset: nat, owner: string, side: Side, price: int)
    requires |r.orders| == |b.orders| + 1 && TradeOk(r.orders, tr)
    requires var o := r.orders[|b.orders|]; o.asset == asset && o.owner == owner && o.side == side && o.price == price
    requires forall i :: 0 <= i < |b.orders| ==>
               r.orders[i] == b.orders[i].(filled := r.orders[i].filled, status := r.orders[i].status)
    requires TradesWith(r.orders, |b.orders|, tr)
    ensures TradeServes(b, tr, asset, owner, side, price)
  {
  }

  /** Every trade an accepted order adds serves the request; earlier trades stay. */
  lemma CreateTradesServe(b: Book, assets: set<nat>, asset: nat, owner: string, side: Side, price: int, quantity: int)
    requires Inv(b) && Ask(b, assets, asset, owner, side, price, quantity).Ok?
    ensures var r := Ask(b, assets, asset, owner, side, price, quantity).value;
            && b.trades <= r.trades
            && forall k :: |b.trades| <= k < |r.trades| ==> TradeServes(b, r.trades[k], asset, owner, side, price)
  {
    var o := Order(asset, owner, side, price, quantity, 0, Open);
    var t, start, cs := |b.orders|, Placed(b, o), Makers(b, o);
    CreateStartsMatching(b, assets, o);
    CreateKeepsInv(b, assets, o);
    CreateStores(b, assets, asset, owner, side, price, quantity);
    MatchTradesWith(start, t, cs);
    MatchExtendsTrades(start, t, cs);
    MatchIsGreedy(start, t, cs);
    var r := Ask(b, assets, asset, owner, side, price, quantity).value;
    forall k | |b.trades| <= k < |r.trades| ensures TradeServes(b, r.trades[k], asset, owner, side, price) {
      SameTradesWith(start.orders, r.orders, t, r.trades[k]);
      TradeServesRequest(b, r, r.trades[k], asset, owner, side, price);
    }
  }

  lemma SameTradesWith(os: seq<Order>, os': seq<Order>, t: nat, tr: Trade)
    requires t < |os| == |os'| && TradesWith(os, t, tr)
    requires forall i :: 0 <= i < |os| ==> SameTerms(os[i], os'[i])
    ensures TradesWith(os', t, tr)
  {
    assert SameTerms(os[t], os'[t]);
    var other := if os[t].side == Buy then tr.sellOrder else tr.buyOrder;
    assert SameTerms(os[other], os'[other]);
  }

  // ----- priority -----

  /** Order `d` offers a better price than `c` to the given side, or the same price earlier. */
  predicate Ahead(os: seq<Order>, side: Side, d: nat, c: nat)
    requires c < |os| && d < |os|
  {
    || (side == Buy && os[d].price < os[c].price)
    || (side == Sell && os[c].price < os[d].price)
    || (os[d].price == os[c].price && d < c)
  }

  lemma MakerIndex(b: Book, assets: set<nat>, o: Order, c: nat) returns (k: nat)
    requires Inv(b) && ValidOrder(b, assets, o) && c < |b.orders|
    requires b.orders[c].filled < Create(b, assets, o).value.orders[c].filled
    ensures k < |Makers(b, o)| && Makers(b, o)[k] == c
    ensures Crosses(Placed(b, o).orders[|b.orders|], b.orders[c])
  {
    var cs := Makers(b, o);
    CreateStartsMatching(b, assets, o);
    if c !in cs {
      NonMakerApart(Placed(b, o), |b.orders|, cs, c);
    }
    k :| 0 <= k < |cs| && cs[k] == c;
  }

  lemma AheadCrosses(os: seq<Order>, t: nat, side: Side, d: nat, c: nat)
    requires t < |os| && c < |os| && d < |os| && os[t].side == side && Crosses(os[t], os[c])
    requires Ahead(os, side, d, c) && os[d].asset == os[t].asset && os[d].side != side && Live(os[d])
    ensures Crosses(os[t], os[d])
  {
  }

  lemma AheadComesFirst(os: seq<Order>, side: Side, cs: seq<nat>, d: nat, k: nat) returns (j: nat)
    requires ByPriority(os, side, cs) && d in cs && k < |cs| && Ahead(os, side, d, cs[k])
    ensures j < k && cs[j] == d
  {
    j :| 0 <= j < |cs| && cs[j] == d;
    assert forall l, m :: 0 <= l < m < |cs| ==> Before(os, side, cs[l], cs[m]);
  }

  /**
   An earlier order trades only if every live counter-order on the asset that offers a better price,
   or the same price and is older, ends filled.
   */
  lemma BetterOrOlderFirst(b: Book, assets: set<nat>, asset: nat, owner: string, side: Side,
                           price: int, quantity: int, c: nat, d: nat)
    requires Inv(b) && Ask(b, assets, asset, owner, side, price, quantity).Ok?
    requires c < |b.orders| && d < |b.orders| && Ahead(b.orders, side, d, c)
    requires b.orders[c].filled < Ask(b, assets, asset, owner, side, price, quantity).value.orders[c].filled
    requires b.orders[d].asset == asset && b.orders[d].side != side
    requires b.orders[d].status == Open || b.orders[d].status == Partial
    ensures Ask(b, assets, asset, owner, side, price, quantity).value.orders[d].status == Filled
  {
    var o := Order(asset, owner, side, price, quantity, 0, Open);
    var os, cs := Placed(b, o).orders, Makers(b, o);
    var k := MakerIndex(b, assets, o, c);
    AheadCrosses(os, |b.orders|, side, d, c);
    var j := AheadComesFirst(os, side, cs, d, k);
    PriorityRespected(b, assets, o, j, k);
  }

  /** After every run, orders that could still trade are apart: every buy is priced below every sell. */
  lemma OpenOrdersNeverCross(assets: set<nat>, ops: seq<Op>, i: nat, j: nat)
    requires var os := Run(assets, ops).orders;
             && i < |os| && j < |os| && os[i].side == Buy && os[j].side == Sell && os[i].asset == os[j].asset
             && os[i].filled < os[i].quantity && os[i].status != Cancelled
             && os[j].filled < os[j].quantity && os[j].status != Cancelled
    ensures Run(assets, ops).orders[i].price < Run(assets, ops).orders[j].price
  {
    var os := Run(assets, ops).orders;
    assert OrderOk(os[i]) && OrderOk(os[j]) && !CrossedPair(os, i, j);
  }

  // ----- cancelling -----

  /** An order is cancelled if and only if it exists and is open or partly filled. */
  lemma CancelExactly(b: Book, id: nat)
    ensures var r := Cancel(b, id);
            && (r == Err(OrderNotFound) <==> |b.orders| <= id)
            && (r == Err(NotCancellable) <==>
                  id < |b.orders| && (b.orders[id].status == Filled || b.orders[id].status == Cancelled))
            && (r.Ok? <==> id < |b.orders| && (b.orders[id].status == Open || b.orders[id].status == Partial))
            && (r.Ok? ==>
                  && r.value.trades == b.trades && |r.value.orders| == |b.orders|
                  && r.value.orders[id] == b.orders[id].(status := Cancelled)
                  && forall i :: 0 <= i < |b.orders| && i != id ==> r.value.orders[i] == b.orders[i])
  {
  }
}
