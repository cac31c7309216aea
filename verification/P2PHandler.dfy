/** The marketplace handler: the order and trade tables, updated in place. */
module P2PHandler {
  import opened Common
  import opened OrderBook
  import opened OrderBookRuns

  class Marketplace {
    const assets: set<nat>
    var orders: seq<Order>
    var trades: seq<Trade>

    function View(): Book
      reads this
    {
      Book(orders, trades)
    }

    constructor (assets: set<nat>)
      ensures View() == Book([], []) && this.assets == assets && Inv(View())
    {
      this.assets := assets;
      orders, trades := [], [];
      new;
      EmptyBook();
    }

    method CreateOrder(asset: nat, owner: string, side: Side, price: int, quantity: int) returns (r: Result<nat, Error>)
      requires Inv(View())
      modifies this
      ensures Inv(View())
      ensures match Create(old(View()), assets, Order(asset, owner, side, price, quantity, 0, Open))
              case Ok(b) => View() == b && r == Ok(|old(orders)|)
              case Err(e) => View() == old(View()) && r == Err(e)
    {
      ghost var was := View();
      if asset == 0 || price <= 0 || quantity <= 0 {
        return Err(InvalidRequest);
      }
      if asset !in assets {
        return Err(AssetNotFound);
      }
      CreateKeepsInv(was, assets, NewOrder(asset, owner, side, price, quantity));
      var id := |orders|;
      orders := orders + [NewOrder(asset, owner, side, price, quantity)];
      MatchOrder(id);
      return Ok(id);
    }

    /** Visit the selected counter-orders in priority order until the taker is filled. */
    method MatchOrder(t: nat)
      requires t < |orders|
      modifies this`orders, this`trades
      ensures View() == Match(old(View()), t, Counters(old(orders), t, |old(orders)|))
    {
      var cs, makers := SelectCounters(t);
      var remaining := orders[t].quantity - orders[t].filled;
      var k := 0;
      while k < |cs|
        invariant 0 <= k <= |cs| && |orders| == |old(orders)|
        invariant forall l :: k <= l < |cs| ==> orders[cs[l]] == makers[l]
        invariant remaining == Left(orders[t])
        invariant Match(View(), t, cs[k..]) == Match(old(View()), t, cs)
      {
        if remaining <= 0 {
          break;
        }
        var fillQty := ExecuteFill(t, cs[k], makers[k], remaining);
        assert cs[k..][1..] == cs[k + 1..];
        remaining := remaining - fillQty;
        k := k + 1;
      }
    }

    /** The rows the matching query returns, with their ids. */
    method SelectCounters(t: nat) returns (cs: seq<nat>, makers: seq<Order>)
      requires t < |orders|
      ensures cs == Counters(orders, t, |orders|) && |makers| == |cs|
      ensures forall k :: 0 <= k < |cs| ==> cs[k] < |orders| && cs[k] != t && orders[cs[k]] == makers[k]
      ensures forall k, l :: 0 <= k < l < |cs| ==> cs[k] != cs[l]
    {
      cs := Counters(orders, t, |orders|);
      assert forall k :: 0 <= k < |cs| ==> cs[k] in cs;
      assert forall k, l :: 0 <= k < l < |cs| ==> Before(orders, orders[t].side, cs[k], cs[l]);
      var rows := orders;
      makers := seq(|cs|, k requires 0 <= k < |cs| => rows[cs[k]]);
    }

    /** One trade: write it and update both rows. */
    method ExecuteFill(t: nat, c: nat, maker: Order, remaining: int) returns (fillQty: int)
      requires t < |orders| && c < |orders| && t != c && maker == orders[c]
      requires remaining == Left(orders[t])
      modifies this`orders, this`trades
      ensures View() == Fill(old(View()), t, c)
      ensures Left(orders[t]) == remaining - fillQty
    {
      var taker, counter := orders[t], maker;
      var counterRemaining := counter.quantity - counter.filled;
      fillQty := remaining;
      if counterRemaining < fillQty {
        fillQty := counterRemaining;
      }
      var buyOrder, sellOrder, buyer, seller;
      if taker.side == Buy {
        buyOrder, sellOrder, buyer, seller := t, c, taker.owner, counter.owner;
      } else {
        buyOrder, sellOrder, buyer, seller := c, t, counter.owner, taker.owner;
      }
      trades := trades + [Trade(taker.asset, buyOrder, sellOrder, buyer, seller,
                                counter.price, fillQty, counter.price * fillQty)];
      taker := taker.(filled := taker.filled + fillQty);
      taker := taker.(status := if taker.filled >= taker.quantity then Filled else Partial);
      counter := counter.(filled := counter.filled + fillQty);
      counter := counter.(status := if counter.filled >= counter.quantity then Filled else Partial);
      orders := orders[t := taker][c := counter];
    }

    method CancelOrder(id: nat) returns (r: Result<(), Error>)
      requires Inv(View())
      modifies this`orders
      ensures Inv(View())
      ensures match Cancel(old(View()), id)
              case Ok(b) => View() == b && r == Ok(())
              case Err(e) => View() == old(View()) && r == Err(e)
    {
      if id >= |orders| {
        return Err(OrderNotFound);
      }
      if orders[id].status == Filled || orders[id].status == Cancelled {
        return Err(NotCancellable);
      }
      CancelKeepsInv(View(), id);
      orders := orders[id := orders[id].(status := Cancelled)];
      return Ok(());
    }
  }
}
