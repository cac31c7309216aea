/** Matching refines the greedy allocation, and every run of requests keeps the book sound. */
module OrderBookRuns {
  import opened Common
  import opened Sums
  import opened Allocation
  import opened OrderBook

  // ----- the matching loop is the greedy allocation -----

  function Offers(os: seq<Order>, cs: seq<nat>): seq<int>
    requires forall k :: 0 <= k < |cs| ==> cs[k] < |os|
  {
    seq(|cs|, k requires 0 <= k < |cs| => Left(os[cs[k]]))
  }

  function Prices(os: seq<Order>, cs: seq<nat>): seq<int>
    requires forall k :: 0 <= k < |cs| ==> cs[k] < |os|
  {
    seq(|cs|, k requires 0 <= k < |cs| => os[cs[k]].price)
  }

  function Values(ts: seq<Trade>): seq<int> {
    seq(|ts|, k requires 0 <= k < |ts| => ts[k].totalValue)
  }

  /** The matching state: the ledger is sound, makers are ready and the taker is live while unfilled. */
  ghost predicate Matching(b: Book, t: nat, cs: seq<nat>) {
    && Ledger(b) && Ready(b.orders, t, cs) && UncrossedBut(b.orders, t)
    && (Live(b.orders[t]) <==> 0 < Left(b.orders[t]))
  }

  lemma MatchingStep(b: Book, t: nat, cs: seq<nat>)
    requires Matching(b, t, cs) && cs != [] && 0 < Left(b.orders[t])
    ensures Matching(Fill(b, t, cs[0]), t, cs[1..])
  {
    FillKeepsReady(b, t, cs);
    FillKeepsLedger(b, t, cs[0]);
  }

  lemma OffersPositive(b: Book, t: nat, cs: seq<nat>)
    requires Matching(b, t, cs)
    ensures Positive(Offers(b.orders, cs))
  {
    forall k | 0 <= k < |cs| ensures 0 < Left(b.orders[cs[k]]) {
      assert OrderOk(b.orders[cs[k]]);
    }
  }

  /** The terms of an order never change. */
  ghost predicate SameTerms(o: Order, o': Order) {
    o' == o.(filled := o'.filled, status := o'.status)
  }

  /** What matching leaves behind when it fills maker `cs[k]` by `fills[k]`. */
  ghost predicate FilledBy(b: Book, t: nat, cs: seq<nat>, fills: seq<int>, r: Book)
    requires Ready(b.orders, t, cs) && |fills| == |cs|
  {
    && |r.orders| == |b.orders|
    && r.orders[t].filled == b.orders[t].filled + Sum(fills)
    && (forall k :: 0 <= k < |cs| ==> r.orders[cs[k]].filled == b.orders[cs[k]].filled + fills[k])
    && (forall i :: 0 <= i < |b.orders| && i != t && i !in cs ==> r.orders[i] == b.orders[i])
    && (forall i :: 0 <= i < |b.orders| ==> SameTerms(b.orders[i], r.orders[i]))
  }

  lemma NothingToFill(b: Book, t: nat, cs: seq<nat>)
    requires Matching(b, t, cs) && Left(b.orders[t]) == 0
    ensures var fills := Greedy(Offers(b.orders, cs), 0);
            && FilledBy(b, t, cs, fills, b) && Cost(Prices(b.orders, cs), fills) == 0
  {
    OffersPositive(b, t, cs);
    var offers := Offers(b.orders, cs);
    var fills := Greedy(offers, 0);
    forall k | 0 <= k < |fills| ensures fills[k] == 0 {
      GreedyOfNothing(offers, k);
    }
    AllZero(fills);
    CostOfZeros(Prices(b.orders, cs), fills);
  }

  lemma {:induction false} CostOfZeros(prices: seq<int>, fills: seq<int>)
    requires |prices| == |fills| && forall k :: 0 <= k < |fills| ==> fills[k] == 0
    ensures Cost(prices, fills) == 0
  {
    if prices != [] {
      CostOfZeros(prices[1..], fills[1..]);
    }
  }

  lemma FillShiftsOffers(b: Book, t: nat, cs: seq<nat>)
    requires Ready(b.orders, t, cs) && cs != []
    ensures var os := Fill(b, t, cs[0]).orders;
            && Offers(os, cs[1..]) == Offers(b.orders, cs)[1..]
            && Prices(os, cs[1..]) == Prices(b.orders, cs)[1..]
            && Left(os[t]) == Left(b.orders[t]) - Min(Left(b.orders[t]), Left(b.orders[cs[0]]))
  {
    var os := Fill(b, t, cs[0]).orders;
    assert Crosses(b.orders[t], b.orders[cs[0]]);
    forall k | 1 <= k < |cs| ensures os[cs[k]] == b.orders[cs[k]] {
      assert Crosses(b.orders[t], b.orders[cs[k]]);
    }
  }

  lemma HeadUntouched(b: Book, t: nat, cs: seq<nat>, k: nat)
    requires Ready(b.orders, t, cs) && 0 < k < |cs|
    ensures Fill(b, t, cs[0]).orders[cs[k]] == b.orders[cs[k]]
  {
    assert Crosses(b.orders[t], b.orders[cs[k]]) && Crosses(b.orders[t], b.orders[cs[0]]);
  }

  lemma FillKeepsTerms(b: Book, t: nat, c: nat, i: nat)
    requires t < |b.orders| && c < |b.orders| && t != c && i < |b.orders|
    ensures SameTerms(b.orders[i], Fill(b, t, c).orders[i])
  {
  }

  lemma FilledHeadMaker(b: Book, t: nat, cs: seq<nat>, rest: seq<int>, r: Book, k: nat)
    requires Ready(b.orders, t, cs) && k < |cs|
    requires Ready(Fill(b, t, cs[0]).orders, t, cs[1..]) && |rest| == |cs| - 1
    requires FilledBy(Fill(b, t, cs[0]), t, cs[1..], rest, r)
    ensures r.orders[cs[k]].filled
            == b.orders[cs[k]].filled + ([Min(Left(b.orders[t]), Left(b.orders[cs[0]]))] + rest)[k]
  {
    if k > 0 {
      HeadUntouched(b, t, cs, k);
      assert cs[k] == cs[1..][k - 1];
    } else {
      assert Crosses(b.orders[t], b.orders[cs[0]]);
      assert cs[0] !in cs[1..];
    }
  }

  lemma FilledHeadOther(b: Book, t: nat, cs: seq<nat>, rest: seq<int>, r: Book, i: nat)
    requires Ready(b.orders, t, cs) && cs != [] && i < |b.orders|
    requires Ready(Fill(b, t, cs[0]).orders, t, cs[1..]) && |rest| == |cs| - 1
    requires FilledBy(Fill(b, t, cs[0]), t, cs[1..], rest, r)
    ensures SameTerms(b.orders[i], r.orders[i])
    ensures i != t && i !in cs ==> r.orders[i] == b.orders[i]
  {
    var mid := Fill(b, t, cs[0]);
    assert Crosses(b.orders[t], b.orders[cs[0]]);
    FillKeepsTerms(b, t, cs[0], i);
    assert SameTerms(mid.orders[i], r.orders[i]);
  }

  lemma FilledByHead(b: Book, t: nat, cs: seq<nat>, rest: seq<int>, r: Book)
    requires Ready(b.orders, t, cs) && cs != []
    requires Ready(Fill(b, t, cs[0]).orders, t, cs[1..]) && |rest| == |cs| - 1
    requires FilledBy(Fill(b, t, cs[0]), t, cs[1..], rest, r)
    ensures FilledBy(b, t, cs, [Min(Left(b.orders[t]), Left(b.orders[cs[0]]))] + rest, r)
  {
    var q := Min(Left(b.orders[t]), Left(b.orders[cs[0]]));
    var fills := [q] + rest;
    SumCons(q, rest);
    assert r.orders[t].filled == b.orders[t].filled + Sum(fills);
    forall k | 0 <= k < |cs| ensures r.orders[cs[k]].filled == b.orders[cs[k]].filled + fills[k] {
      FilledHeadMaker(b, t, cs, rest, r, k);
    }
    forall i | 0 <= i < |b.orders|
      ensures SameTerms(b.orders[i], r.orders[i]) && (i != t && i !in cs ==> r.orders[i] == b.orders[i])
    {
      FilledHeadOther(b, t, cs, rest, r, i);
    }
  }

  lemma {:induction false} GreedySplits(b: Book, t: nat, cs: seq<nat>)
    requires Ready(b.orders, t, cs) && cs != [] && Ready(Fill(b, t, cs[0]).orders, t, cs[1..])
    ensures var os := Fill(b, t, cs[0]).orders;
            Greedy(Offers(b.orders, cs), Left(b.orders[t]))
            == [Min(Left(b.orders[t]), Left(b.orders[cs[0]]))] + Greedy(Offers(os, cs[1..]), Left(os[t]))
  {
    FillShiftsOffers(b, t, cs);
  }

  lemma {:induction false} GreedyHead(b: Book, t: nat, cs: seq<nat>, r: Book)
    requires Ready(b.orders, t, cs) && cs != [] && Ready(Fill(b, t, cs[0]).orders, t, cs[1..])
    requires var mid := Fill(b, t, cs[0]);
             FilledBy(mid, t, cs[1..], Greedy(Offers(mid.orders, cs[1..]), Left(mid.orders[t])), r)
    ensures FilledBy(b, t, cs, Greedy(Offers(b.orders, cs), Left(b.orders[t])), r)
  {
    var mid := Fill(b, t, cs[0]);
    GreedySplits(b, t, cs);
    FilledByHead(b, t, cs, Greedy(Offers(mid.orders, cs[1..]), Left(mid.orders[t])), r);
  }

  /** The matching loop fills the makers exactly as the greedy allocation prescribes. */
  lemma {:induction false} MatchIsGreedy(b: Book, t: nat, cs: seq<nat>)
    requires Matching(b, t, cs)
    ensures FilledBy(b, t, cs, Greedy(Offers(b.orders, cs), Left(b.orders[t])), Match(b, t, cs))
    decreases |cs|
  {
    assert OrderOk(b.orders[t]);
    if Left(b.orders[t]) == 0 {
      NothingToFill(b, t, cs);
    } else if cs != [] {
      MatchingStep(b, t, cs);
      MatchIsGreedy(Fill(b, t, cs[0]), t, cs[1..]);
      GreedyHead(b, t, cs, Match(b, t, cs));
    }
  }

  lemma FillSpends(b: Book, t: nat, c: nat)
    requires t < |b.orders| && c < |b.orders|
    ensures Sum(Values(Fill(b, t, c).trades)) == Sum(Values(b.trades))
              + b.orders[c].price * Min(Left(b.orders[t]), Left(b.orders[c]))
  {
    var paid := b.orders[c].price * Min(Left(b.orders[t]), Left(b.orders[c]));
    assert Values(Fill(b, t, c).trades) == Values(b.trades) + [paid];
    SumSnoc(Values(b.trades), paid);
  }

  /** The cost of the greedy fill, one maker at a time. */
  lemma GreedyCostAfterFill(b: Book, t: nat, cs: seq<nat>)
    requires Ready(b.orders, t, cs) && cs != []
    ensures var os := Fill(b, t, cs[0]).orders;
            && Ready(b.orders, t, cs) && |os| == |b.orders|
            && Cost(Prices(b.orders, cs), Greedy(Offers(b.orders, cs), Left(b.orders[t])))
               == b.orders[cs[0]].price * Min(Left(b.orders[t]), Left(b.orders[cs[0]]))
                  + Cost(Prices(os, cs[1..]), Greedy(Offers(os, cs[1..]), Left(os[t])))
  {
    FillShiftsOffers(b, t, cs);
    CostOfGreedy(Prices(b.orders, cs), Offers(b.orders, cs), Left(b.orders[t]));
  }

  /** The trades written while matching are worth what the greedy allocation costs. */
  lemma {:induction false} MatchSpends(b: Book, t: nat, cs: seq<nat>)
    requires Matching(b, t, cs)
    ensures Sum(Values(Match(b, t, cs).trades)) == Sum(Values(b.trades))
              + Cost(Prices(b.orders, cs), Greedy(Offers(b.orders, cs), Left(b.orders[t])))
    decreases |cs|
  {
    assert OrderOk(b.orders[t]);
    if Left(b.orders[t]) == 0 {
      NothingToFill(b, t, cs);
    } else if cs != [] {
      MatchingStep(b, t, cs);
      MatchSpends(Fill(b, t, cs[0]), t, cs[1..]);
      FillSpends(b, t, cs[0]);
      GreedyCostAfterFill(b, t, cs);
    }
  }

  lemma {:induction false} MatchKeepsLedger(b: Book, t: nat, cs: seq<nat>)
    requires Matching(b, t, cs)
    ensures Matching(Match(b, t, cs), t, [])
    decreases |cs|
  {
    if cs != [] && 0 < Left(b.orders[t]) {
      MatchingStep(b, t, cs);
      MatchKeepsLedger(Fill(b, t, cs[0]), t, cs[1..]);
    }
  }

  // ----- creating an order -----

  lemma AppendKeepsLog(b: Book, o: Order)
    requires TradesOk(b) && FillsLogged(b) && o.filled == 0
    ensures TradesOk(Book(b.orders + [o], b.trades)) && FillsLogged(Book(b.orders + [o], b.trades))
  {
    var n, os := |b.orders|, b.orders + [o];
    forall i | 0 <= i < |b.trades| ensures TradeOk(os, b.trades[i]) {
      assert TradeOk(b.orders, b.trades[i]);
    }
    var ts := TradedBy(b.trades, n);
    forall k | 0 <= k < |ts| ensures ts[k] == 0 {
      assert TradeOk(b.orders, b.trades[k]);
    }
    AllZero(ts);
  }

  lemma AppendKeepsBalance(os: seq<Order>, o: Order)
    requires Balanced(os) && o.filled == 0
    ensures Balanced(os + [o])
  {
    forall asset: nat
      ensures Sum(FillColumn(os + [o], asset, Buy)) == Sum(FillColumn(os + [o], asset, Sell))
    {
      AppendColumn(os, o, asset, Buy);
      AppendColumn(os, o, asset, Sell);
    }
  }

  lemma AppendColumn(os: seq<Order>, o: Order, asset: nat, side: Side)
    requires o.filled == 0
    ensures Sum(FillColumn(os + [o], asset, side)) == Sum(FillColumn(os, asset, side))
  {
    assert FillColumn(os + [o], asset, side) == FillColumn(os, asset, side) + [0];
    SumSnoc(FillColumn(os, asset, side), 0);
  }

  lemma AppendUncrossed(os: seq<Order>, o: Order)
    requires Uncrossed(os)
    ensures UncrossedBut(os + [o], |os|)
  {
    forall i, j | 0 <= i < |os| && 0 <= j < |os| ensures !CrossedPair(os + [o], i, j) {
      assert !CrossedPair(os, i, j);
    }
  }

  lemma AppendKeepsLedger(b: Book, o: Order)
    requires Inv(b) && OrderOk(o) && o.status == Open
    ensures Ledger(Book(b.orders + [o], b.trades))
    ensures UncrossedBut(b.orders + [o], |b.orders|)
  {
    AppendKeepsLog(b, o);
    AppendKeepsBalance(b.orders, o);
    AppendUncrossed(b.orders, o);
  }

  ghost predicate ValidOrder(b: Book, assets: set<nat>, o: Order) {
    0 < o.asset && o.asset in assets && 0 < o.price && 0 < o.quantity
  }

  /** The book with the new order appended, before matching starts. */
  function Placed(b: Book, o: Order): Book {
    Book(b.orders + [NewOrder(o.asset, o.owner, o.side, o.price, o.quantity)], b.trades)
  }

  function Makers(b: Book, o: Order): seq<nat> {
    var os := Placed(b, o).orders;
    Counters(os, |b.orders|, |os|)
  }

  lemma CreateStartsMatching(b: Book, assets: set<nat>, o: Order)
    requires Inv(b) && ValidOrder(b, assets, o)
    ensures Matching(Placed(b, o), |b.orders|, Makers(b, o))
  {
    var t, os, cs := |b.orders|, Placed(b, o).orders, Makers(b, o);
    AppendKeepsLedger(b, os[t]);
    assert forall k :: 0 <= k < |cs| ==> cs[k] in cs;
    assert forall k, l :: 0 <= k < l < |cs| ==> Before(os, os[t].side, cs[k], cs[l]);
  }

  /** After matching, the taker is used up or every maker it crosses is. */
  lemma MatchingExhausts(b: Book, t: nat, cs: seq<nat>, k: nat)
    requires Matching(b, t, cs) && k < |cs|
    ensures var r := Match(b, t, cs);
            Left(r.orders[t]) == 0 || Left(r.orders[cs[k]]) == 0
  {
    var offers, q := Offers(b.orders, cs), Left(b.orders[t]);
    assert OrderOk(b.orders[t]);
    MatchIsGreedy(b, t, cs);
    OffersPositive(b, t, cs);
    GreedyTakesAll(offers, q);
    var r, fills := Match(b, t, cs), Greedy(offers, q);
    assert SameTerms(b.orders[t], r.orders[t]) && SameTerms(b.orders[cs[k]], r.orders[cs[k]]);
    if Sum(fills) == Sum(offers) {
      FullAllocation(offers, fills, k);
    }
  }

  lemma {:induction false} FullAllocation(offers: seq<int>, fills: seq<int>, k: nat)
    requires Allocates(offers, fills) && Sum(fills) == Sum(offers) && k < |offers|
    ensures fills[k] == offers[k]
  {
    var n := |offers| - 1;
    AllocationBounds(offers[..n], fills[..n]);
    if k < n {
      FullAllocation(offers[..n], fills[..n], k);
    }
  }

  lemma MatchedOrdersOk(b: Book, t: nat, cs: seq<nat>, m: nat)
    requires Matching(b, t, cs) && m < |b.orders|
    ensures var os := Match(b, t, cs).orders;
            |os| == |b.orders| && OrderOk(os[t]) && OrderOk(os[m])
  {
    MatchIsGreedy(b, t, cs);
    MatchKeepsLedger(b, t, cs);
  }

  /** Taker and maker are not both live any more. */
  lemma MakerApart(b: Book, t: nat, cs: seq<nat>, k: nat)
    requires Matching(b, t, cs) && k < |cs|
    ensures var os := Match(b, t, cs).orders;
            |os| == |b.orders| && !(Live(os[t]) && Live(os[cs[k]]))
  {
    MatchedOrdersOk(b, t, cs, cs[k]);
    MatchingExhausts(b, t, cs, k);
  }

  /** An order the taker did not cross is as it was, and the taker's terms are too. */
  lemma NonMakerApart(b: Book, t: nat, cs: seq<nat>, m: nat)
    requires Matching(b, t, cs) && m < |b.orders| && m != t && m !in cs
    ensures var os := Match(b, t, cs).orders;
            |os| == |b.orders| && SameTerms(b.orders[t], os[t]) && os[m] == b.orders[m]
  {
    MatchIsGreedy(b, t, cs);
  }

  /** Once matching has ended, no order trades with the taker. */
  lemma TakerUncrossed(b: Book, o: Order, m: nat)
    requires Inv(b) && Matching(Placed(b, o), |b.orders|, Makers(b, o)) && m < |b.orders|
    ensures var os := Match(Placed(b, o), |b.orders|, Makers(b, o)).orders;
            !CrossedPair(os, |b.orders|, m) && !CrossedPair(os, m, |b.orders|)
  {
    var t, start, cs := |b.orders|, Placed(b, o), Makers(b, o);
    if m in cs {
      var k :| 0 <= k < |cs| && cs[k] == m;
      MakerApart(start, t, cs, k);
    } else {
      NonMakerApart(start, t, cs, m);
      assert !Crosses(start.orders[t], start.orders[m]);
    }
  }

  /** The book is uncrossed again once the new order has been matched. */
  lemma CreateKeepsInv(b: Book, assets: set<nat>, o: Order)
    requires Inv(b) && Create(b, assets, o).Ok?
    ensures Inv(Create(b, assets, o).value)
  {
    CreateStartsMatching(b, assets, o);
    var t, start, cs := |b.orders|, Placed(b, o), Makers(b, o);
    MatchKeepsLedger(start, t, cs);
    var os := Match(start, t, cs).orders;
    forall i, j | 0 <= i < |os| && 0 <= j < |os| ensures !CrossedPair(os, i, j) {
      if i == t && j < t {
        TakerUncrossed(b, o, j);
      } else if j == t && i < t {
        TakerUncrossed(b, o, i);
      }
    }
  }

  lemma CancelKeepsInv(b: Book, id: nat)
    requires Inv(b) && Cancel(b, id).Ok?
    ensures Inv(Cancel(b, id).value)
  {
    var r := Cancel(b, id).value;
    assert OrderOk(b.orders[id]);
    forall i | 0 <= i < |r.trades| ensures TradeOk(r.orders, r.trades[i]) {
      assert TradeOk(b.orders, b.trades[i]);
    }
    forall asset: nat ensures Sum(FillColumn(r.orders, asset, Buy)) == Sum(FillColumn(r.orders, asset, Sell)) {
      ColumnUpdate(b.orders, id, r.orders[id], asset, Buy);
      ColumnUpdate(b.orders, id, r.orders[id], asset, Sell);
    }
    forall i, j | 0 <= i < |r.orders| && 0 <= j < |r.orders| ensures !CrossedPair(r.orders, i, j) {
      assert !CrossedPair(b.orders, i, j);
    }
  }

  // ----- runs -----

  datatype Op = CreateOp(order: Order) | CancelOp(id: nat)

  function Step(b: Book, assets: set<nat>, op: Op): (r: Book)
    requires Inv(b)
    ensures Inv(r)
  {
    match op
    case CreateOp(o) =>
      var x := Create(b, assets, o);
      if x.Ok? then CreateKeepsInv(b, assets, o); x.value else b
    case CancelOp(id) =>
      var x := Cancel(b, id);
      if x.Ok? then CancelKeepsInv(b, id); x.value else b
  }

  /** The book after a series of requests, starting empty. */
  function Run(assets: set<nat>, ops: seq<Op>): (r: Book)
    ensures Inv(r)
  {
    if ops == [] then
      EmptyBook();
      Book([], [])
    else
      Step(Run(assets, ops[..|ops| - 1]), assets, ops[|ops| - 1])
  }

  lemma EmptyBook()
    ensures Inv(Book([], []))
  {
    forall asset: nat ensures Sum(FillColumn([], asset, Buy)) == Sum(FillColumn([], asset, Sell)) {
      assert FillColumn([], asset, Buy) == [] == FillColumn([], asset, Sell);
    }
  }

  /** After every run no live buy on an asset is priced at or above a live sell on it. */
  lemma BookAlwaysUncrossed(assets: set<nat>, ops: seq<Op>, i: nat, j: nat)
    requires var os := Run(assets, ops).orders;
             && i < |os| && j < |os| && os[i].side == Buy && os[j].side == Sell
             && os[i].asset == os[j].asset && Live(os[i]) && Live(os[j])
    ensures Run(assets, ops).orders[i].price < Run(assets, ops).orders[j].price
  {
    assert !CrossedPair(Run(assets, ops).orders, i, j);
  }

  /** Terms stay, fills only grow, orders no longer live stay as they are, trades are only added. */
  ghost predicate HistoryKept(b: Book, r: Book) {
    && |b.orders| <= |r.orders| && b.trades <= r.trades
    && forall i :: 0 <= i < |b.orders| ==>
         && SameTerms(b.orders[i], r.orders[i])
         && b.orders[i].filled <= r.orders[i].filled
         && (!Live(b.orders[i]) ==> r.orders[i] == b.orders[i])
  }

  /** Filled and cancelled orders never change again, and trades are never rewritten. */
  lemma {:induction false} RunKeepsHistory(assets: set<nat>, ops: seq<Op>, more: seq<Op>)
    ensures HistoryKept(Run(assets, ops), Run(assets, ops + more))
  {
    if more == [] {
      assert ops + more == ops;
    } else {
      var n := |more| - 1;
      var c := Run(assets, ops + more[..n]);
      RunKeepsHistory(assets, ops, more[..n]);
      StepKeepsHistory(c, assets, more[n]);
      HistoryTransitive(Run(assets, ops), c, Step(c, assets, more[n]));
      RunAppend(assets, ops, more);
    }
  }

  lemma {:induction false} RunAppend(assets: set<nat>, ops: seq<Op>, more: seq<Op>)
    requires more != []
    ensures Run(assets, ops + more) == Step(Run(assets, ops + more[..|more| - 1]), assets, more[|more| - 1])
  {
    assert (ops + more)[..|ops + more| - 1] == ops + more[..|more| - 1];
  }

  lemma HistoryTransitive(b: Book, c: Book, d: Book)
    requires HistoryKept(b, c) && HistoryKept(c, d)
    ensures HistoryKept(b, d)
  {
    forall i | 0 <= i < |b.orders|
      ensures SameTerms(b.orders[i], d.orders[i]) && b.orders[i].filled <= d.orders[i].filled
      ensures !Live(b.orders[i]) ==> d.orders[i] == b.orders[i]
    {
      assert SameTerms(b.orders[i], c.orders[i]) && SameTerms(c.orders[i], d.orders[i]);
    }
  }

  lemma StepKeepsHistory(b: Book, assets: set<nat>, op: Op)
    requires Inv(b)
    ensures HistoryKept(b, Step(b, assets, op))
  {
    match op
    case CreateOp(o) =>
      if Create(b, assets, o).Ok? {
        CreateStartsMatching(b, assets, o);
        var t, start, cs := |b.orders|, Placed(b, o), Makers(b, o);
        var offers := Offers(start.orders, cs);
        MatchIsGreedy(start, t, cs);
        OffersPositive(start, t, cs);
        GreedyTakesAll(offers, Left(start.orders[t]));
        MatchExtendsTrades(start, t, cs);
        var r := Match(start, t, cs);
        forall i | 0 <= i < |b.orders|
          ensures SameTerms(b.orders[i], r.orders[i]) && b.orders[i].filled <= r.orders[i].filled
          ensures !Live(b.orders[i]) ==> r.orders[i] == b.orders[i]
        {
          assert start.orders[i] == b.orders[i] && SameTerms(start.orders[i], r.orders[i]);
          if i in cs {
            var k :| 0 <= k < |cs| && cs[k] == i;
            assert Crosses(start.orders[t], start.orders[cs[k]]);
          } else {
            assert r.orders[i] == start.orders[i];
          }
        }
      }
    case CancelOp(id) =>
  }

  lemma {:induction false} MatchExtendsTrades(b: Book, t: nat, cs: seq<nat>)
    requires t < |b.orders| && forall k :: 0 <= k < |cs| ==> cs[k] < |b.orders|
    ensures b.trades <= Match(b, t, cs).trades
    decreases |cs|
  {
    if cs != [] && 0 < Left(b.orders[t]) {
      MatchExtendsTrades(Fill(b, t, cs[0]), t, cs[1..]);
    }
  }

  // ----- the taker gets the best deal the book offers -----

  /** The money that changes hands when an order is created. */
  function Spent(b: Book, assets: set<nat>, o: Order): int
    requires Create(b, assets, o).Ok?
  {
    Sum(Values(Create(b, assets, o).value.trades)) - Sum(Values(b.trades))
  }

  lemma RanksAscend(b: Book, o: Order)
    ensures Ascending(Ranks(o.side, Prices(Placed(b, o).orders, Makers(b, o))))
  {
    var os, cs := Placed(b, o).orders, Makers(b, o);
    assert os[|b.orders|].side == o.side;
    forall i, j | 0 <= i < j < |cs| ensures Rank(o.side, os[cs[i]].price) <= Rank(o.side, os[cs[j]].price) {
      assert Before(os, o.side, cs[i], cs[j]);
    }
  }

  function Ranks(side: Side, prices: seq<int>): seq<int> {
    seq(|prices|, k requires 0 <= k < |prices| => Rank(side, prices[k]))
  }

  lemma BestForSide(side: Side, prices: seq<int>, offers: seq<int>, q: int, xs: seq<int>)
    requires |prices| == |offers| && Ascending(Ranks(side, prices)) && Positive(offers)
    requires Allocates(offers, xs) && Sum(xs) == q
    ensures var (greedy, other) := (Cost(prices, Greedy(offers, q)), Cost(prices, xs));
            if side == Buy then greedy <= other else other <= greedy
  {
    var ranks := Ranks(side, prices);
    GreedyIsCheapest(ranks, offers, q, xs);
    if side == Buy {
      assert ranks == prices;
    } else {
      CostNegated(prices, ranks, xs);
      CostNegated(prices, ranks, Greedy(offers, q));
    }
  }

  lemma CreateIsGreedy(b: Book, assets: set<nat>, o: Order)
    requires Inv(b) && ValidOrder(b, assets, o)
    ensures var offers := Offers(Placed(b, o).orders, Makers(b, o));
            var filled := Min(o.quantity, Sum(offers));
            && Positive(offers)
            && Create(b, assets, o).value.orders[|b.orders|].filled == filled
            && Spent(b, assets, o) == Cost(Prices(Placed(b, o).orders, Makers(b, o)), Greedy(offers, filled))
  {
    var t, start, cs := |b.orders|, Placed(b, o), Makers(b, o);
    CreateStartsMatching(b, assets, o);
    MatchIsGreedy(start, t, cs);
    MatchSpends(start, t, cs);
    OffersPositive(start, t, cs);
    GreedyTakesAll(Offers(start.orders, cs), o.quantity);
    GreedyStable(Offers(start.orders, cs), o.quantity);
  }

  /**
   A new order fills the smaller of its quantity and everything that crosses it, and no other
   allocation of that quantity over the crossing orders costs a buyer less or pays a seller more.
   */
  lemma TakerGetsBestDeal(b: Book, assets: set<nat>, o: Order, xs: seq<int>)
    requires Inv(b) && ValidOrder(b, assets, o)
    requires Allocates(Offers(Placed(b, o).orders, Makers(b, o)), xs)
    requires Sum(xs) == Create(b, assets, o).value.orders[|b.orders|].filled
    ensures Sum(xs) == Min(o.quantity, Sum(Offers(Placed(b, o).orders, Makers(b, o))))
    ensures var value := Cost(Prices(Placed(b, o).orders, Makers(b, o)), xs);
            if o.side == Buy then Spent(b, assets, o) <= value else value <= Spent(b, assets, o)
  {
    var os, cs := Placed(b, o).orders, Makers(b, o);
    CreateIsGreedy(b, assets, o);
    RanksAscend(b, o);
    BestForSide(o.side, Prices(os, cs), Offers(os, cs), Sum(xs), xs);
  }

  lemma {:induction false} GreedyFull(offers: seq<int>, q: int)
    requires Positive(offers) && Sum(offers) <= q
    ensures Greedy(offers, q) == offers
  {
    if offers != [] {
      SumHead(offers);
      SumPositive(offers[1..]);
      GreedyFull(offers[1..], q - offers[0]);
      assert [offers[0]] + offers[1..] == offers;
    }
  }

  /** Asking for more than there is changes nothing. */
  lemma GreedyStable(offers: seq<int>, q: int)
    requires Positive(offers)
    ensures Greedy(offers, Min(q, Sum(offers))) == Greedy(offers, q)
  {
    if Sum(offers) < q {
      GreedyFull(offers, q);
      GreedyFull(offers, Sum(offers));
    }
  }

  /** A maker trades only when every maker with priority over it ends completely filled. */
  lemma PriorityRespected(b: Book, assets: set<nat>, o: Order, j: nat, k: nat)
    requires Inv(b) && ValidOrder(b, assets, o)
    requires j < k < |Makers(b, o)|
    requires var r := Create(b, assets, o).value; var c := Makers(b, o)[k];
             c < |b.orders| && b.orders[c].filled < r.orders[c].filled
    ensures Create(b, assets, o).value.orders[Makers(b, o)[j]].status == Filled
  {
    var t, start, cs := |b.orders|, Placed(b, o), Makers(b, o);
    CreateStartsMatching(b, assets, o);
    MatchIsGreedy(start, t, cs);
    OffersPositive(start, t, cs);
    CreateKeepsInv(b, assets, o);
    GreedyRespectsPriority(Offers(start.orders, cs), o.quantity, j, k);
    var r, c := Match(start, t, cs), cs[j];
    assert SameTerms(start.orders[c], r.orders[c]) && OrderOk(r.orders[c]);
  }
}
