/**
 Filling a quantity greedily from a list of offers sorted by price.

 `Greedy` is what the matching loop computes. The theorems here compare it with every other way
 of taking the same quantity from the same offers.
 */
module Allocation {
  import opened Common
  import opened Sums

  /** Take as much as possible from each offer in turn. */
  function Greedy(offers: seq<int>, q: int): (fills: seq<int>)
    ensures |fills| == |offers|
  {
    if offers == [] then []
    else
      var f := Min(q, offers[0]);
      [f] + Greedy(offers[1..], q - f)
  }

  function Cost(prices: seq<int>, fills: seq<int>): int
    requires |prices| == |fills|
  {
    if prices == [] then 0
    else prices[0] * fills[0] + Cost(prices[1..], fills[1..])
  }

  ghost predicate Positive(s: seq<int>) {
    forall i :: 0 <= i < |s| ==> 0 < s[i]
  }

  ghost predicate Ascending(s: seq<int>) {
    forall i, j :: 0 <= i <= j < |s| ==> s[i] <= s[j]
  }

  /** A way of taking a quantity from the offers, no offer beyond its size. */
  ghost predicate Allocates(offers: seq<int>, fills: seq<int>) {
    |fills| == |offers| && forall i :: 0 <= i < |offers| ==> 0 <= fills[i] <= offers[i]
  }

  lemma SumCons(x: int, s: seq<int>)
    ensures Sum([x] + s) == x + Sum(s)
  {
    SumConcat([x], s);
    assert [x][..0] == [];
  }

  lemma SumHead(s: seq<int>)
    requires s != []
    ensures Sum(s) == s[0] + Sum(s[1..])
  {
    SumCons(s[0], s[1..]);
    assert s == [s[0]] + s[1..];
  }

  lemma {:induction false} SumPositive(s: seq<int>)
    requires Positive(s)
    ensures |s| <= Sum(s)
  {
    if s != [] {
      SumPositive(s[..|s| - 1]);
    }
  }

  lemma {:induction false} GreedyAllocates(offers: seq<int>, q: int)
    requires Positive(offers) && 0 <= q
    ensures Allocates(offers, Greedy(offers, q))
  {
    if offers != [] {
      GreedyAllocates(offers[1..], q - Min(q, offers[0]));
    }
  }

  lemma {:induction false} GreedySum(offers: seq<int>, q: int)
    requires Positive(offers) && 0 <= q
    ensures Sum(Greedy(offers, q)) == Min(q, Sum(offers))
  {
    if offers != [] {
      var f := Min(q, offers[0]);
      GreedySum(offers[1..], q - f);
      SumHead(offers);
      SumCons(f, Greedy(offers[1..], q - f));
      SumPositive(offers[1..]);
    }
  }

  /** The greedy fill is an allocation, and it takes all that is wanted or all there is. */
  lemma GreedyTakesAll(offers: seq<int>, q: int)
    requires Positive(offers) && 0 <= q
    ensures Allocates(offers, Greedy(offers, q))
    ensures Sum(Greedy(offers, q)) == Min(q, Sum(offers))
  {
    GreedyAllocates(offers, q);
    GreedySum(offers, q);
  }

  /** An offer is touched only when every earlier offer is used up. */
  lemma {:induction false} GreedyRespectsPriority(offers: seq<int>, q: int, j: nat, k: nat)
    requires Positive(offers) && 0 <= q && j < k < |offers|
    requires 0 < Greedy(offers, q)[k]
    ensures Greedy(offers, q)[j] == offers[j]
  {
    var f := Min(q, offers[0]);
    if j == 0 {
      if q < offers[0] {
        GreedyOfNothing(offers[1..], k - 1);
      }
    } else {
      GreedyRespectsPriority(offers[1..], q - f, j - 1, k - 1);
    }
  }

  lemma {:induction false} GreedyOfNothing(offers: seq<int>, k: nat)
    requires Positive(offers) && k < |offers|
    ensures Greedy(offers, 0)[k] == 0
  {
    if k > 0 {
      GreedyOfNothing(offers[1..], k - 1);
    }
  }

  lemma CostOfGreedy(prices: seq<int>, offers: seq<int>, q: int)
    requires |prices| == |offers| && offers != []
    ensures var f := Min(q, offers[0]);
            Cost(prices, Greedy(offers, q)) == prices[0] * f + Cost(prices[1..], Greedy(offers[1..], q - f))
  {
    var f := Min(q, offers[0]);
    assert Greedy(offers, q)[1..] == Greedy(offers[1..], q - f);
  }

  lemma MarginalStep(price: int, p: int, f: int, f': int, d: int, d': int, less: int, more: int)
    requires p <= price && f <= f' && d == (f' - f) + d' && more >= less + p * d'
    ensures price * f' + more >= price * f + less + p * d
  {
    assert price * f' == price * f + price * (f' - f);
    assert p * d == p * (f' - f) + p * d';
    assert (price - p) * (f' - f) >= 0;
    assert (price - p) * (f' - f) == price * (f' - f) - p * (f' - f);
  }

  /** Each further unit costs at least the lowest price in the list. */
  lemma {:induction false} MoreCostsMore(prices: seq<int>, offers: seq<int>, q: int, d: int, p: int)
    requires |prices| == |offers| && Positive(offers) && 0 <= q && 0 <= d && q + d <= Sum(offers)
    requires forall i :: 0 <= i < |prices| ==> p <= prices[i]
    ensures Cost(prices, Greedy(offers, q + d)) >= Cost(prices, Greedy(offers, q)) + p * d
  {
    if offers == [] {
      assert Sum(offers) == 0;
    } else {
      var f, f' := Min(q, offers[0]), Min(q + d, offers[0]);
      var d' := d - (f' - f);
      SumHead(offers);
      SumPositive(offers[1..]);
      MoreCostsMore(prices[1..], offers[1..], q - f, d', p);
      assert q - f + d' == q + d - f';
      CostOfGreedy(prices, offers, q);
      CostOfGreedy(prices, offers, q + d);
      MarginalStep(prices[0], p, f, f', d, d', Cost(prices[1..], Greedy(offers[1..], q - f)),
                   Cost(prices[1..], Greedy(offers[1..], q + d - f')));
    }
  }

  lemma HeadExchange(f: int, x: int, p: int, least: int, rest: int, other: int)
    requires least >= rest + p * (f - x) && other >= least
    ensures p * f + rest <= p * x + other
  {
    assert p * f == p * x + p * (f - x);
  }

  /** No allocation of the same quantity over ascending prices costs less than the greedy one. */
  lemma {:induction false} GreedyIsCheapest(prices: seq<int>, offers: seq<int>, q: int, xs: seq<int>)
    requires |prices| == |offers| && Ascending(prices) && Positive(offers)
    requires Allocates(offers, xs) && Sum(xs) == q
    ensures 0 <= q <= Sum(offers)
    ensures Cost(prices, Greedy(offers, q)) <= Cost(prices, xs)
  {
    AllocationBounds(offers, xs);
    if offers != [] {
      var p, f, x := prices[0], Min(q, offers[0]), xs[0];
      var rest := offers[1..];
      SumHead(xs);
      SumHead(offers);
      AllocationBounds(rest, xs[1..]);
      GreedyIsCheapest(prices[1..], rest, q - x, xs[1..]);
      MoreCostsMore(prices[1..], rest, q - f, f - x, p);
      CostOfGreedy(prices, offers, q);
      HeadExchange(f, x, p, Cost(prices[1..], Greedy(rest, q - x)),
                   Cost(prices[1..], Greedy(rest, q - f)), Cost(prices[1..], xs[1..]));
    }
  }

  lemma {:induction false} AllocationBounds(offers: seq<int>, xs: seq<int>)
    requires Allocates(offers, xs)
    ensures 0 <= Sum(xs) <= Sum(offers)
  {
    if offers != [] {
      var n := |offers| - 1;
      AllocationBounds(offers[..n], xs[..n]);
    }
  }

  /** Negating prices negates the cost, which turns cheapest into dearest. */
  lemma {:induction false} CostNegated(prices: seq<int>, negated: seq<int>, xs: seq<int>)
    requires |prices| == |negated| == |xs|
    requires forall i :: 0 <= i < |prices| ==> negated[i] == -prices[i]
    ensures Cost(negated, xs) == -Cost(prices, xs)
  {
    if prices != [] {
      CostNegated(prices[1..], negated[1..], xs[1..]);
      assert negated[0] * xs[0] == -(prices[0] * xs[0]);
    }
  }
}
