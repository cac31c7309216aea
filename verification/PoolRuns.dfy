/** What holds of a liquidity pool over every sequence of requests. */
module PoolRuns {
  import opened PoolMath
  import opened PoolSpec
  import opened Sums

  datatype Op =
    | AddOp(who: string, a: int, b: int)
    | RemoveOp(who: string, tokens: int)
    | SwapOp(trader: string, asset: nat, dx: int, minOut: int)

  /** The pool after one request, unchanged when the request is rejected. */
  function Step(p: Pool, op: Op): (q: Pool)
    requires Inv(p)
    ensures Inv(q)
  {
    match op
    case AddOp(who, a, b) =>
      var r := Add(p, who, a, b);
      if r.Accepted? then AddKeepsInv(p, who, a, b); r.pool else p
    case RemoveOp(who, tokens) =>
      var r := Remove(p, who, tokens);
      if r.Accepted? then RemoveKeepsInv(p, who, tokens); r.pool else p
    case SwapOp(trader, asset, dx, minOut) =>
      var r := Swap(p, trader, asset, dx, minOut);
      if r.Accepted? then SwapKeepsInv(p, trader, asset, dx, minOut); r.pool else p
  }

  /** Every reachable pool is well formed, so no division in a request is by zero. */
  function Run(p: Pool, ops: seq<Op>): (q: Pool)
    requires Inv(p)
    ensures Inv(q)
    decreases |ops|
  {
    if ops == [] then p else Run(Step(p, ops[0]), ops[1..])
  }

  lemma NewPoolWellFormed(assetA: nat, assetB: nat, feeBps: int)
    requires assetA != assetB && 0 <= feeBps <= BPS
    ensures Inv(NewPool(assetA, assetB, feeBps))
  {
    assert Lps([]) == [] && Fees([]) == [] && SwapFees([]) == [];
  }

  // ----- what the requests pay, stated without their formulas -----

  /**
   A deposit mints the largest number of tokens that dilutes neither reserve; the first deposit
   mints the largest number whose square its product covers.
   */
  lemma MintIsLargestFair(p: Pool, a: int, b: int, m: nat)
    requires Inv(p) && 0 < a && 0 < b
    ensures m <= MintAmount(p, a, b) <==>
            if p.totalLp == 0 then m * m <= a * b
            else m * p.reserveA <= a * p.totalLp && m * p.reserveB <= b * p.totalLp
  {
    if p.totalLp == 0 {
      ISqrtExact(m, a * b);
    } else {
      FloorExact(m, a * p.totalLp, p.reserveA);
      FloorExact(m, b * p.totalLp, p.reserveB);
    }
  }

  /** Burning pays the largest amounts within the burnt share of each reserve. */
  lemma BurnIsLargestFair(p: Pool, who: string, tokens: int, w: int)
    requires Inv(p) && Remove(p, who, tokens).Accepted?
    ensures var paid := Remove(p, who, tokens).value;
            && (w <= paid.0 <==> w * p.totalLp <= tokens * p.reserveA)
            && (w <= paid.1 <==> w * p.totalLp <= tokens * p.reserveB)
  {
    FloorExact(w, tokens * p.reserveA, p.totalLp);
    FloorExact(w, tokens * p.reserveB, p.totalLp);
  }

  /**
   A swap pays the largest amount that keeps the product of the reserves when only the input after
   the fee counts, and that input is the largest the fee rate allows.
   */
  lemma SwapIsLargestFair(p: Pool, trader: string, asset: nat, dx: int, minOut: int, o: int, n: int)
    requires Inv(p) && Swap(p, trader, asset, dx, minOut).Accepted?
    ensures var swap := Swap(p, trader, asset, dx, minOut).value;
            var (x, y, net) := (ReserveIn(p, asset), ReserveOut(p, asset), dx - swap.fee);
            && (o <= swap.output <==> (x + net) * (y - o) >= x * y)
            && (n <= net <==> n * BPS <= dx * (BPS - p.feeBps))
  {
    AfterFeeBounds(dx, p.feeBps);
    OutputExact(ReserveIn(p, asset), ReserveOut(p, asset), AfterFee(dx, p.feeBps), o);
    FloorExact(n, dx * (BPS - p.feeBps), BPS);
  }

  // ----- the value behind a share -----

  lemma StepKeepsShareValue(p: Pool, op: Op)
    requires Inv(p)
    ensures ShareValueKept(p, Step(p, op))
  {
    match op
    case AddOp(who, a, b) =>
      if Add(p, who, a, b).Accepted? { AddKeepsInv(p, who, a, b); }
    case RemoveOp(who, tokens) =>
      if Remove(p, who, tokens).Accepted? { RemoveKeepsInv(p, who, tokens); }
    case SwapOp(trader, asset, dx, minOut) =>
      if Swap(p, trader, asset, dx, minOut).Accepted? { SwapKeepsInv(p, trader, asset, dx, minOut); }
  }

  /** The pool holds liquidity from the start of the run to its end. */
  ghost predicate StaysFunded(p: Pool, ops: seq<Op>)
    requires Inv(p)
    decreases |ops|
  {
    0 < p.totalLp && (ops != [] ==> StaysFunded(Step(p, ops[0]), ops[1..]))
  }

  /** Between two empty states of a pool, the value behind one LP token never falls. */
  lemma {:induction false} ShareValueNeverFalls(p: Pool, ops: seq<Op>)
    requires Inv(p) && StaysFunded(p, ops)
    ensures ShareValueKept(p, Run(p, ops))
    decreases |ops|
  {
    if ops != [] {
      var p1 := Step(p, ops[0]);
      var q := Run(p1, ops[1..]);
      StepKeepsShareValue(p, ops[0]);
      ShareValueNeverFalls(p1, ops[1..]);
      ShareValueTransitive(p, p1, q);
    }
  }

  lemma ShareValueTransitive(p: Pool, q: Pool, r: Pool)
    requires ShareValueKept(p, q) && ShareValueKept(q, r) && 0 < q.totalLp
    ensures ShareValueKept(p, r)
  {
    var l0, l1, l2 := p.totalLp * p.totalLp, q.totalLp * q.totalLp, r.totalLp * r.totalLp;
    assert 0 <= l0 && 0 < l1 && 0 <= l2;
    ValueKeptTransitive(p.reserveA * p.reserveB, l0, q.reserveA * q.reserveB, l1, r.reserveA * r.reserveB, l2);
  }

  // ----- swaps -----

  /** Input and output of the accepted swaps among `reqs`, each a pair (amount, minimum output). */
  function SwapTotals(p: Pool, trader: string, asset: nat, reqs: seq<(int, int)>): (t: (int, int))
    requires Inv(p)
    decreases |reqs|
  {
    if reqs == [] then (0, 0)
    else
      var r := Swap(p, trader, asset, reqs[0].0, reqs[0].1);
      if r.Accepted? then
        SwapKeepsInv(p, trader, asset, reqs[0].0, reqs[0].1);
        var t := SwapTotals(r.pool, trader, asset, reqs[1..]);
        (reqs[0].0 + t.0, r.value.output + t.1)
      else SwapTotals(p, trader, asset, reqs[1..])
  }

  lemma TwoQuotesAtMostOne(p: Pool, trader: string, asset: nat, d: int, minOut: int, rest: int)
    requires Inv(p) && Swap(p, trader, asset, d, minOut).Accepted? && 0 <= rest
    ensures var r := Swap(p, trader, asset, d, minOut);
            && Inv(r.pool) && 0 < r.pool.totalLp
            && r.value.output + Quote(r.pool, asset, rest) <= Quote(p, asset, d + rest)
  {
    SwapKeepsInv(p, trader, asset, d, minOut);
    AfterFeeBounds(d, p.feeBps);
    AfterFeeBounds(rest, p.feeBps);
    AfterFeeSuperadditive(d, rest, p.feeBps);
    TwoSwapsAtMostOne(ReserveIn(p, asset), ReserveOut(p, asset), d,
                      AfterFee(d, p.feeBps), AfterFee(rest, p.feeBps), AfterFee(d + rest, p.feeBps));
  }

  lemma QuoteOfNothing(p: Pool, asset: nat)
    requires Inv(p) && 0 < p.totalLp
    ensures 0 <= Quote(p, asset, 0)
  {
    AfterFeeBounds(0, p.feeBps);
    OutputBounds(ReserveIn(p, asset), ReserveOut(p, asset), 0);
  }

  lemma {:induction false} SplitAtMostQuote(p: Pool, trader: string, asset: nat, reqs: seq<(int, int)>)
    requires Inv(p) && 0 < p.totalLp
    ensures var t := SwapTotals(p, trader, asset, reqs);
            && 0 <= t.0 && 0 <= t.1 <= Quote(p, asset, t.0)
            && (0 < t.1 ==> 0 < t.0 && p.active && 0 < asset && (asset == p.assetA || asset == p.assetB))
    decreases |reqs|
  {
    if reqs == [] {
      QuoteOfNothing(p, asset);
    } else {
      var (d, m) := reqs[0];
      var r := Swap(p, trader, asset, d, m);
      if r.Accepted? {
        SwapKeepsInv(p, trader, asset, d, m);
        SplitAtMostQuote(r.pool, trader, asset, reqs[1..]);
        TwoQuotesAtMostOne(p, trader, asset, d, m, SwapTotals(r.pool, trader, asset, reqs[1..]).0);
      } else {
        SplitAtMostQuote(p, trader, asset, reqs[1..]);
      }
    }
  }

  /**
   Splitting never helps: whatever a series of swaps in one direction pays out in total, one
   swap of the total accepted input is accepted and pays at least as much.
   */
  lemma SplittingNeverHelps(p: Pool, trader: string, asset: nat, reqs: seq<(int, int)>)
    requires Inv(p)
    ensures var t := SwapTotals(p, trader, asset, reqs);
            0 < t.1 ==> var one := Swap(p, trader, asset, t.0, 0);
                        one.Accepted? && t.1 <= one.value.output
  {
    if 0 < p.totalLp {
      SplitAtMostQuote(p, trader, asset, reqs);
    } else {
      NoSwapsWhenEmpty(p, trader, asset, reqs);
    }
  }

  lemma {:induction false} NoSwapsWhenEmpty(p: Pool, trader: string, asset: nat, reqs: seq<(int, int)>)
    requires Inv(p) && p.totalLp == 0
    ensures SwapTotals(p, trader, asset, reqs) == (0, 0)
    decreases |reqs|
  {
    if reqs != [] {
      NoSwapsWhenEmpty(p, trader, asset, reqs[1..]);
    }
  }

  /** Over any series of swaps, in any directions, the product of the reserves never falls. */
  lemma {:induction false} SwapsKeepProduct(p: Pool, ops: seq<Op>)
    requires Inv(p) && forall op :: op in ops ==> op.SwapOp?
    ensures Run(p, ops).reserveA * Run(p, ops).reserveB >= p.reserveA * p.reserveB
    decreases |ops|
  {
    if ops != [] {
      var op := ops[0];
      assert op in ops;
      if Swap(p, op.trader, op.asset, op.dx, op.minOut).Accepted? {
        SwapKeepsReserves(p, op.trader, op.asset, op.dx, op.minOut);
      }
      SwapsKeepProduct(Step(p, op), ops[1..]);
    }
  }

  /** Traders never take from one reserve without having paid into the other. */
  lemma NoFreeLunch(p: Pool, ops: seq<Op>)
    requires Inv(p) && forall op :: op in ops ==> op.SwapOp?
    ensures var q := Run(p, ops);
            && (q.reserveA < p.reserveA ==> p.reserveB < q.reserveB)
            && (q.reserveB < p.reserveB ==> p.reserveA < q.reserveA)
  {
    SwapsKeepProduct(p, ops);
    ProductTrades(p.reserveA, p.reserveB, Run(p, ops).reserveA, Run(p, ops).reserveB);
  }

  // ----- round trips -----

  /** Swapping the whole output back never returns more than was paid in. */
  lemma SwapBackNeverProfits(p: Pool, trader: string, asset: nat, dx: int, minOut: int, minBack: int)
    requires Inv(p) && Swap(p, trader, asset, dx, minOut).Accepted?
    ensures var first := Swap(p, trader, asset, dx, minOut);
            && Inv(first.pool)
            && var back := Swap(first.pool, trader, first.value.outputAsset, first.value.output, minBack);
               back.Accepted? ==> back.value.output <= dx && back.value.outputAsset == asset
  {
    var first := Swap(p, trader, asset, dx, minOut);
    SwapKeepsInv(p, trader, asset, dx, minOut);
    AfterFeeBounds(dx, p.feeBps);
    OutputBounds(ReserveIn(p, asset), ReserveOut(p, asset), AfterFee(dx, p.feeBps));
    AfterFeeBounds(first.value.output, p.feeBps);
    SwapBackAtMostInput(ReserveIn(p, asset), ReserveOut(p, asset), dx, AfterFee(dx, p.feeBps),
                        AfterFee(first.value.output, p.feeBps));
  }

  /** Burning exactly the tokens a deposit minted is accepted and returns at most the deposit. */
  lemma AddThenBurnNeverProfits(p: Pool, who: string, a: int, b: int)
    requires Inv(p) && Add(p, who, a, b).Accepted?
    ensures var added := Add(p, who, a, b);
            && Inv(added.pool)
            && var burnt := Remove(added.pool, who, added.value);
               burnt.Accepted? && burnt.value.0 <= a && burnt.value.1 <= b
  {
    AddKeepsInv(p, who, a, b);
    var q, m := Add(p, who, a, b).pool, Add(p, who, a, b).value;
    DepositFindsProvider(p.positions, who, m, a, b);
    if p.totalLp == 0 {
      BurnKeepsShare(a, m, m);
      BurnKeepsShare(b, m, m);
    } else {
      MintThenBurn(p.reserveA, p.totalLp, a, m);
      MintThenBurn(p.reserveB, p.totalLp, b, m);
    }
  }

  lemma DepositFindsProvider(ps: seq<Position>, who: string, minted: nat, a: nat, b: nat)
    ensures var qs := Deposit(ps, who, minted, a, b);
            Find(qs, who) < |qs| && minted <= qs[Find(qs, who)].lp
  {
    var i, qs := Find(ps, who), Deposit(ps, who, minted, a, b);
    assert qs[i].provider == who;
    assert forall k :: 0 <= k < i ==> qs[k] == ps[k];
  }

  // ----- fee credits over the pool's life -----

  /** Swap fees charged so far that no position was credited with. */
  function Uncredited(p: Pool): int {
    Sum(SwapFees(p.swaps)) - Sum(Fees(p.positions))
  }

  /** Active positions, counted once for each accepted swap. */
  function CreditedRows(p: Pool, ops: seq<Op>): nat
    requires Inv(p)
    decreases |ops|
  {
    if ops == [] then 0
    else
      var op, q := ops[0], Step(p, ops[0]);
      CreditedRows(q, ops[1..])
        + if op.SwapOp? && Swap(p, op.trader, op.asset, op.dx, op.minOut).Accepted?
          then CountActive(Lps(p.positions)) else 0
  }

  lemma SwapLeavesLessThanRows(p: Pool, trader: string, asset: nat, dx: int, minOut: int)
    requires Inv(p) && Swap(p, trader, asset, dx, minOut).Accepted?
    ensures var q := Swap(p, trader, asset, dx, minOut).pool;
            Uncredited(p) <= Uncredited(q) < Uncredited(p) + CountActive(Lps(p.positions))
  {
    var swap := Swap(p, trader, asset, dx, minOut).value;
    AfterFeeBounds(dx, p.feeBps);
    FeeCreditsBounded(p.positions, swap.fee);
    SwapFeesSnoc(p.swaps, swap);
  }

  lemma OthersLeaveFees(p: Pool, op: Op)
    requires Inv(p) && !op.SwapOp?
    ensures Uncredited(Step(p, op)) == Uncredited(p)
  {
    match op
    case AddOp(who, a, b) =>
      if Add(p, who, a, b).Accepted? {
        DepositSums(p.positions, who, MintAmount(p, a, b), a, b);
      }
    case RemoveOp(who, tokens) =>
      if Remove(p, who, tokens).Accepted? {
        BurnSums(p.positions, Find(p.positions, who), tokens);
      }
  }

  /**
   Over any run, the fees credited to positions never exceed the fees charged, and fall short of
   them by at most one unit per active position and swap.
   */
  lemma {:induction false} LifetimeFeesBounded(p: Pool, ops: seq<Op>)
    requires Inv(p)
    ensures 0 <= Uncredited(p) <= Uncredited(Run(p, ops)) <= Uncredited(p) + CreditedRows(p, ops)
    decreases |ops|
  {
    if ops != [] {
      var op := ops[0];
      LifetimeFeesBounded(Step(p, op), ops[1..]);
      if !op.SwapOp? {
        OthersLeaveFees(p, op);
      } else if Swap(p, op.trader, op.asset, op.dx, op.minOut).Accepted? {
        SwapLeavesLessThanRows(p, op.trader, op.asset, op.dx, op.minOut);
      }
    }
  }

  // ----- where the reserves come from -----

  function Deposits(ps: seq<Position>, toA: bool): seq<int> {
    seq(|ps|, i requires 0 <= i < |ps| => if toA then ps[i].depositedA else ps[i].depositedB)
  }

  /** What each recorded swap moved into the reserve of the asset. */
  function Flows(ss: seq<SwapRecord>, asset: nat): seq<int> {
    seq(|ss|, i requires 0 <= i < |ss| => Flow(ss[i], asset))
  }

  function Flow(swap: SwapRecord, asset: nat): int {
    if swap.inputAsset == asset then swap.input
    else if swap.outputAsset == asset then -swap.output else 0
  }

  /** The part of a reserve that neither recorded deposits nor recorded swaps explain. */
  function Unexplained(p: Pool, asset: nat): int {
    ReserveIn(p, asset) - Sum(Deposits(p.positions, asset == p.assetA)) - Sum(Flows(p.swaps, asset))
  }

  /** Total paid out of one reserve to providers who burn tokens. */
  function Withdrawn(p: Pool, ops: seq<Op>, fromA: bool): int
    requires Inv(p)
    decreases |ops|
  {
    if ops == [] then 0
    else
      var op := ops[0];
      Withdrawn(Step(p, op), ops[1..], fromA)
        + if op.RemoveOp? && Remove(p, op.who, op.tokens).Accepted?
          then var w := Remove(p, op.who, op.tokens).value; if fromA then w.0 else w.1
          else 0
  }

  lemma DepositRecorded(ps: seq<Position>, who: string, minted: nat, a: nat, b: nat, toA: bool)
    ensures Sum(Deposits(Deposit(ps, who, minted, a, b), toA)) == Sum(Deposits(ps, toA)) + if toA then a else b
  {
    var i, qs, ds := Find(ps, who), Deposit(ps, who, minted, a, b), Deposits(ps, toA);
    if i < |ps| {
      var x := if toA then qs[i].depositedA else qs[i].depositedB;
      SumUpdate(ds, i, x);
      assert Deposits(qs, toA) == ds[i := x];
    } else {
      SumSnoc(ds, if toA then a else b);
      assert Deposits(qs, toA) == ds + [if toA then a else b];
    }
  }

  lemma CreditKeepsDeposits(ps: seq<Position>, fee: nat, toA: bool)
    ensures Deposits(CreditFee(ps, fee), toA) == Deposits(ps, toA)
  {
  }

  lemma FlowRecorded(ss: seq<SwapRecord>, swap: SwapRecord, of: nat)
    ensures Sum(Flows(ss + [swap], of)) == Sum(Flows(ss, of)) + Flow(swap, of)
  {
    var fs, f := Flows(ss, of), Flow(swap, of);
    SumSnoc(fs, f);
    assert Flows(ss + [swap], of) == fs + [f];
  }

  /** A swap changes each reserve by what its record says. */
  lemma SwapMoves(p: Pool, trader: string, asset: nat, dx: int, minOut: int, of: nat)
    requires Inv(p) && Swap(p, trader, asset, dx, minOut).Accepted? && (of == p.assetA || of == p.assetB)
    ensures var r := Swap(p, trader, asset, dx, minOut);
            && ReserveIn(r.pool, of) == ReserveIn(p, of) + Flow(r.value, of)
            && r.pool.assetA == p.assetA && r.pool.swaps == p.swaps + [r.value]
            && 0 <= r.value.fee && r.pool.positions == CreditFee(p.positions, r.value.fee)
  {
    AfterFeeBounds(dx, p.feeBps);
  }

  lemma SwapExplained(p: Pool, trader: string, asset: nat, dx: int, minOut: int, of: nat)
    requires Inv(p) && Swap(p, trader, asset, dx, minOut).Accepted? && (of == p.assetA || of == p.assetB)
    ensures Unexplained(Swap(p, trader, asset, dx, minOut).pool, of) == Unexplained(p, of)
  {
    var r := Swap(p, trader, asset, dx, minOut);
    SwapMoves(p, trader, asset, dx, minOut, of);
    CreditKeepsDeposits(p.positions, r.value.fee, of == p.assetA);
    FlowRecorded(p.swaps, r.value, of);
  }

  lemma RemoveExplained(p: Pool, who: string, tokens: int, of: nat)
    requires Inv(p) && Remove(p, who, tokens).Accepted? && (of == p.assetA || of == p.assetB)
    ensures var r := Remove(p, who, tokens);
            Unexplained(r.pool, of) == Unexplained(p, of) - if of == p.assetA then r.value.0 else r.value.1
  {
    RemoveKeepsInv(p, who, tokens);
    assert Deposits(Remove(p, who, tokens).pool.positions, of == p.assetA) == Deposits(p.positions, of == p.assetA);
  }

  /**
   Nothing appears or disappears: over any run, each reserve changes by exactly the recorded
   deposits, the recorded swaps and the payouts to providers.
   */
  lemma {:induction false} ReservesAccounted(p: Pool, ops: seq<Op>, of: nat)
    requires Inv(p) && (of == p.assetA || of == p.assetB)
    ensures Unexplained(Run(p, ops), of) == Unexplained(p, of) - Withdrawn(p, ops, of == p.assetA)
    decreases |ops|
  {
    if ops != [] {
      ReservesAccounted(Step(p, ops[0]), ops[1..], of);
      match ops[0]
      case AddOp(who, a, b) =>
        if Add(p, who, a, b).Accepted? {
          DepositRecorded(p.positions, who, MintAmount(p, a, b), a, b, of == p.assetA);
        }
      case RemoveOp(who, tokens) =>
        if Remove(p, who, tokens).Accepted? { RemoveExplained(p, who, tokens, of); }
      case SwapOp(trader, asset, dx, minOut) =>
        if Swap(p, trader, asset, dx, minOut).Accepted? { SwapExplained(p, trader, asset, dx, minOut, of); }
    }
  }

  // ----- emptying the pool -----

  /** Amounts the pool pays when the providers at the listed rows burn all they hold, in that order. */
  function DrainPaid(p: Pool, order: seq<nat>): (int, int)
    requires Inv(p) && forall k :: 0 <= k < |order| ==> order[k] < |p.positions|
    decreases |order|
  {
    if order == [] then (0, 0)
    else
      var row := p.positions[order[0]];
      var r := Remove(p, row.provider, row.lp);
      var q := Step(p, RemoveOp(row.provider, row.lp));
      var rest := DrainPaid(q, order[1..]);
      if r.Accepted? then (r.value.0 + rest.0, r.value.1 + rest.1) else rest
  }

  function Drained(p: Pool, order: seq<nat>): (q: Pool)
    requires Inv(p) && forall k :: 0 <= k < |order| ==> order[k] < |p.positions|
    ensures Inv(q) && |q.positions| == |p.positions|
    decreases |order|
  {
    if order == [] then p
    else
      var row := p.positions[order[0]];
      Drained(Step(p, RemoveOp(row.provider, row.lp)), order[1..])
  }

  lemma FindDistinct(ps: seq<Position>, i: nat)
    requires DistinctProviders(ps) && i < |ps|
    ensures Find(ps, ps[i].provider) == i
  {
  }

  /** A provider holding tokens can always burn all of them; only that row changes. */
  lemma BurnAllAccepted(p: Pool, i: nat)
    requires Inv(p) && i < |p.positions| && 0 < p.positions[i].lp
    ensures var row := p.positions[i];
            var r := Remove(p, row.provider, row.lp);
            && r.Accepted?
            && r.pool.positions == p.positions[i := row.(lp := 0)]
  {
    FindDistinct(p.positions, i);
    BurnSums(p.positions, i, 0);
  }

  lemma {:induction false} DrainConserves(p: Pool, order: seq<nat>)
    requires Inv(p) && forall k :: 0 <= k < |order| ==> order[k] < |p.positions|
    ensures var (q, paid) := (Drained(p, order), DrainPaid(p, order));
            && q.reserveA + paid.0 == p.reserveA
            && q.reserveB + paid.1 == p.reserveB
            && forall i :: 0 <= i < |p.positions| ==>
                 q.positions[i].lp == if i in order then 0 else p.positions[i].lp
    decreases |order|
  {
    if order != [] {
      var i := order[0];
      var row := p.positions[i];
      var q := Step(p, RemoveOp(row.provider, row.lp));
      if 0 < row.lp {
        BurnAllAccepted(p, i);
        RemoveKeepsInv(p, row.provider, row.lp);
      }
      DrainConserves(q, order[1..]);
      assert forall j :: j in order <==> j == i || j in order[1..];
    }
  }

  lemma {:induction false} DrainBurnsAll(p: Pool, order: seq<nat>)
    requires Inv(p) && forall k :: 0 <= k < |order| ==> order[k] < |p.positions|
    requires forall i :: 0 <= i < |p.positions| && 0 < p.positions[i].lp ==> i in order
    ensures forall i :: 0 <= i < |p.positions| ==> Drained(p, order).positions[i].lp == 0
  {
    DrainConserves(p, order);
  }

  /**
   When every provider holding tokens burns all of them, in any order, together they are paid
   exactly the reserves and the pool ends empty.
   */
  lemma {:induction false} DrainPaysEverything(p: Pool, order: seq<nat>)
    requires Inv(p) && forall k :: 0 <= k < |order| ==> order[k] < |p.positions|
    requires forall i :: 0 <= i < |p.positions| && 0 < p.positions[i].lp ==> i in order
    ensures DrainPaid(p, order) == (p.reserveA, p.reserveB)
    ensures var q := Drained(p, order);
            q.totalLp == 0 && q.reserveA == 0 && q.reserveB == 0
  {
    DrainConserves(p, order);
    DrainBurnsAll(p, order);
    NothingLeft(p, Drained(p, order), DrainPaid(p, order));
  }

  /** A pool left without tokens has paid out everything. */
  lemma NothingLeft(p: Pool, q: Pool, paid: (int, int))
    requires Inv(q) && forall i :: 0 <= i < |q.positions| ==> q.positions[i].lp == 0
    requires q.reserveA + paid.0 == p.reserveA && q.reserveB + paid.1 == p.reserveB
    ensures q.totalLp == 0 && q.reserveA == 0 && q.reserveB == 0 && paid == (p.reserveA, p.reserveB)
  {
    NoTokensNoReserves(q);
  }

  lemma NoTokensNoReserves(p: Pool)
    requires Inv(p) && forall i :: 0 <= i < |p.positions| ==> p.positions[i].lp == 0
    ensures p.totalLp == 0 && p.reserveA == 0 && p.reserveB == 0
  {
    AllZero(Lps(p.positions));
  }

  // ----- machine integers -----

  const LIMIT := 0x8000_0000
  const INT64_MAX := 0x7FFF_FFFF_FFFF_FFFF

  ghost predicate SmallReserves(p: Pool) {
    p.reserveA < LIMIT && p.reserveB < LIMIT
  }

  ghost predicate SmallRequest(op: Op) {
    match op
    case AddOp(_, a, b) => 0 < a < LIMIT && 0 < b < LIMIT
    case RemoveOp(_, tokens) => 0 < tokens < LIMIT
    case SwapOp(_, _, dx, minOut) => 0 < dx < LIMIT && 0 <= minOut < LIMIT
  }

  function AddValues(p: Pool, who: string, a: int, b: int): seq<int>
    requires Inv(p)
  {
    var r := Add(p, who, a, b);
    [a * p.totalLp, b * p.totalLp, p.reserveA + a, p.reserveB + b]
    + if r.Accepted? then [r.pool.totalLp] + Lps(r.pool.positions) else []
  }

  /** What the first pass over the positions adds up, and what the second multiplies. */
  function RunningSums(ls: seq<int>): seq<int> {
    seq(|ls|, i requires 0 <= i < |ls| => Sum(ls[..i + 1]))
  }

  function Products(ls: seq<int>, fee: int): seq<int> {
    seq(|ls|, i requires 0 <= i < |ls| => ls[i] * fee)
  }

  function SwapValues(p: Pool, asset: nat, dx: nat): seq<int>
    requires Inv(p)
  {
    var net := AfterFee(dx, p.feeBps);
    [dx * (BPS - p.feeBps), net * ReserveOut(p, asset), ReserveIn(p, asset) + net, ReserveIn(p, asset) + dx]
    + (if 0 < p.totalLp then [Quote(p, asset, dx) * BPS] else [])
    + RunningSums(Lps(p.positions)) + Products(Lps(p.positions), dx - net)
  }

  /**
   Every product and sum a request computes before it divides, and the reserves, supply and tokens
   it stores. Lifetime totals of deposits and credited fees are not among them: nothing bounds them.
   */
  function Intermediates(p: Pool, op: Op): seq<int>
    requires Inv(p)
  {
    match op
    case AddOp(who, a, b) => AddValues(p, who, a, b)
    case RemoveOp(_, tokens) => [tokens * p.reserveA, tokens * p.reserveB, p.reserveA, p.reserveB]
    case SwapOp(_, asset, dx, _) => if 0 <= dx then SwapValues(p, asset, dx) else []
  }

  ghost predicate Fit(s: seq<int>) {
    forall i :: 0 <= i < |s| ==> 0 <= s[i] <= INT64_MAX
  }

  lemma SmallProduct(a: int, b: int)
    requires 0 <= a < LIMIT && 0 <= b < LIMIT
    ensures 0 <= a * b <= INT64_MAX
  {
    MulMonotone(a, LIMIT, b);
    MulMonotone(0, a, b);
  }

  /** Rows hold at most the supply each, and so do any of them together. */
  lemma TokensBelowSupply(ps: seq<Position>, i: nat)
    requires i < |ps|
    ensures 0 <= ps[i].lp <= Sum(Lps(ps)) && 0 <= Sum(Lps(ps)[..i + 1]) <= Sum(Lps(ps))
  {
    var ls := Lps(ps);
    SumNonNegative(ls);
    assert ls[i] == ps[i].lp;
    SumNonNegative(ls[..i + 1]);
    SumNonNegative(ls[i + 1..]);
    SumConcat(ls[..i + 1], ls[i + 1..]);
    assert ls[..i + 1] + ls[i + 1..] == ls;
  }

  lemma SupplyBelow(p: Pool, m: int)
    requires Inv(p) && p.reserveA < m && p.reserveB < m
    ensures p.totalLp < m && forall i :: 0 <= i < |p.positions| ==> p.positions[i].lp < m
  {
    BackedSupplyBelow(p.totalLp, p.reserveA, p.reserveB, m);
    forall i | 0 <= i < |p.positions| ensures p.positions[i].lp < m {
      TokensBelowSupply(p.positions, i);
    }
  }

  lemma AddFits(p: Pool, who: string, a: int, b: int)
    requires Inv(p) && SmallReserves(p) && 0 < a < LIMIT && 0 < b < LIMIT
    ensures Fit(AddValues(p, who, a, b))
  {
    SupplyBelow(p, LIMIT);
    SmallProduct(a, p.totalLp);
    SmallProduct(b, p.totalLp);
    var r := Add(p, who, a, b);
    if r.Accepted? {
      AddKeepsInv(p, who, a, b);
      SupplyBelow(r.pool, 2 * LIMIT);
      assert Fit(Lps(r.pool.positions));
    }
  }

  lemma CreditsFit(p: Pool, fee: int)
    requires Inv(p) && SmallReserves(p) && 0 <= fee < LIMIT
    ensures Fit(RunningSums(Lps(p.positions))) && Fit(Products(Lps(p.positions), fee))
  {
    var ls := Lps(p.positions);
    SupplyBelow(p, LIMIT);
    forall i | 0 <= i < |ls| ensures 0 <= RunningSums(ls)[i] <= INT64_MAX {
      TokensBelowSupply(p.positions, i);
    }
    forall i | 0 <= i < |ls| ensures 0 <= ls[i] * fee <= INT64_MAX {
      SmallProduct(ls[i], fee);
    }
  }

  lemma SwapFits(p: Pool, asset: nat, dx: nat)
    requires Inv(p) && SmallReserves(p) && 0 < dx < LIMIT
    ensures Fit(SwapValues(p, asset, dx))
  {
    var net := AfterFee(dx, p.feeBps);
    AfterFeeBounds(dx, p.feeBps);
    SmallProduct(dx, BPS - p.feeBps);
    SmallProduct(net, ReserveOut(p, asset));
    if 0 < p.totalLp {
      OutputBounds(ReserveIn(p, asset), ReserveOut(p, asset), net);
      SmallProduct(Quote(p, asset, dx), BPS);
    }
    CreditsFit(p, dx - net);
  }

  /** With reserves and request amounts below 2^31, no intermediate value leaves int64. */
  lemma SmallRequestsNeverOverflow(p: Pool, op: Op)
    requires Inv(p) && SmallReserves(p) && SmallRequest(op)
    ensures forall i :: 0 <= i < |Intermediates(p, op)| ==> 0 <= Intermediates(p, op)[i] <= INT64_MAX
  {
    match op
    case AddOp(who, a, b) =>
      AddFits(p, who, a, b);
    case RemoveOp(_, tokens) =>
      SmallProduct(tokens, p.reserveA);
      SmallProduct(tokens, p.reserveB);
    case SwapOp(_, asset, dx, _) =>
      SwapFits(p, asset, dx);
  }
}
