/**
 When the liquidity handler accepts a request and what an accepted one changes, row by row, told
 from the request and the stored rows alone.
 */
module PoolRequests {
  import opened PoolMath
  import opened PoolSpec
  import opened PoolRuns
  import opened Sums

  // ----- swaps -----

  /** Reserve of the asset paid in, and of the other one. */
  function Paying(p: Pool, asset: nat): (r: (int, int)) {
    if asset == p.assetA then (p.reserveA, p.reserveB) else (p.reserveB, p.reserveA)
  }

  /**
   The pool can pay `o` out of `y` for `dx` into `x`: some part `n` of the payment, within what the
   fee leaves, keeps the product of the reserves.
   */
  ghost predicate CanPay(x: int, y: int, dx: int, feeBps: int, n: nat, o: int) {
    n * 10_000 <= dx * (10_000 - feeBps) && (x + n) * (y - o) >= x * y
  }

  /** Whatever can be paid can be paid with the largest part the fee leaves. */
  lemma CanPayExactly(x: int, y: int, dx: nat, feeBps: int, n: nat, o: int)
    requires 0 < x && 0 < y && 1 <= feeBps <= 10_000 && CanPay(x, y, dx, feeBps, n, o)
    ensures o <= Output(x, y, AfterFee(dx, feeBps))
  {
    var net := AfterFee(dx, feeBps);
    AfterFeeBounds(dx, feeBps);
    FloorExact(n, dx * (BPS - feeBps), BPS);
    OutputExact(x, y, n, o);
    OutputGrows(x, y, n, net);
  }

  /** A larger net input never buys less. */
  lemma OutputGrows(x: int, y: int, n: int, m: int)
    requires 0 < x && 0 < y && 0 <= n <= m
    ensures Output(x, y, n) <= Output(x, y, m)
  {
    var o := Output(x, y, n);
    OutputBounds(x, y, n);
    OutputExact(x, y, n, o);
    MulMonotone(x + n, x + m, y - o);
    OutputExact(x, y, m, o);
  }

  lemma OutputCanBePaid(x: int, y: int, dx: nat, feeBps: int)
    requires 0 < x && 0 < y && 1 <= feeBps <= 10_000
    ensures 0 <= AfterFee(dx, feeBps)
    ensures CanPay(x, y, dx, feeBps, AfterFee(dx, feeBps), Output(x, y, AfterFee(dx, feeBps)))
  {
    var net := AfterFee(dx, feeBps);
    AfterFeeBounds(dx, feeBps);
    FloorExact(net, dx * (BPS - feeBps), BPS);
    OutputExact(x, y, net, Output(x, y, net));
  }

  /** The request's own form, and the pool's state. */
  predicate SwapPossible(p: Pool, asset: nat, dx: int, minOut: int) {
    && 0 < asset && 0 < dx && 0 <= minOut && p.active && (asset == p.assetA || asset == p.assetB)
    && 0 < p.reserveA && 0 < p.reserveB
  }

  /**
   A swap is accepted if and only if the request is well formed, the pool is active, funded and
   trades the asset, and it can pay at least one unit and at least the minimum asked for.
   */
  lemma SwapAcceptedExactly(p: Pool, trader: string, asset: nat, dx: int, minOut: int)
    requires Inv(p)
    ensures Swap(p, trader, asset, dx, minOut).Accepted?
            <==> && SwapPossible(p, asset, dx, minOut)
                 && exists n: nat, o: int ::
                      1 <= o && minOut <= o && CanPay(Paying(p, asset).0, Paying(p, asset).1, dx, p.feeBps, n, o)
  {
    var x, y := Paying(p, asset).0, Paying(p, asset).1;
    if SwapPossible(p, asset, dx, minOut) {
      OutputCanBePaid(x, y, dx, p.feeBps);
      forall n: nat, o: int | CanPay(x, y, dx, p.feeBps, n, o)
        ensures o <= Output(x, y, AfterFee(dx, p.feeBps))
      {
        CanPayExactly(x, y, dx, p.feeBps, n, o);
      }
    }
  }

  /** The error of a rejected swap names a requirement that the request or the pool fails. */
  lemma SwapErrorIsTrue(p: Pool, trader: string, asset: nat, dx: int, minOut: int)
    requires Inv(p) && Swap(p, trader, asset, dx, minOut).Rejected?
    ensures match Swap(p, trader, asset, dx, minOut).error
            case InvalidRequest => asset == 0 || dx <= 0 || minOut < 0
            case PoolInactive => !p.active
            case AssetNotInPool => asset != p.assetA && asset != p.assetB
            case InsufficientLiquidity => p.reserveA == 0 && p.reserveB == 0 && p.totalLp == 0
            case OutputTooSmall =>
              forall n: nat, o: int | 1 <= o :: !CanPay(Paying(p, asset).0, Paying(p, asset).1, dx, p.feeBps, n, o)
            case SlippageTooHigh =>
              forall n: nat, o: int | minOut <= o :: !CanPay(Paying(p, asset).0, Paying(p, asset).1, dx, p.feeBps, n, o)
            case _ => false
  {
    var x, y := Paying(p, asset).0, Paying(p, asset).1;
    if SwapPossible(p, asset, dx, minOut) {
      forall n: nat, o: int | CanPay(x, y, dx, p.feeBps, n, o)
        ensures o <= Output(x, y, AfterFee(dx, p.feeBps))
      {
        CanPayExactly(x, y, dx, p.feeBps, n, o);
      }
    }
  }

  /**
   What a swap changes: the payment enters one reserve, the output leaves the other, and the swap is
   recorded. The output, the fee and the price impact are bounded from both sides by `o`, `n`, `k`.
   */
  lemma SwapSettles(p: Pool, trader: string, asset: nat, dx: int, minOut: int, n: int, o: int, k: int)
    requires Inv(p) && Swap(p, trader, asset, dx, minOut).Accepted?
    ensures var q := Swap(p, trader, asset, dx, minOut).pool;
            var swap := Swap(p, trader, asset, dx, minOut).value;
            var (x, y) := (Paying(p, asset).0, Paying(p, asset).1);
            && swap.trader == trader && swap.input == dx && swap.inputAsset == asset
            && (asset == p.assetA ==> swap.outputAsset == p.assetB && q.reserveA == p.reserveA + dx
                                      && q.reserveB == p.reserveB - swap.output)
            && (asset == p.assetB ==> swap.outputAsset == p.assetA && q.reserveB == p.reserveB + dx
                                      && q.reserveA == p.reserveA - swap.output)
            && (n <= dx - swap.fee <==> n * 10_000 <= dx * (10_000 - p.feeBps))
            && (o <= swap.output <==> (x + (dx - swap.fee)) * (y - o) >= x * y)
            && (k <= swap.impactBps <==> k * y <= swap.output * 10_000)
            && q == p.(reserveA := q.reserveA, reserveB := q.reserveB, positions := q.positions,
                       swaps := p.swaps + [swap])
  {
    SwapIsLargestFair(p, trader, asset, dx, minOut, o, n);
    var swap := Swap(p, trader, asset, dx, minOut).value;
    FloorExact(k, swap.output * 10_000, Paying(p, asset).1);
  }

  /** One row's credit: the largest share of the fee that its part of the supply covers. */
  lemma CreditIsLargestFair(ps: seq<Position>, fee: nat, i: nat, w: int)
    requires i < |ps| && 0 < Sum(Lps(ps))
    ensures var qs := CreditFee(ps, fee);
            && |qs| == |ps|
            && qs[i] == ps[i].(feesEarned := qs[i].feesEarned)
            && (w <= qs[i].feesEarned - ps[i].feesEarned <==> w * Sum(Lps(ps)) <= ps[i].lp * fee)
  {
    var total := Sum(Lps(ps));
    FloorExact(w, ps[i].lp * fee, total);
    if ps[i].lp == 0 {
      FloorExact(w, 0, total);
    }
  }

  /** A swap credits each row fairly and changes nothing else in any row. */
  lemma SwapSharesFee(p: Pool, trader: string, asset: nat, dx: int, minOut: int, i: nat, w: int)
    requires Inv(p) && Swap(p, trader, asset, dx, minOut).Accepted? && i < |p.positions|
    ensures var r := Swap(p, trader, asset, dx, minOut);
            && |r.pool.positions| == |p.positions|
            && var (row, row') := (p.positions[i], r.pool.positions[i]);
               && row' == row.(feesEarned := row'.feesEarned)
               && (w <= row'.feesEarned - row.feesEarned <==> w * p.totalLp <= row.lp * r.value.fee)
  {
    SwapKeepsInv(p, trader, asset, dx, minOut);
    AfterFeeBounds(dx, p.feeBps);
    CreditIsLargestFair(p.positions, Swap(p, trader, asset, dx, minOut).value.fee, i, w);
  }

  // ----- deposits -----

  /**
   A deposit is accepted if and only if both amounts are positive, the pool is active, and, once the
   pool is funded, each amount is worth at least one token at the reserve's rate.
   */
  lemma AddAcceptedExactly(p: Pool, who: string, a: int, b: int)
    requires Inv(p)
    ensures Add(p, who, a, b).Accepted?
            <==> && 0 < a && 0 < b && p.active
                 && (0 < p.totalLp ==> p.reserveA <= a * p.totalLp && p.reserveB <= b * p.totalLp)
  {
    if 0 < a && 0 < b {
      MintIsLargestFair(p, a, b, 1);
      MulMonotone(1, a, b);
    }
  }

  lemma AddErrorIsTrue(p: Pool, who: string, a: int, b: int)
    requires Inv(p) && Add(p, who, a, b).Rejected?
    ensures match Add(p, who, a, b).error
            case InvalidRequest => a <= 0 || b <= 0
            case PoolInactive => !p.active
            case DepositTooSmall => 0 < p.totalLp && (a * p.totalLp < p.reserveA || b * p.totalLp < p.reserveB)
            case _ => false
  {
    AddAcceptedExactly(p, who, a, b);
  }

  /** The row of provider `who` grows by what was deposited and minted; no other row changes. */
  ghost predicate RowsAfterAdd(ps: seq<Position>, qs: seq<Position>, who: string, m: int, a: int, b: int) {
    && |ps| <= |qs|
    && (forall i :: 0 <= i < |ps| && ps[i].provider != who ==> qs[i] == ps[i])
    && (forall i :: 0 <= i < |ps| && ps[i].provider == who ==>
          && |qs| == |ps| && qs[i].provider == who && qs[i].feesEarned == ps[i].feesEarned
          && qs[i].lp == ps[i].lp + m
          && qs[i].depositedA == ps[i].depositedA + a && qs[i].depositedB == ps[i].depositedB + b)
    && ((forall i :: 0 <= i < |ps| ==> ps[i].provider != who) ==>
          && |qs| == |ps| + 1 && qs[|ps|].provider == who && qs[|ps|].feesEarned == 0
          && qs[|ps|].lp == m && qs[|ps|].depositedA == a && qs[|ps|].depositedB == b)
  }

  /** What a deposit changes; the minted tokens are bounded from both sides by `m`. */
  lemma AddSettles(p: Pool, who: string, a: int, b: int, m: nat)
    requires Inv(p) && Add(p, who, a, b).Accepted?
    ensures var (q, minted) := (Add(p, who, a, b).pool, Add(p, who, a, b).value);
            && (m <= minted <==> if p.totalLp == 0 then m * m <= a * b
                                 else m * p.reserveA <= a * p.totalLp && m * p.reserveB <= b * p.totalLp)
            && RowsAfterAdd(p.positions, q.positions, who, minted, a, b)
            && q == p.(reserveA := p.reserveA + a, reserveB := p.reserveB + b, totalLp := p.totalLp + minted,
                       positions := q.positions)
  {
    MintIsLargestFair(p, a, b, m);
    FoundIsOnly(p.positions, who);
  }

  /** Providers have one row each, so the row found is the only one. */
  lemma FoundIsOnly(ps: seq<Position>, who: string)
    requires DistinctProviders(ps)
    ensures forall i :: 0 <= i < |ps| && ps[i].provider == who ==> i == Find(ps, who)
  {
  }

  // ----- burns -----

  /** A burn is accepted if and only if the provider has a row holding at least the tokens burnt. */
  lemma RemoveAcceptedExactly(p: Pool, who: string, tokens: int)
    requires Inv(p)
    ensures Remove(p, who, tokens).Accepted?
            <==> 0 < tokens && exists i :: 0 <= i < |p.positions| && p.positions[i].provider == who
                                           && tokens <= p.positions[i].lp
  {
    var i := Find(p.positions, who);
    FoundIsOnly(p.positions, who);
    if i < |p.positions| {
      BurnSums(p.positions, i, 0);
    }
  }

  lemma RemoveErrorIsTrue(p: Pool, who: string, tokens: int)
    requires Inv(p) && Remove(p, who, tokens).Rejected?
    ensures match Remove(p, who, tokens).error
            case InvalidRequest => tokens <= 0
            case PositionNotFound => forall i :: 0 <= i < |p.positions| ==> p.positions[i].provider != who
            case InsufficientLpTokens =>
              exists i :: 0 <= i < |p.positions| && p.positions[i].provider == who && p.positions[i].lp < tokens
            case _ => false
  {
    var i := Find(p.positions, who);
    if i < |p.positions| {
      BurnSums(p.positions, i, 0);
    }
  }

  /** The row of provider `who` loses the burnt tokens; no other row changes. */
  ghost predicate RowsAfterRemove(ps: seq<Position>, qs: seq<Position>, who: string, tokens: int) {
    && |qs| == |ps|
    && (forall i :: 0 <= i < |ps| && ps[i].provider != who ==> qs[i] == ps[i])
    && (forall i :: 0 <= i < |ps| && ps[i].provider == who ==>
          tokens <= ps[i].lp && qs[i] == ps[i].(lp := ps[i].lp - tokens))
  }

  /** What a burn changes; the payouts are bounded from both sides by `w`. */
  lemma RemoveSettles(p: Pool, who: string, tokens: int, w: int)
    requires Inv(p) && Remove(p, who, tokens).Accepted?
    ensures var (q, paid) := (Remove(p, who, tokens).pool, Remove(p, who, tokens).value);
            && (w <= paid.0 <==> w * p.totalLp <= tokens * p.reserveA)
            && (w <= paid.1 <==> w * p.totalLp <= tokens * p.reserveB)
            && RowsAfterRemove(p.positions, q.positions, who, tokens)
            && q == p.(reserveA := p.reserveA - paid.0, reserveB := p.reserveB - paid.1,
                       totalLp := p.totalLp - tokens, positions := q.positions)
  {
    BurnIsLargestFair(p, who, tokens, w);
    RemoveKeepsInv(p, who, tokens);
    FoundIsOnly(p.positions, who);
  }

  // ----- creation -----

  /** The assets in ascending order, the fee asked for or 30 basis points, and nothing inside. */
  lemma NewPoolTerms(assetA: nat, assetB: nat, feeBps: int)
    requires assetA != assetB && 0 <= feeBps <= 10_000
    ensures var p := NewPool(assetA, assetB, feeBps);
            && {p.assetA, p.assetB} == {assetA, assetB} && p.assetA < p.assetB
            && p.feeBps == (if feeBps == 0 then 30 else feeBps)
            && p.active && p.reserveA == 0 && p.reserveB == 0 && p.totalLp == 0
            && p.positions == [] && p.swaps == []
  {
  }
}
