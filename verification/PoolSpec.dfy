/**
 The liquidity pool as a value: what each request answers and which pool it leaves behind.

 A request that the handler rejects leaves the pool unchanged.
 */
module PoolSpec {
  import opened Common
  import opened PoolMath
  import opened Sums

  /** One provider's row. `lp` is what `lp_tokens` holds. */
  datatype Position = Position(provider: string, lp: nat, depositedA: nat, depositedB: nat, feesEarned: nat)

  datatype SwapRecord = SwapRecord(trader: string, inputAsset: nat, outputAsset: nat,
                                   input: int, output: int, fee: int, impactBps: int)

  datatype Pool = Pool(assetA: nat, assetB: nat, feeBps: int, active: bool,
                       reserveA: int, reserveB: int, totalLp: int,
                       positions: seq<Position>, swaps: seq<SwapRecord>)

  datatype Error =
    | InvalidRequest
    | PoolInactive
    | DepositTooSmall
    | PositionNotFound
    | InsufficientLpTokens
    | NoLiquidity
    | AssetNotInPool
    | InsufficientLiquidity
    | OutputTooSmall
    | SlippageTooHigh

  datatype Outcome<+T> = Accepted(pool: Pool, value: T) | Rejected(error: Error)

  const DEFAULT_FEE_BPS := 30

  /** A freshly created pool. A fee of zero stands for an omitted field. */
  function NewPool(assetA: nat, assetB: nat, feeBps: int): Pool {
    Pool(if assetA > assetB then assetB else assetA,
         if assetA > assetB then assetA else assetB,
         if feeBps == 0 then DEFAULT_FEE_BPS else feeBps,
         true, 0, 0, 0, [], [])
  }

  // ----- invariant -----

  function Lps(ps: seq<Position>): seq<int> {
    seq(|ps|, i requires 0 <= i < |ps| => ps[i].lp)
  }

  function Fees(ps: seq<Position>): seq<int> {
    seq(|ps|, i requires 0 <= i < |ps| => ps[i].feesEarned)
  }

  function SwapFees(ss: seq<SwapRecord>): seq<int> {
    seq(|ss|, i requires 0 <= i < |ss| => ss[i].fee)
  }

  /** Either nothing is in the pool, or both reserves back a positive supply of LP tokens. */
  ghost predicate Backed(x: int, y: int, l: int) {
    || (x == 0 && y == 0 && l == 0)
    || (0 < x && 0 < y && 0 < l && l * l <= x * y)
  }

  ghost predicate DistinctProviders(ps: seq<Position>) {
    forall i, j :: 0 <= i < j < |ps| ==> ps[i].provider != ps[j].provider
  }

  ghost predicate Inv(p: Pool) {
    && p.assetA < p.assetB
    && 1 <= p.feeBps <= BPS
    && Backed(p.reserveA, p.reserveB, p.totalLp)
    && DistinctProviders(p.positions)
    && Sum(Lps(p.positions)) == p.totalLp
    && Sum(Fees(p.positions)) <= Sum(SwapFees(p.swaps))
  }

  // ----- positions -----

  /** Index of the provider's row, or the number of rows when there is none. */
  function Find(ps: seq<Position>, who: string): (i: nat)
    ensures i <= |ps|
    ensures i < |ps| ==> ps[i].provider == who
    ensures forall j :: 0 <= j < i ==> ps[j].provider != who
  {
    if ps == [] then 0
    else if ps[0].provider == who then 0
    else
      var i := Find(ps[1..], who);
      assert forall j :: 1 <= j < i + 1 ==> ps[j] == ps[1..][j - 1];
      i + 1
  }

  /** Insert the provider's row or raise the existing one. */
  function Deposit(ps: seq<Position>, who: string, minted: nat, a: nat, b: nat): seq<Position> {
    var i := Find(ps, who);
    if i < |ps| then
      ps[i := ps[i].(lp := ps[i].lp + minted,
                     depositedA := ps[i].depositedA + a,
                     depositedB := ps[i].depositedB + b)]
    else
      ps + [Position(who, minted, a, b, 0)]
  }

  lemma DepositKeepsProviders(ps: seq<Position>, who: string, minted: nat, a: nat, b: nat)
    requires DistinctProviders(ps)
    ensures DistinctProviders(Deposit(ps, who, minted, a, b))
  {
    var i, qs := Find(ps, who), Deposit(ps, who, minted, a, b);
    assert forall j :: 0 <= j < |ps| ==> qs[j].provider == ps[j].provider;
  }

  lemma DepositSums(ps: seq<Position>, who: string, minted: nat, a: nat, b: nat)
    ensures Sum(Lps(Deposit(ps, who, minted, a, b))) == Sum(Lps(ps)) + minted
    ensures Sum(Fees(Deposit(ps, who, minted, a, b))) == Sum(Fees(ps))
  {
    var i, qs := Find(ps, who), Deposit(ps, who, minted, a, b);
    if i < |ps| {
      var row := qs[i];
      SumUpdate(Lps(ps), i, row.lp);
      assert Lps(qs) == Lps(ps)[i := row.lp];
      assert Fees(qs) == Fees(ps);
    } else {
      var ls, fs := Lps(ps), Fees(ps);
      SumSnoc(ls, minted);
      assert Lps(qs) == ls + [minted];
      SumSnoc(fs, 0);
      assert Fees(qs) == fs + [0];
    }
  }

  lemma BurnSums(ps: seq<Position>, i: nat, t: nat)
    requires DistinctProviders(ps) && i < |ps| && t <= ps[i].lp
    ensures var qs := ps[i := ps[i].(lp := ps[i].lp - t)];
            && DistinctProviders(qs)
            && Sum(Lps(qs)) == Sum(Lps(ps)) - t
            && Sum(Fees(qs)) == Sum(Fees(ps))
    ensures ps[i].lp <= Sum(Lps(ps))
  {
    var qs := ps[i := ps[i].(lp := ps[i].lp - t)];
    SumUpdate(Lps(ps), i, qs[i].lp);
    assert Lps(qs) == Lps(ps)[i := qs[i].lp];
    assert Fees(qs) == Fees(ps);
    SumNonNegative(Lps(ps));
    assert Lps(ps)[i] == ps[i].lp;
  }

  // ----- fee credits -----

  /** The credit each row receives; a row without tokens receives nothing. */
  function Credits(ls: seq<int>, fee: int, total: int): seq<int>
    requires total != 0
  {
    seq(|ls|, i requires 0 <= i < |ls| => if 0 < ls[i] then ls[i] * fee / total else 0)
  }

  lemma CreditsNonNegative(ls: seq<int>, fee: nat, total: int)
    requires 0 < total
    ensures forall i :: 0 <= i < |ls| ==> 0 <= Credits(ls, fee, total)[i]
  {
    forall i | 0 <= i < |ls| ensures 0 <= Credits(ls, fee, total)[i] {
      if 0 < ls[i] {
        MulMonotone(0, fee, ls[i]);
        FloorBounds(ls[i] * fee, total);
      }
    }
  }

  function CreditFee(ps: seq<Position>, fee: nat): seq<Position> {
    var total := Sum(Lps(ps));
    SumNonNegative(Lps(ps));
    if total == 0 then ps
    else
      CreditsNonNegative(Lps(ps), fee, total);
      seq(|ps|, i requires 0 <= i < |ps| =>
        ps[i].(feesEarned := ps[i].feesEarned + Credits(Lps(ps), fee, total)[i]))
  }

  function CountActive(ls: seq<int>): nat {
    if ls == [] then 0
    else CountActive(ls[..|ls| - 1]) + if 0 < ls[|ls| - 1] then 1 else 0
  }

  lemma RoundingStep(paid: int, due: int, k: int, c: int, l: int, fee: int, total: int, one: int)
    requires paid * total <= due * fee <= paid * total + (total - 1) * k
    requires c * total <= l * fee <= c * total + (total - 1) * one
    ensures (paid + c) * total <= (due + l) * fee <= (paid + c) * total + (total - 1) * (k + one)
  {
    assert (paid + c) * total == paid * total + c * total;
    assert (due + l) * fee == due * fee + l * fee;
    assert (total - 1) * (k + one) == (total - 1) * k + (total - 1) * one;
  }

  /** Rounding loses less than one unit per active row, and never creates one. */
  lemma {:induction false} CreditsWithinRounding(ls: seq<int>, fee: nat, total: int)
    requires 0 < total
    requires forall i :: 0 <= i < |ls| ==> 0 <= ls[i]
    ensures var paid := Sum(Credits(ls, fee, total));
            paid * total <= Sum(ls) * fee <= paid * total + (total - 1) * CountActive(ls)
  {
    var cs := Credits(ls, fee, total);
    if ls != [] {
      var n := |ls| - 1;
      CreditsWithinRounding(ls[..n], fee, total);
      assert cs[..n] == Credits(ls[..n], fee, total);
      FloorBounds(ls[n] * fee, total);
      RoundingStep(Sum(cs[..n]), Sum(ls[..n]), CountActive(ls[..n]), cs[n], ls[n], fee, total,
                   if 0 < ls[n] then 1 else 0);
    }
  }

  lemma PaidWithinRounding(paid: int, fee: int, total: int, n: int)
    requires 0 < total && 0 < n
    requires paid * total <= total * fee <= paid * total + (total - 1) * n
    ensures paid <= fee < paid + n
  {
    assert paid * total == total * paid;
    CancelLeft(total, paid, fee);
    assert total * (paid + n) == paid * total + (total - 1) * n + n;
    CancelLeftStrict(total, fee, paid + n);
  }

  /**
   The credits of one swap sum to at most the fee and fall short of it by less than the
   number of active positions.
   */
  lemma FeeCreditsBounded(ps: seq<Position>, fee: nat)
    requires 0 < Sum(Lps(ps))
    ensures var paid := Sum(Fees(CreditFee(ps, fee))) - Sum(Fees(ps));
            0 <= paid <= fee < paid + CountActive(Lps(ps))
  {
    var ls, total := Lps(ps), Sum(Lps(ps));
    var cs := Credits(ls, fee, total);
    CreditsNonNegative(ls, fee, total);
    SumNonNegative(cs);
    CreditsWithinRounding(ls, fee, total);
    SomeActive(ls);
    PaidWithinRounding(Sum(cs), fee, total, CountActive(ls));
    SumPlus(Fees(ps), cs, Fees(CreditFee(ps, fee)));
  }

  lemma {:induction false} SomeActive(ls: seq<int>)
    requires 0 < Sum(ls)
    ensures 0 < CountActive(ls)
  {
    var n := |ls| - 1;
    if ls[n] <= 0 {
      SomeActive(ls[..n]);
    }
  }

  lemma CreditFeeKeepsLedger(ps: seq<Position>, fee: nat)
    requires DistinctProviders(ps)
    ensures var qs := CreditFee(ps, fee);
            && DistinctProviders(qs)
            && Lps(qs) == Lps(ps)
            && Sum(Fees(ps)) <= Sum(Fees(qs)) <= Sum(Fees(ps)) + fee
  {
    SumNonNegative(Lps(ps));
    if Sum(Lps(ps)) != 0 {
      FeeCreditsBounded(ps, fee);
    }
  }

  // ----- requests -----

  /** LP tokens issued for a deposit: the geometric mean at first, then the smaller proportion. */
  function MintAmount(p: Pool, a: int, b: int): int
    requires Inv(p) && 0 < a && 0 < b
  {
    if p.totalLp == 0 then ISqrt(a * b)
    else Min(a * p.totalLp / p.reserveA, b * p.totalLp / p.reserveB)
  }

  function Add(p: Pool, who: string, a: int, b: int): Outcome<int>
    requires Inv(p)
  {
    if a <= 0 || b <= 0 then Rejected(InvalidRequest)
    else if !p.active then Rejected(PoolInactive)
    else
      var minted := MintAmount(p, a, b);
      if minted <= 0 then Rejected(DepositTooSmall)
      else Accepted(p.(reserveA := p.reserveA + a,
                       reserveB := p.reserveB + b,
                       totalLp := p.totalLp + minted,
                       positions := Deposit(p.positions, who, minted, a, b)), minted)
  }

  function ClampNegative(x: int): int {
    if x < 0 then 0 else x
  }

  function Remove(p: Pool, who: string, tokens: int): Outcome<(int, int)>
    requires Inv(p)
  {
    if tokens <= 0 then Rejected(InvalidRequest)
    else
      var i := Find(p.positions, who);
      if i == |p.positions| then Rejected(PositionNotFound)
      else if tokens > p.positions[i].lp then Rejected(InsufficientLpTokens)
      else if p.totalLp == 0 then Rejected(NoLiquidity)
      else
        var wa := tokens * p.reserveA / p.totalLp;
        var wb := tokens * p.reserveB / p.totalLp;
        Accepted(p.(reserveA := ClampNegative(p.reserveA - wa),
                    reserveB := ClampNegative(p.reserveB - wb),
                    totalLp := p.totalLp - tokens,
                    positions := p.positions[i := p.positions[i].(lp := p.positions[i].lp - tokens)]),
                 (wa, wb))
  }

  function ReserveIn(p: Pool, asset: nat): int {
    if asset == p.assetA then p.reserveA else p.reserveB
  }

  function ReserveOut(p: Pool, asset: nat): int {
    if asset == p.assetA then p.reserveB else p.reserveA
  }

  /** The output the pool would pay for `dx` units of `asset`, before the acceptance checks. */
  function Quote(p: Pool, asset: nat, dx: int): int
    requires 1 <= p.feeBps <= BPS && 0 < ReserveIn(p, asset) && 0 <= dx
  {
    AfterFeeBounds(dx, p.feeBps);
    Output(ReserveIn(p, asset), ReserveOut(p, asset), AfterFee(dx, p.feeBps))
  }

  function Swap(p: Pool, trader: string, asset: nat, dx: int, minOut: int): Outcome<SwapRecord>
    requires Inv(p)
  {
    if asset == 0 || dx <= 0 || minOut < 0 then Rejected(InvalidRequest)
    else if !p.active then Rejected(PoolInactive)
    else if asset != p.assetA && asset != p.assetB then Rejected(AssetNotInPool)
    else if ReserveIn(p, asset) == 0 || ReserveOut(p, asset) == 0 then Rejected(InsufficientLiquidity)
    else
      var fee := dx - AfterFee(dx, p.feeBps);
      var out := Quote(p, asset, dx);
      if out <= 0 then Rejected(OutputTooSmall)
      else if minOut > 0 && out < minOut then Rejected(SlippageTooHigh)
      else
        AfterFeeBounds(dx, p.feeBps);
        var toA := asset == p.assetA;
        var swap := SwapRecord(trader, asset, if toA then p.assetB else p.assetA,
                               dx, out, fee, out * BPS / ReserveOut(p, asset));
        Accepted(p.(reserveA := if toA then p.reserveA + dx else p.reserveA - out,
                    reserveB := if toA then p.reserveB - out else p.reserveB + dx,
                    positions := CreditFee(p.positions, fee),
                    swaps := p.swaps + [swap]), swap)
  }

  // ----- every accepted request keeps the invariant and the value behind a share -----

  /** The value behind one LP token did not fall from `p` to `q`. */
  ghost predicate ShareValueKept(p: Pool, q: Pool) {
    ValueKept(p.reserveA, p.reserveB, p.totalLp, q.reserveA, q.reserveB, q.totalLp)
  }

  lemma AddKeepsInv(p: Pool, who: string, a: int, b: int)
    requires Inv(p) && Add(p, who, a, b).Accepted?
    ensures var q := Add(p, who, a, b).pool;
            Inv(q) && 0 < q.totalLp && ShareValueKept(p, q)
  {
    var m, q := MintAmount(p, a, b), Add(p, who, a, b).pool;
    DepositKeepsProviders(p.positions, who, m, a, b);
    DepositSums(p.positions, who, m, a, b);
    if p.totalLp == 0 {
      assert q.totalLp == m && q.reserveA == a && q.reserveB == b;
    } else {
      MintKeepsShare(p.reserveA, p.totalLp, a, m);
      MintKeepsShare(p.reserveB, p.totalLp, b, m);
      SidesKeepValue(p.reserveA, p.reserveB, p.totalLp, q.reserveA, q.reserveB, q.totalLp);
      ValueKeptStaysBacked(p.reserveA, p.reserveB, p.totalLp, q.reserveA, q.reserveB, q.totalLp);
    }
  }

  lemma RemoveKeepsReserves(p: Pool, who: string, tokens: int)
    requires Inv(p) && Remove(p, who, tokens).Accepted?
    ensures var (q, w) := (Remove(p, who, tokens).pool, Remove(p, who, tokens).value);
            && Backed(q.reserveA, q.reserveB, q.totalLp) && ShareValueKept(p, q)
            && q.reserveA == p.reserveA - w.0 && q.reserveB == p.reserveB - w.1
            && 0 <= w.0 && 0 <= w.1
  {
    var q := Remove(p, who, tokens).pool;
    BurnSums(p.positions, Find(p.positions, who), tokens);
    BurnKeepsShare(p.reserveA, p.totalLp, tokens);
    BurnKeepsShare(p.reserveB, p.totalLp, tokens);
    SidesKeepValue(p.reserveA, p.reserveB, p.totalLp, q.reserveA, q.reserveB, q.totalLp);
    ValueKeptStaysBacked(p.reserveA, p.reserveB, p.totalLp, q.reserveA, q.reserveB, q.totalLp);
  }

  lemma RemoveKeepsInv(p: Pool, who: string, tokens: int)
    requires Inv(p) && Remove(p, who, tokens).Accepted?
    ensures var (q, w) := (Remove(p, who, tokens).pool, Remove(p, who, tokens).value);
            && Inv(q) && ShareValueKept(p, q)
            // the negative-reserve clamps do nothing
            && q.reserveA == p.reserveA - w.0 && q.reserveB == p.reserveB - w.1
            && 0 <= w.0 && 0 <= w.1
  {
    RemoveKeepsReserves(p, who, tokens);
    BurnSums(p.positions, Find(p.positions, who), tokens);
  }

  lemma SwapKeepsReserves(p: Pool, trader: string, asset: nat, dx: int, minOut: int)
    requires Inv(p) && Swap(p, trader, asset, dx, minOut).Accepted?
    ensures var q := Swap(p, trader, asset, dx, minOut).pool;
            && 0 < q.reserveA && 0 < q.reserveB && 0 < p.totalLp
            && q.reserveA * q.reserveB >= p.reserveA * p.reserveB
  {
    var x, y := ReserveIn(p, asset), ReserveOut(p, asset);
    var net := AfterFee(dx, p.feeBps);
    AfterFeeBounds(dx, p.feeBps);
    OutputBounds(x, y, net);
    SwapKeepsProduct(x, y, net, dx);
  }

  lemma SwapKeepsLedger(p: Pool, trader: string, asset: nat, dx: int, minOut: int)
    requires Inv(p) && Swap(p, trader, asset, dx, minOut).Accepted?
    ensures var q := Swap(p, trader, asset, dx, minOut).pool;
            && DistinctProviders(q.positions)
            && Sum(Lps(q.positions)) == Sum(Lps(p.positions))
            && Sum(Fees(q.positions)) <= Sum(SwapFees(q.swaps))
  {
    var q := Swap(p, trader, asset, dx, minOut).pool;
    var fee := Swap(p, trader, asset, dx, minOut).value.fee;
    AfterFeeBounds(dx, p.feeBps);
    CreditFeeKeepsLedger(p.positions, fee);
    SwapFeesSnoc(p.swaps, Swap(p, trader, asset, dx, minOut).value);
  }

  lemma SwapFeesSnoc(ss: seq<SwapRecord>, swap: SwapRecord)
    ensures Sum(SwapFees(ss + [swap])) == Sum(SwapFees(ss)) + swap.fee
  {
    SumSnoc(SwapFees(ss), swap.fee);
    assert SwapFees(ss + [swap]) == SwapFees(ss) + [swap.fee];
  }

  lemma SwapKeepsInv(p: Pool, trader: string, asset: nat, dx: int, minOut: int)
    requires Inv(p) && Swap(p, trader, asset, dx, minOut).Accepted?
    ensures var q := Swap(p, trader, asset, dx, minOut).pool;
            Inv(q) && ShareValueKept(p, q) && q.totalLp == p.totalLp && 0 < p.totalLp
  {
    var q := Swap(p, trader, asset, dx, minOut).pool;
    SwapKeepsReserves(p, trader, asset, dx, minOut);
    SwapKeepsLedger(p, trader, asset, dx, minOut);
    ProductKeepsValue(p.reserveA, p.reserveB, p.totalLp, q.reserveA, q.reserveB);
  }
}
