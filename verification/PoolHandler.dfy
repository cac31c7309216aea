/** The liquidity handler: the pool row and its positions, updated in place. */
module PoolHandler {
  import opened Common
  import opened PoolMath
  import opened PoolSpec
  import opened Sums

  class LiquidityPool {
    const assetA: nat
    const assetB: nat
    const feeBps: int
    var active: bool
    var reserveA: int
    var reserveB: int
    var totalLp: int
    var positions: seq<Position>
    var swaps: seq<SwapRecord>

    function View(): Pool
      reads this
    {
      Pool(assetA, assetB, feeBps, active, reserveA, reserveB, totalLp, positions, swaps)
    }

    constructor (assetA: nat, assetB: nat, feeBps: int)
      requires assetA != assetB && 0 <= feeBps <= BPS
      ensures View() == NewPool(assetA, assetB, feeBps)
    {
      this.assetA := if assetA > assetB then assetB else assetA;
      this.assetB := if assetA > assetB then assetA else assetB;
      this.feeBps := if feeBps == 0 then DEFAULT_FEE_BPS else feeBps;
      active := true;
      reserveA, reserveB, totalLp := 0, 0, 0;
      positions, swaps := [], [];
    }

    method AddLiquidity(who: string, a: int, b: int) returns (r: Result<int, Error>)
      requires Inv(View())
      modifies this
      ensures match Add(old(View()), who, a, b)
              case Accepted(q, minted) => View() == q && r == Ok(minted)
              case Rejected(e) => View() == old(View()) && r == Err(e)
      ensures Inv(View())
    {
      ghost var was := View();
      if a <= 0 || b <= 0 {
        return Err(InvalidRequest);
      }
      if !active {
        return Err(PoolInactive);
      }
      var minted := TokensToIssue(a, b);
      if minted <= 0 {
        return Err(DepositTooSmall);
      }
      reserveA, reserveB := reserveA + a, reserveB + b;
      totalLp := totalLp + minted;
      UpsertPosition(who, minted, a, b);
      AddKeepsInv(was, who, a, b);
      return Ok(minted);
    }

    method TokensToIssue(a: int, b: int) returns (minted: int)
      requires Inv(View()) && 0 < a && 0 < b
      ensures minted == MintAmount(View(), a, b)
    {
      if totalLp == 0 {
        minted := ISqrt(a * b);
      } else {
        var lpA := a * totalLp / reserveA;
        var lpB := b * totalLp / reserveB;
        minted := lpA;
        if lpB < lpA {
          minted := lpB;
        }
      }
    }

    method UpsertPosition(who: string, minted: nat, a: nat, b: nat)
      modifies this`positions
      ensures positions == Deposit(old(positions), who, minted, a, b)
    {
      var i := Find(positions, who);
      if i == |positions| {
        positions := positions + [Position(who, minted, a, b, 0)];
      } else {
        var row := positions[i];
        positions := positions[i := row.(lp := row.lp + minted,
                                         depositedA := row.depositedA + a,
                                         depositedB := row.depositedB + b)];
      }
    }

    method RemoveLiquidity(who: string, tokens: int) returns (r: Result<(int, int), Error>)
      requires Inv(View())
      modifies this
      ensures Inv(View())
      ensures match Remove(old(View()), who, tokens)
              case Accepted(q, paid) => View() == q && r == Ok(paid)
              case Rejected(e) => View() == old(View()) && r == Err(e)
    {
      ghost var was := View();
      if tokens <= 0 {
        return Err(InvalidRequest);
      }
      var i := Find(positions, who);
      if i == |positions| {
        return Err(PositionNotFound);
      }
      if tokens > positions[i].lp {
        return Err(InsufficientLpTokens);
      }
      if totalLp == 0 {
        return Err(NoLiquidity);
      }
      var withdrawA := tokens * reserveA / totalLp;
      var withdrawB := tokens * reserveB / totalLp;
      reserveA := ClampNegative(reserveA - withdrawA);
      reserveB := ClampNegative(reserveB - withdrawB);
      totalLp := totalLp - tokens;
      positions := positions[i := positions[i].(lp := positions[i].lp - tokens)];
      RemoveKeepsInv(was, who, tokens);
      return Ok((withdrawA, withdrawB));
    }

    method SwapTokens(trader: string, asset: nat, dx: int, minOut: int) returns (r: Result<SwapRecord, Error>)
      requires Inv(View())
      modifies this
      ensures match Swap(old(View()), trader, asset, dx, minOut)
              case Accepted(q, swap) => View() == q && r == Ok(swap)
              case Rejected(e) => View() == old(View()) && r == Err(e)
      ensures Inv(View())
    {
      ghost var was := View();
      if asset == 0 || dx <= 0 || minOut < 0 {
        return Err(InvalidRequest);
      }
      if !active {
        return Err(PoolInactive);
      }
      var reserveIn, reserveOut;
      if asset == assetA {
        reserveIn, reserveOut := reserveA, reserveB;
      } else if asset == assetB {
        reserveIn, reserveOut := reserveB, reserveA;
      } else {
        return Err(AssetNotInPool);
      }
      if reserveIn == 0 || reserveOut == 0 {
        return Err(InsufficientLiquidity);
      }
      AfterFeeBounds(dx, feeBps);
      var net := AfterFee(dx, feeBps);
      var output := Output(reserveIn, reserveOut, net);
      if output <= 0 {
        return Err(OutputTooSmall);
      }
      if minOut > 0 && output < minOut {
        return Err(SlippageTooHigh);
      }
      assert output == Quote(was, asset, dx) && reserveOut == ReserveOut(was, asset);
      var swap := Settle(trader, asset, dx, dx - net, output, output * BPS / reserveOut);
      assert Swap(was, trader, asset, dx, minOut) == Accepted(View(), swap);
      SwapKeepsInv(was, trader, asset, dx, minOut);
      return Ok(swap);
    }

    /** Move the reserves, credit the fee and record the swap. */
    method Settle(trader: string, asset: nat, dx: int, fee: nat, output: int, impactBps: int)
      returns (swap: SwapRecord)
      modifies this
      ensures var toA := asset == assetA;
              && swap == SwapRecord(trader, asset, if toA then assetB else assetA, dx, output, fee, impactBps)
              && View() == old(View()).(
                   reserveA := if toA then old(reserveA) + dx else old(reserveA) - output,
                   reserveB := if toA then old(reserveB) - output else old(reserveB) + dx,
                   positions := CreditFee(old(positions), fee),
                   swaps := old(swaps) + [swap])
    {
      var outputAsset;
      if asset == assetA {
        reserveA, reserveB, outputAsset := reserveA + dx, reserveB - output, assetB;
      } else {
        reserveA, reserveB, outputAsset := reserveA - output, reserveB + dx, assetA;
      }
      DistributeFee(fee);
      swap := SwapRecord(trader, asset, outputAsset, dx, output, fee, impactBps);
      swaps := swaps + [swap];
    }

    /** Two passes over the rows: sum the tokens, then credit each row its share. */
    method DistributeFee(fee: nat)
      modifies this`positions
      ensures positions == CreditFee(old(positions), fee)
    {
      var total := TokensHeld();
      if total != 0 {
        CreditRows(fee, total);
      }
    }

    method TokensHeld() returns (total: nat)
      ensures total == Sum(Lps(positions))
    {
      ghost var ls := Lps(positions);
      total := 0;
      for i := 0 to |positions|
        invariant total == Sum(ls[..i])
      {
        if positions[i].lp > 0 {
          total := total + positions[i].lp;
        }
        SumPrefix(ls, i);
      }
      assert ls[..|positions|] == ls;
    }

    method CreditRows(fee: nat, total: nat)
      requires 0 < total == Sum(Lps(positions))
      modifies this`positions
      ensures positions == CreditFee(old(positions), fee)
    {
      ghost var goal := CreditFee(positions, fee);
      CreditsNonNegative(Lps(positions), fee, total);
      for i := 0 to |positions|
        invariant |positions| == |goal| == |old(positions)|
        invariant forall j :: 0 <= j < i ==> positions[j] == goal[j]
        invariant forall j :: i <= j < |goal| ==> positions[j] == old(positions)[j]
      {
        var row := positions[i];
        if row.lp > 0 {
          var share := row.lp * fee / total;
          assert share == Credits(Lps(old(positions)), fee, total)[i];
          positions := positions[i := row.(feesEarned := row.feesEarned + share)];
        }
      }
    }
  }
}
