/** The staking handler: positions updated field by field, with a running total per distribution. */
module StakingHandler {
  import opened Common
  import opened Sums
  import opened StakingSpec
  import opened StakingRuns

  class Staking {
    const users: set<nat>
    const assets: set<nat>
    var positions: seq<Position>
    var claims: seq<Claim>
    var distributions: seq<Distribution>

    function View(): Ledger
      reads this
    {
      Ledger(users, assets, positions, claims, distributions)
    }

    constructor (users: set<nat>, assets: set<nat>)
      ensures View() == Empty(users, assets)
    {
      this.users, this.assets := users, assets;
      positions, claims, distributions := [], [], [];
    }

    method StakeTokens(user: nat, asset: nat, amount: int, now: int) returns (r: Result<nat, Error>)
      modifies this`positions
      ensures match Stake(old(View()), user, asset, amount, now)
              case Ok(l) => View() == l && r == Ok(FindActive(old(positions), user, asset))
              case Err(e) => View() == old(View()) && r == Err(e)
    {
      if user == 0 || asset == 0 || amount <= 0 {
        return Err(InvalidRequest);
      }
      if asset !in assets {
        return Err(AssetNotFound);
      }
      if user !in users {
        return Err(UserNotFound);
      }
      var i := FindActive(positions, user, asset);
      if i == |positions| {
        positions := positions + [Position(user, asset, amount, 0, 0, now, None, true)];
      } else {
        positions := positions[i := positions[i].(staked := positions[i].staked + amount)];
      }
      return Ok(i);
    }

    method UnstakeTokens(id: nat, amount: int) returns (r: Result<(), Error>)
      modifies this`positions
      ensures match Unstake(old(View()), id, amount)
              case Ok(l) => View() == l && r == Ok(())
              case Err(e) => View() == old(View()) && r == Err(e)
    {
      if amount <= 0 {
        return Err(InvalidRequest);
      }
      if id >= |positions| {
        return Err(NotFound);
      }
      var p := positions[id];
      if !p.active {
        return Err(AlreadyClosed);
      }
      if amount > p.staked {
        return Err(ExceedsStake);
      }
      p := p.(staked := p.staked - amount);
      if p.staked == 0 {
        p := p.(active := false);
      }
      positions := positions[id := p];
      return Ok(());
    }

    method Claim(id: nat) returns (r: Result<int, Error>)
      modifies this`positions, this`claims
      ensures match ClaimRewards(old(View()), id)
              case Ok(l) => View() == l && r == Ok(l.claims[|l.claims| - 1].amount)
              case Err(e) => View() == old(View()) && r == Err(e)
    {
      if id >= |positions| {
        return Err(NotFound);
      }
      var p := positions[id];
      var pending := p.accrued - p.claimed;
      if pending <= 0 {
        return Err(NothingToClaim);
      }
      claims := claims + [StakingSpec.Claim(id, pending)];
      positions := positions[id := p.(claimed := p.claimed + pending)];
      return Ok(pending);
    }

    /** Credit every active staker of the asset and record the total. */
    method DistributeRewards(asset: nat, aprBps: int, now: int) returns (r: Result<int, Error>)
      modifies this`positions, this`distributions
      ensures match Distribute(old(View()), asset, aprBps, now)
              case Ok(l) => View() == l && r == Ok(Sum(Dues(old(positions), asset, aprBps, now)))
              case Err(e) => View() == old(View()) && r == Err(e)
    {
      if asset == 0 || aprBps <= 0 || aprBps > MAX_APR_BPS {
        return Err(InvalidRequest);
      }
      var stakers := CountEligible(positions, asset);
      if stakers == 0 {
        return Err(NoStakers);
      }
      var total := CreditStakers(asset, aprBps, now);
      distributions := distributions + [Distribution(asset, total, stakers, aprBps)];
      return Ok(total);
    }

    method CreditStakers(asset: nat, aprBps: int, now: int) returns (total: int)
      modifies this`positions
      ensures positions == CreditAll(old(positions), asset, aprBps, now)
      ensures total == Sum(Dues(old(positions), asset, aprBps, now))
    {
      ghost var dues := Dues(positions, asset, aprBps, now);
      total := 0;
      for i := 0 to |positions|
        invariant |positions| == |old(positions)| && total == Sum(dues[..i])
        invariant forall j :: 0 <= j < i ==> positions[j] == CreditAll(old(positions), asset, aprBps, now)[j]
        invariant forall j :: i <= j < |positions| ==> positions[j] == old(positions)[j]
      {
        var p := positions[i];
        SumPrefix(dues, i);
        if Eligible(p, asset) {
          var since := p.stakedAt;
          if p.lastRewardAt.Some? {
            since := p.lastRewardAt.value;
          }
          var seconds := now - since;
          if seconds > 0 {
            var reward := p.staked * aprBps / BPS * seconds / YEAR;
            if reward > 0 {
              positions := positions[i := p.(accrued := p.accrued + reward, lastRewardAt := Some(now))];
              total := total + reward;
            }
          }
        }
      }
      assert dues[..|positions|] == dues;
    }
  }
}
