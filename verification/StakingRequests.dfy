/**
 When the staking handler accepts a request and what an accepted one changes, told from the request
 and the fields of the stored positions, with the numbers written out.
 */
module StakingRequests {
  import opened Common
  import opened Sums
  import opened StakingSpec
  import opened StakingRuns

  /** Position `i` is an active stake of the user in the asset; there is at most one. */
  predicate Holds(ps: seq<Position>, i: nat, user: nat, asset: nat) {
    i < |ps| && ps[i].user == user && ps[i].asset == asset && ps[i].active
  }

  // ----- staking -----

  lemma StakeAcceptedExactly(l: Ledger, user: nat, asset: nat, amount: int, now: int)
    ensures Stake(l, user, asset, amount, now).Ok?
            <==> 0 < user && 0 < asset && 0 < amount && asset in l.assets && user in l.users
  {
  }

  /** An existing active stake grows by the amount; otherwise a new row opens with it. */
  lemma StakeSettles(l: Ledger, user: nat, asset: nat, amount: int, now: int)
    requires Inv(l) && Stake(l, user, asset, amount, now).Ok?
    ensures var r := Stake(l, user, asset, amount, now).value;
            && r == l.(positions := r.positions) && |l.positions| <= |r.positions|
            && (forall i :: 0 <= i < |l.positions| ==>
                  r.positions[i] == if Holds(l.positions, i, user, asset)
                                    then l.positions[i].(staked := l.positions[i].staked + amount)
                                    else l.positions[i])
            && if exists i: nat :: Holds(l.positions, i, user, asset) then |r.positions| == |l.positions|
               else r.positions == l.positions + [Position(user, asset, amount, 0, 0, now, None, true)]
  {
    var i := FindActive(l.positions, user, asset);
    if i < |l.positions| {
      assert Holds(l.positions, i, user, asset);
    }
  }

  // ----- unstaking -----

  lemma UnstakeAcceptedExactly(l: Ledger, id: nat, amount: int)
    ensures Unstake(l, id, amount).Ok?
            <==> 0 < amount && id < |l.positions| && l.positions[id].active && amount <= l.positions[id].staked
  {
  }

  /** The stake falls by the amount, and the position closes when nothing is left of it. */
  lemma UnstakeSettles(l: Ledger, id: nat, amount: int)
    requires Inv(l) && Unstake(l, id, amount).Ok?
    ensures var r := Unstake(l, id, amount).value;
            && r == l.(positions := r.positions) && |r.positions| == |l.positions|
            && (forall i :: 0 <= i < |l.positions| && i != id ==> r.positions[i] == l.positions[i])
            && var (p, q) := (l.positions[id], r.positions[id]);
               && q == p.(staked := p.staked - amount, active := q.active)
               && (q.active <==> amount < p.staked)
  {
  }

  // ----- claiming -----

  lemma ClaimAcceptedExactly(l: Ledger, id: nat)
    ensures ClaimRewards(l, id).Ok? <==> id < |l.positions| && l.positions[id].claimed < l.positions[id].accrued
  {
  }

  /** A claim pays everything accrued and not yet claimed, once. */
  lemma ClaimSettles(l: Ledger, id: nat)
    requires ClaimRewards(l, id).Ok?
    ensures var (p, r) := (l.positions[id], ClaimRewards(l, id).value);
            && r == l.(positions := r.positions, claims := r.claims) && |r.positions| == |l.positions|
            && r.claims == l.claims + [Claim(id, p.accrued - p.claimed)]
            && r.positions[id] == p.(claimed := p.accrued)
            && forall i :: 0 <= i < |l.positions| && i != id ==> r.positions[i] == l.positions[i]
  {
  }

  // ----- distributing -----

  /** The time up to which the position was credited. */
  function CreditedUntil(p: Position): int {
    if p.lastRewardAt.Some? then p.lastRewardAt.value else p.stakedAt
  }

  function Stakers(ps: seq<Position>, asset: nat): set<nat> {
    set i: nat | i < |ps| && ps[i].asset == asset && ps[i].active
  }

  lemma {:induction false} StakersCounted(ps: seq<Position>, asset: nat)
    ensures CountEligible(ps, asset) == |Stakers(ps, asset)|
  {
    if ps != [] {
      var n := |ps| - 1;
      StakersCounted(ps[..n], asset);
      if ps[n].asset == asset && ps[n].active {
        assert Stakers(ps, asset) == Stakers(ps[..n], asset) + {n};
      } else {
        assert Stakers(ps, asset) == Stakers(ps[..n], asset);
      }
    }
  }

  /** Rewards are distributed if and only if the rate is in range and the asset has an active staker. */
  lemma DistributeAcceptedExactly(l: Ledger, asset: nat, aprBps: int, now: int)
    ensures Distribute(l, asset, aprBps, now).Ok?
            <==> && 0 < asset && 0 < aprBps <= 100_000
                 && exists i :: 0 <= i < |l.positions| && l.positions[i].asset == asset && l.positions[i].active
  {
    StakersCounted(l.positions, asset);
    var ps := l.positions;
    if i :| 0 <= i < |ps| && ps[i].asset == asset && ps[i].active {
      assert i in Stakers(ps, asset);
    } else {
      assert Stakers(ps, asset) == {};
    }
  }

  /** The largest whole yearly reward of a stake: `aprBps` parts of ten thousand. */
  ghost predicate IsYearlyRate(rate: int, staked: int, aprBps: int) {
    rate * 10_000 <= staked * aprBps < (rate + 1) * 10_000
  }

  lemma YearlyRateIs(rate: int, staked: int, aprBps: int)
    requires IsYearlyRate(rate, staked, aprBps)
    ensures YearlyRate(staked, aprBps) == rate
  {
  }

  lemma FloorIs(d: int, num: int, den: int)
    requires 0 < den
    ensures d <= num / den <==> d * den <= num
  {
    var q := num / den;
    assert den * q <= num < den * (q + 1);
    if d <= q {
      assert d * den <= q * den;
    } else {
      assert (q + 1) * den <= d * den;
    }
  }

  /**
   What a distribution gives one position: the largest whole reward that its yearly rate allows for
   the seconds since it was last credited, a year having 31,536,000 of them. Time without a whole
   unit stays uncredited, and positions that are closed or stake another asset stay as they are.
   */
  lemma DistributePays(l: Ledger, asset: nat, aprBps: int, now: int, i: nat, rate: int, d: int)
    requires Inv(l) && Distribute(l, asset, aprBps, now).Ok? && i < |l.positions|
    requires IsYearlyRate(rate, l.positions[i].staked, aprBps)
    ensures var (p, ps) := (l.positions[i], Distribute(l, asset, aprBps, now).value.positions);
            && |ps| == |l.positions|
            && var earned := ps[i].accrued - p.accrued;
               if p.active && p.asset == asset && CreditedUntil(p) < now
               then
                 && (d <= earned <==> d * 31_536_000 <= rate * (now - CreditedUntil(p)))
                 && ps[i] == p.(accrued := ps[i].accrued,
                                lastRewardAt := if 0 < earned then Some(now) else p.lastRewardAt)
               else ps[i] == p
  {
    var p := l.positions[i];
    assert PositionOk(p);
    YearlyRateIs(rate, p.staked, aprBps);
    assert 0 <= p.staked * aprBps;
    if CreditedUntil(p) < now {
      assert 0 <= rate * (now - CreditedUntil(p));
      FloorIs(d, rate * (now - CreditedUntil(p)), 31_536_000);
    }
  }

  function Earned(ps: seq<Position>, qs: seq<Position>): seq<int>
    requires |qs| == |ps|
  {
    seq(|ps|, i requires 0 <= i < |ps| => qs[i].accrued - ps[i].accrued)
  }

  /** The record of a distribution: the rate, the number of active stakers, and what they earned. */
  lemma DistributeRecords(l: Ledger, asset: nat, aprBps: int, now: int)
    requires Distribute(l, asset, aprBps, now).Ok?
    ensures var r := Distribute(l, asset, aprBps, now).value;
            && |r.positions| == |l.positions|
            && r == l.(positions := r.positions, distributions := r.distributions)
            && r.distributions == l.distributions +
                 [Distribution(asset, Sum(Earned(l.positions, r.positions)), |Stakers(l.positions, asset)|, aprBps)]
  {
    StakersCounted(l.positions, asset);
    var r := Distribute(l, asset, aprBps, now).value;
    assert Earned(l.positions, r.positions) == Dues(l.positions, asset, aprBps, now);
  }

  lemma {:induction false} CreditedAtMost(p: Position, aprBps: int, times: seq<int>)
    ensures Credited(p, aprBps, times) <= |times|
  {
    if times != [] {
      CreditedAtMost(p, aprBps, times[..|times| - 1]);
    }
  }

  lemma NearFloor(earned: int, k: nat, due: int)
    requires earned <= due / 31_536_000 <= earned + k
    ensures earned * 31_536_000 <= due < (earned + k + 1) * 31_536_000
  {
  }

  /** So many seconds at the stake's yearly rate pay `earned`, short by at most `k` units. */
  ghost predicate PaidByTheClock(staked: int, aprBps: int, seconds: int, earned: int, k: nat) {
    forall rate: int :: IsYearlyRate(rate, staked, aprBps) ==>
      earned * 31_536_000 <= rate * seconds < (earned + k + 1) * 31_536_000
  }

  /** From `p` to `q` the position earned by the clock, up to the last of the distributions. */
  ghost predicate EarnedByTheClock(p: Position, q: Position, aprBps: int, until: int, times: seq<int>) {
    PaidByTheClock(p.staked, aprBps, until - CreditedUntil(p), q.accrued - p.accrued, |times|)
  }

  lemma {:induction false} DueInNumbers(p: Position, q: Position, aprBps: int, until: int, times: seq<int>)
    requires 0 <= p.staked && 0 <= aprBps && CreditedUntil(p) <= until
    requires q.accrued - p.accrued <= Due(p, aprBps, until) <= q.accrued - p.accrued + Credited(p, aprBps, times)
    ensures EarnedByTheClock(p, q, aprBps, until, times)
  {
    var earned := q.accrued - p.accrued;
    forall rate: int | IsYearlyRate(rate, p.staked, aprBps)
      ensures earned * 31_536_000 <= rate * (until - CreditedUntil(p)) < (earned + |times| + 1) * 31_536_000
    {
      YearlyRateIs(rate, p.staked, aprBps);
      DueIsFloor(p, aprBps, until);
      CreditedAtMost(p, aprBps, times);
      NearFloor(earned, |times|, rate * (until - CreditedUntil(p)));
    }
  }

  lemma {:induction false} SteadyTerms(l: Ledger, ops: seq<Op>, i: nat, aprBps: int, until: int)
    requires Inv(l) && i < |l.positions| && SteadyRun(l.positions[i], i, aprBps, ops, until)
    ensures 0 <= l.positions[i].staked && CreditedUntil(l.positions[i]) <= until
  {
    assert PositionOk(l.positions[i]);
  }

  /**
   What a staker earns over a run, in numbers: with the stake and the rate fixed, the rewards from the
   last credit before the run up to the last distribution, less at most one unit per distribution.
   */
  lemma {:induction false} StakersEarnInNumbers(l: Ledger, ops: seq<Op>, i: nat, aprBps: int, until: int)
    requires Inv(l) && i < |l.positions| && l.positions[i].active && 0 < aprBps <= 100_000
    requires SteadyRun(l.positions[i], i, aprBps, ops, until)
    ensures i < |Run(l, ops).positions|
    ensures var p := l.positions[i];
            EarnedByTheClock(p, Run(l, ops).positions[i], aprBps, until, Times(ops, p.asset))
  {
    SteadyTerms(l, ops, i, aprBps, until);
    StakersEarnByTheClock(l, ops, i, aprBps, until);
    var p := l.positions[i];
    DueInNumbers(p, Run(l, ops).positions[i], aprBps, until, Times(ops, p.asset));
  }
}
