/**
 Staking rewards. Time is a whole number of seconds and amounts are indivisible units.
 */
module StakingSpec {
  import opened Common

  const YEAR := 31_536_000
  const BPS := 10_000
  const MAX_APR_BPS := 100_000

  /** `since` is the time up to which rewards were credited: the last reward, or the stake itself. */
  datatype Position = Position(user: nat, asset: nat, staked: int, accrued: int, claimed: int,
                               stakedAt: int, lastRewardAt: Option<int>, active: bool)

  datatype Claim = Claim(stakeId: nat, amount: int)

  datatype Distribution = Distribution(asset: nat, total: int, stakers: nat, aprBps: int)

  /** The known users and assets, and the three tables the handler writes. */
  datatype Ledger = Ledger(users: set<nat>, assets: set<nat>,
                           positions: seq<Position>, claims: seq<Claim>, distributions: seq<Distribution>)

  datatype Error = InvalidRequest | AssetNotFound | UserNotFound | NotFound | AlreadyClosed | ExceedsStake | NothingToClaim | NoStakers

  function Since(p: Position): int {
    match p.lastRewardAt
    case Some(t) => t
    case None => p.stakedAt
  }

  /** Units earned per year; the basis-point division rounds before the time is applied. */
  function YearlyRate(staked: int, aprBps: int): int {
    staked * aprBps / BPS
  }

  function Reward(staked: int, aprBps: int, seconds: int): int {
    YearlyRate(staked, aprBps) * seconds / YEAR
  }

  /** The amount a distribution at `now` credits; zero leaves the position untouched. */
  function Due(p: Position, aprBps: int, now: int): int {
    var seconds := now - Since(p);
    if seconds <= 0 then 0
    else
      var r := Reward(p.staked, aprBps, seconds);
      if r <= 0 then 0 else r
  }

  function Credit(p: Position, aprBps: int, now: int): Position {
    var r := Due(p, aprBps, now);
    if r == 0 then p else p.(accrued := p.accrued + r, lastRewardAt := Some(now))
  }

  // ----- any schedule against one distribution -----

  /** The position after distributions at the listed times. */
  function Schedule(p: Position, aprBps: int, times: seq<int>): Position {
    if times == [] then p
    else Credit(Schedule(p, aprBps, times[..|times| - 1]), aprBps, times[|times| - 1])
  }

  /** How many of the listed distributions credited something. */
  function Credited(p: Position, aprBps: int, times: seq<int>): nat {
    if times == [] then 0
    else
      var n := |times| - 1;
      Credited(p, aprBps, times[..n])
        + if Due(Schedule(p, aprBps, times[..n]), aprBps, times[n]) > 0 then 1 else 0
  }

  lemma DueBounds(p: Position, aprBps: int, now: int)
    requires 0 <= p.staked && 0 <= aprBps
    ensures var (rate, d) := (YearlyRate(p.staked, aprBps), Due(p, aprBps, now));
            && 0 <= rate && 0 <= d
            && (0 < d ==> Since(p) < now && d * YEAR <= rate * (now - Since(p)) < (d + 1) * YEAR)
            && (d == 0 && Since(p) <= now ==> rate * (now - Since(p)) < YEAR)
  {
    assert 0 <= p.staked * aprBps;
    var rate, s := YearlyRate(p.staked, aprBps), now - Since(p);
    if 0 < s {
      assert 0 <= rate * s;
    } else if s == 0 {
      assert rate * s == 0;
    }
  }

  lemma CreditKeepsTerms(p: Position, aprBps: int, times: seq<int>)
    ensures var q := Schedule(p, aprBps, times);
            q == p.(accrued := q.accrued, lastRewardAt := q.lastRewardAt)
  {
  }

  /** Accrual of a schedule in terms of the time it credited. */
  ghost predicate WithinCredits(rate: int, p: Position, q: Position, k: int) {
    var earned := q.accrued - p.accrued;
    && Since(p) <= Since(q)
    && earned * YEAR <= rate * (Since(q) - Since(p)) <= earned * YEAR + k * (YEAR - 1)
  }

  lemma CreditAddsUp(rate: int, p: Position, q: Position, k: int, d: int, now: int)
    requires WithinCredits(rate, p, q, k) && 0 < d && Since(q) < now
    requires d * YEAR <= rate * (now - Since(q)) < (d + 1) * YEAR
    ensures WithinCredits(rate, p, q.(accrued := q.accrued + d, lastRewardAt := Some(now)), k + 1)
  {
    var a, b := Since(q) - Since(p), now - Since(q);
    assert rate * (now - Since(p)) == rate * a + rate * b by {
      assert now - Since(p) == a + b;
    }
  }

  lemma {:induction false} ScheduleWithinCredits(p: Position, aprBps: int, times: seq<int>)
    requires 0 <= p.staked && 0 <= aprBps
    ensures WithinCredits(YearlyRate(p.staked, aprBps), p, Schedule(p, aprBps, times), Credited(p, aprBps, times))
  {
    var rate := YearlyRate(p.staked, aprBps);
    if times == [] {
      assert rate * 0 == 0;
    } else {
      var n := |times| - 1;
      var q := Schedule(p, aprBps, times[..n]);
      ScheduleWithinCredits(p, aprBps, times[..n]);
      CreditKeepsTerms(p, aprBps, times[..n]);
      DueBounds(q, aprBps, times[n]);
      if 0 < Due(q, aprBps, times[n]) {
        CreditAddsUp(rate, p, q, Credited(p, aprBps, times[..n]), Due(q, aprBps, times[n]), times[n]);
      }
    }
  }

  /** Once a distribution happened at or after `until`, less than one unit up to `until` is uncredited. */
  lemma {:induction false} LeftoverIsSmall(p: Position, aprBps: int, times: seq<int>, until: int)
    requires 0 <= p.staked && 0 <= aprBps
    requires until in times
    ensures var q := Schedule(p, aprBps, times);
            Since(q) <= until ==> YearlyRate(p.staked, aprBps) * (until - Since(q)) < YEAR
  {
    var n := |times| - 1;
    var rate := YearlyRate(p.staked, aprBps);
    var q, r := Schedule(p, aprBps, times[..n]), Schedule(p, aprBps, times);
    CreditKeepsTerms(p, aprBps, times[..n]);
    DueBounds(q, aprBps, times[n]);
    if times[n] == until {
      assert rate * 0 == 0;
    } else {
      assert until in times[..n];
      LeftoverIsSmall(p, aprBps, times[..n], until);
      if Since(r) <= until && Since(q) <= Since(r) {
        assert rate * (until - Since(r)) <= rate * (until - Since(q));
      }
    }
  }

  lemma {:induction false} CreditedUpTo(p: Position, aprBps: int, times: seq<int>, until: int)
    requires 0 <= p.staked && 0 <= aprBps
    requires Since(p) <= until && forall i :: 0 <= i < |times| ==> times[i] <= until
    ensures Since(Schedule(p, aprBps, times)) <= until
  {
    if times != [] {
      CreditedUpTo(p, aprBps, times[..|times| - 1], until);
    }
  }

  lemma RoundingGap(rate: int, span: int, credited: int, earned: int, k: int)
    requires 0 <= rate && 0 <= credited <= span && 0 <= k
    requires earned * YEAR <= rate * credited <= earned * YEAR + k * (YEAR - 1)
    requires rate * (span - credited) < YEAR
    ensures earned <= rate * span / YEAR <= earned + k
  {
    assert rate * span == rate * credited + rate * (span - credited);
    assert 0 <= rate * (span - credited);
  }

  lemma DueIsFloor(p: Position, aprBps: int, now: int)
    requires 0 <= p.staked && 0 <= aprBps && Since(p) <= now
    ensures Due(p, aprBps, now) == YearlyRate(p.staked, aprBps) * (now - Since(p)) / YEAR
  {
    var rate, span := YearlyRate(p.staked, aprBps), now - Since(p);
    assert 0 <= p.staked * aprBps;
    assert 0 <= rate * span;
    if span == 0 {
      assert rate * span == 0;
    }
  }

  /**
   With the stake and the rate fixed, any schedule of distributions accrues at most what one
   distribution over the whole span accrues, and at most one unit less per credited distribution.
   */
  lemma {:induction false} ScheduleMatchesOneDistribution(p: Position, aprBps: int, times: seq<int>, until: int)
    requires 0 <= p.staked && 0 <= aprBps && Since(p) <= until
    requires until in times && forall i :: 0 <= i < |times| ==> times[i] <= until
    ensures var earned := Schedule(p, aprBps, times).accrued - p.accrued;
            earned <= Due(p, aprBps, until) <= earned + Credited(p, aprBps, times)
  {
    var rate, q := YearlyRate(p.staked, aprBps), Schedule(p, aprBps, times);
    ScheduleWithinCredits(p, aprBps, times);
    CreditedUpTo(p, aprBps, times, until);
    LeftoverIsSmall(p, aprBps, times, until);
    DueIsFloor(p, aprBps, until);
    RoundingGap(rate, until - Since(p), Since(q) - Since(p), q.accrued - p.accrued, Credited(p, aprBps, times));
  }
}
