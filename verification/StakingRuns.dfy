/** The staking tables over every sequence of requests. */
module StakingRuns {
  import opened Common
  import opened Sums
  import opened StakingSpec

  // ----- requests -----

  /** Index of the caller's active position in the asset, or the number of rows. */
  function FindActive(ps: seq<Position>, user: nat, asset: nat): (i: nat)
    ensures i <= |ps|
    ensures i < |ps| ==> ps[i].user == user && ps[i].asset == asset && ps[i].active
    ensures i == |ps| ==>
              forall j :: 0 <= j < |ps| ==> !(ps[j].user == user && ps[j].asset == asset && ps[j].active)
  {
    if ps == [] then 0
    else
      var n := |ps| - 1;
      var i := FindActive(ps[..n], user, asset);
      if i < n then i
      else if ps[n].user == user && ps[n].asset == asset && ps[n].active then n
      else
        assert forall j :: 0 <= j < n ==> ps[j] == ps[..n][j];
        n + 1
  }

  function Stake(l: Ledger, user: nat, asset: nat, amount: int, now: int): Result<Ledger, Error> {
    if user == 0 || asset == 0 || amount <= 0 then Err(InvalidRequest)
    else if asset !in l.assets then Err(AssetNotFound)
    else if user !in l.users then Err(UserNotFound)
    else
      var ps, i := l.positions, FindActive(l.positions, user, asset);
      if i == |ps| then Ok(l.(positions := ps + [Position(user, asset, amount, 0, 0, now, None, true)]))
      else Ok(l.(positions := ps[i := ps[i].(staked := ps[i].staked + amount)]))
  }

  function Unstake(l: Ledger, id: nat, amount: int): Result<Ledger, Error> {
    if amount <= 0 then Err(InvalidRequest)
    else if id >= |l.positions| then Err(NotFound)
    else
      var p := l.positions[id];
      if !p.active then Err(AlreadyClosed)
      else if amount > p.staked then Err(ExceedsStake)
      else
        Ok(l.(positions := l.positions[id := p.(staked := p.staked - amount,
                                                active := p.staked - amount != 0)]))
  }

  function ClaimRewards(l: Ledger, id: nat): Result<Ledger, Error> {
    if id >= |l.positions| then Err(NotFound)
    else
      var p := l.positions[id];
      var pending := p.accrued - p.claimed;
      if pending <= 0 then Err(NothingToClaim)
      else Ok(l.(positions := l.positions[id := p.(claimed := p.claimed + pending)],
                 claims := l.claims + [Claim(id, pending)]))
  }

  predicate Eligible(p: Position, asset: nat) {
    p.asset == asset && p.active
  }

  function CreditAll(ps: seq<Position>, asset: nat, aprBps: int, now: int): seq<Position> {
    seq(|ps|, i requires 0 <= i < |ps| => if Eligible(ps[i], asset) then Credit(ps[i], aprBps, now) else ps[i])
  }

  function Dues(ps: seq<Position>, asset: nat, aprBps: int, now: int): seq<int> {
    seq(|ps|, i requires 0 <= i < |ps| => if Eligible(ps[i], asset) then Due(ps[i], aprBps, now) else 0)
  }

  function CountEligible(ps: seq<Position>, asset: nat): nat {
    if ps == [] then 0
    else CountEligible(ps[..|ps| - 1], asset) + if Eligible(ps[|ps| - 1], asset) then 1 else 0
  }

  function Distribute(l: Ledger, asset: nat, aprBps: int, now: int): Result<Ledger, Error> {
    if asset == 0 || aprBps <= 0 || aprBps > MAX_APR_BPS then Err(InvalidRequest)
    else
      var stakers := CountEligible(l.positions, asset);
      if stakers == 0 then Err(NoStakers)
      else Ok(l.(positions := CreditAll(l.positions, asset, aprBps, now),
                 distributions := l.distributions +
                   [Distribution(asset, Sum(Dues(l.positions, asset, aprBps, now)), stakers, aprBps)]))
  }

  // ----- invariant -----

  function Accrued(ps: seq<Position>): seq<int> {
    seq(|ps|, i requires 0 <= i < |ps| => ps[i].accrued)
  }

  function Claimed(ps: seq<Position>): seq<int> {
    seq(|ps|, i requires 0 <= i < |ps| => ps[i].claimed)
  }

  function Amounts(cs: seq<Claim>): seq<int> {
    seq(|cs|, i requires 0 <= i < |cs| => cs[i].amount)
  }

  function Totals(ds: seq<Distribution>): seq<int> {
    seq(|ds|, i requires 0 <= i < |ds| => ds[i].total)
  }

  ghost predicate PositionOk(p: Position) {
    0 < p.asset && 0 <= p.claimed <= p.accrued && 0 <= p.staked && (p.active <==> 0 < p.staked)
  }

  ghost predicate OneActive(ps: seq<Position>) {
    forall i, j :: 0 <= i < j < |ps| && ps[i].active && ps[j].active ==>
      !(ps[i].user == ps[j].user && ps[i].asset == ps[j].asset)
  }

  ghost predicate Inv(l: Ledger) {
    && (forall i :: 0 <= i < |l.positions| ==> PositionOk(l.positions[i]))
    && OneActive(l.positions)
    && Sum(Accrued(l.positions)) == Sum(Totals(l.distributions))
    && Sum(Claimed(l.positions)) == Sum(Amounts(l.claims))
  }

  lemma StakeKeepsInv(l: Ledger, user: nat, asset: nat, amount: int, now: int)
    requires Inv(l) && Stake(l, user, asset, amount, now).Ok?
    ensures Inv(Stake(l, user, asset, amount, now).value)
  {
    var ps, qs := l.positions, Stake(l, user, asset, amount, now).value.positions;
    if |qs| == |ps| {
      assert Accrued(qs) == Accrued(ps) && Claimed(qs) == Claimed(ps);
    } else {
      assert Accrued(qs) == Accrued(ps) + [0] && Claimed(qs) == Claimed(ps) + [0];
      SumSnoc(Accrued(ps), 0);
      SumSnoc(Claimed(ps), 0);
    }
  }

  lemma UnstakeKeepsInv(l: Ledger, id: nat, amount: int)
    requires Inv(l) && Unstake(l, id, amount).Ok?
    ensures Inv(Unstake(l, id, amount).value)
  {
    var ps, qs := l.positions, Unstake(l, id, amount).value.positions;
    assert PositionOk(ps[id]);
    assert Accrued(qs) == Accrued(ps) && Claimed(qs) == Claimed(ps);
  }

  /** The rows after a claim that pays all that is pending. */
  function Paid(ps: seq<Position>, id: nat): seq<Position>
    requires id < |ps|
  {
    ps[id := ps[id].(claimed := ps[id].claimed + (ps[id].accrued - ps[id].claimed))]
  }

  lemma ClaimKeepsRows(ps: seq<Position>, id: nat)
    requires id < |ps| && OneActive(ps) && forall i :: 0 <= i < |ps| ==> PositionOk(ps[i])
    ensures OneActive(Paid(ps, id)) && forall i :: 0 <= i < |ps| ==> PositionOk(Paid(ps, id)[i])
  {
    var qs := Paid(ps, id);
    assert forall i :: 0 <= i < |ps| ==>
        qs[i].user == ps[i].user && qs[i].asset == ps[i].asset && qs[i].active == ps[i].active;
  }

  lemma ClaimSums(ps: seq<Position>, id: nat)
    requires id < |ps|
    ensures Sum(Accrued(Paid(ps, id))) == Sum(Accrued(ps))
    ensures Sum(Claimed(Paid(ps, id))) == Sum(Claimed(ps)) + (ps[id].accrued - ps[id].claimed)
  {
    var cs, x := Claimed(ps), ps[id].accrued;
    assert Accrued(Paid(ps, id)) == Accrued(ps);
    SumUpdate(cs, id, x);
    assert Claimed(Paid(ps, id)) == cs[id := x];
  }

  lemma AmountsSnoc(cs: seq<Claim>, c: Claim)
    ensures Sum(Amounts(cs + [c])) == Sum(Amounts(cs)) + c.amount
  {
    var amounts := Amounts(cs);
    SumSnoc(amounts, c.amount);
    assert Amounts(cs + [c]) == amounts + [c.amount];
  }

  lemma ClaimKeepsInv(l: Ledger, id: nat)
    requires Inv(l) && ClaimRewards(l, id).Ok?
    ensures Inv(ClaimRewards(l, id).value)
  {
    ClaimKeepsRows(l.positions, id);
    ClaimSums(l.positions, id);
    AmountsSnoc(l.claims, Claim(id, l.positions[id].accrued - l.positions[id].claimed));
  }

  lemma CreditKeepsRows(ps: seq<Position>, asset: nat, aprBps: int, now: int)
    requires OneActive(ps) && forall i :: 0 <= i < |ps| ==> PositionOk(ps[i])
    ensures var qs := CreditAll(ps, asset, aprBps, now);
            OneActive(qs) && forall i :: 0 <= i < |qs| ==> PositionOk(qs[i])
  {
    var qs := CreditAll(ps, asset, aprBps, now);
    forall i | 0 <= i < |ps|
      ensures PositionOk(qs[i])
      ensures qs[i].user == ps[i].user && qs[i].asset == ps[i].asset && qs[i].active == ps[i].active
    {
      assert PositionOk(ps[i]);
    }
  }

  lemma CreditSums(ps: seq<Position>, asset: nat, aprBps: int, now: int)
    ensures var (qs, dues) := (CreditAll(ps, asset, aprBps, now), Dues(ps, asset, aprBps, now));
            Sum(Accrued(qs)) == Sum(Accrued(ps)) + Sum(dues) && Sum(Claimed(qs)) == Sum(Claimed(ps))
  {
    var qs, dues := CreditAll(ps, asset, aprBps, now), Dues(ps, asset, aprBps, now);
    SumPlus(Accrued(ps), dues, Accrued(qs));
    assert Claimed(qs) == Claimed(ps);
  }

  lemma TotalsSnoc(ds: seq<Distribution>, d: Distribution)
    ensures Sum(Totals(ds + [d])) == Sum(Totals(ds)) + d.total
  {
    var totals := Totals(ds);
    SumSnoc(totals, d.total);
    assert Totals(ds + [d]) == totals + [d.total];
  }

  lemma DistributeKeepsInv(l: Ledger, asset: nat, aprBps: int, now: int)
    requires Inv(l) && Distribute(l, asset, aprBps, now).Ok?
    ensures Inv(Distribute(l, asset, aprBps, now).value)
  {
    var dues := Dues(l.positions, asset, aprBps, now);
    CreditKeepsRows(l.positions, asset, aprBps, now);
    CreditSums(l.positions, asset, aprBps, now);
    TotalsSnoc(l.distributions, Distribution(asset, Sum(dues), CountEligible(l.positions, asset), aprBps));
  }

  // ----- runs -----

  datatype Op =
    | StakeOp(user: nat, asset: nat, amount: int, now: int)
    | UnstakeOp(id: nat, amount: int)
    | ClaimOp(id: nat)
    | DistributeOp(asset: nat, aprBps: int, now: int)

  function Answer(l: Ledger, op: Op): Result<Ledger, Error> {
    match op
    case StakeOp(user, asset, amount, now) => Stake(l, user, asset, amount, now)
    case UnstakeOp(id, amount) => Unstake(l, id, amount)
    case ClaimOp(id) => ClaimRewards(l, id)
    case DistributeOp(asset, aprBps, now) => Distribute(l, asset, aprBps, now)
  }

  lemma AnswerKeepsInv(l: Ledger, op: Op)
    requires Inv(l) && Answer(l, op).Ok?
    ensures Inv(Answer(l, op).value)
  {
    match op
    case StakeOp(user, asset, amount, now) => StakeKeepsInv(l, user, asset, amount, now);
    case UnstakeOp(id, amount) => UnstakeKeepsInv(l, id, amount);
    case ClaimOp(id) => ClaimKeepsInv(l, id);
    case DistributeOp(asset, aprBps, now) => DistributeKeepsInv(l, asset, aprBps, now);
  }

  function Step(l: Ledger, op: Op): (r: Ledger)
    requires Inv(l)
    ensures Inv(r)
  {
    var a := Answer(l, op);
    if a.Err? then l else AnswerKeepsInv(l, op); a.value
  }

  function Empty(users: set<nat>, assets: set<nat>): Ledger {
    Ledger(users, assets, [], [], [])
  }

  lemma EmptyIsSound(users: set<nat>, assets: set<nat>)
    ensures Inv(Empty(users, assets))
  {
    assert Accrued([]) == [] && Claimed([]) == [] && Amounts([]) == [] && Totals([]) == [];
  }

  function Run(l: Ledger, ops: seq<Op>): (r: Ledger)
    requires Inv(l)
    ensures Inv(r)
  {
    if ops == [] then l else Step(Run(l, ops[..|ops| - 1]), ops[|ops| - 1])
  }

  lemma {:induction false} SumAtMost(s: seq<int>, t: seq<int>)
    requires |s| == |t| && forall i :: 0 <= i < |s| ==> s[i] <= t[i]
    ensures Sum(s) <= Sum(t)
  {
    if s != [] {
      SumAtMost(s[..|s| - 1], t[..|t| - 1]);
    }
  }

  /** Over every run, all claims together never exceed all rewards distributed. */
  lemma ClaimsNeverExceedDistributions(users: set<nat>, assets: set<nat>, ops: seq<Op>)
    ensures Inv(Empty(users, assets))
    ensures var l := Run(Empty(users, assets), ops); Sum(Amounts(l.claims)) <= Sum(Totals(l.distributions))
  {
    EmptyIsSound(users, assets);
    var ps := Run(Empty(users, assets), ops).positions;
    forall i | 0 <= i < |ps| ensures Claimed(ps)[i] <= Accrued(ps)[i] {
      assert PositionOk(ps[i]);
    }
    SumAtMost(Claimed(ps), Accrued(ps));
  }

  // ----- what a staker earns over a run -----

  /** The request leaves the stake of position `i` alone and distributes on its asset at one rate. */
  ghost predicate KeepsStake(p: Position, i: nat, aprBps: int, op: Op) {
    match op
    case StakeOp(user, asset, _, _) => !(user == p.user && asset == p.asset)
    case UnstakeOp(id, _) => id != i
    case ClaimOp(_) => true
    case DistributeOp(asset, apr, _) => asset == p.asset ==> apr == aprBps
  }

  /** Times of the distributions on the asset. */
  function Times(ops: seq<Op>, asset: nat): seq<int> {
    if ops == [] then []
    else
      Times(ops[..|ops| - 1], asset) + TimesOf(ops[|ops| - 1], asset)
  }

  lemma {:induction false} EligibleCounted(ps: seq<Position>, asset: nat, i: nat)
    requires i < |ps| && Eligible(ps[i], asset)
    ensures 0 < CountEligible(ps, asset)
  {
    if i < |ps| - 1 {
      EligibleCounted(ps[..|ps| - 1], asset, i);
    }
  }

  /** One request moves the position exactly as the schedule does. */
  lemma StepFollowsSchedule(l: Ledger, op: Op, i: nat, aprBps: int)
    requires Inv(l) && i < |l.positions| && l.positions[i].active && 0 < aprBps <= MAX_APR_BPS
    requires KeepsStake(l.positions[i], i, aprBps, op)
    ensures var (p, ps) := (l.positions[i], Step(l, op).positions);
            && i < |ps| && p.claimed <= ps[i].claimed
            && ps[i] == (if op.DistributeOp? && op.asset == p.asset then Credit(p, aprBps, op.now) else p)
                          .(claimed := ps[i].claimed)
  {
    assert PositionOk(l.positions[i]);
    if op.DistributeOp? && op.asset == l.positions[i].asset {
      EligibleCounted(l.positions, op.asset, i);
    }
  }

  /** Apart from claims, the position is what the schedule makes of `p`. */
  ghost predicate Follows(p: Position, aprBps: int, times: seq<int>, q: Position) {
    q == Schedule(p, aprBps, times).(claimed := q.claimed)
  }

  lemma FollowsCredit(p: Position, aprBps: int, times: seq<int>, q: Position, now: int, claimed: int)
    requires Follows(p, aprBps, times, q)
    ensures Follows(p, aprBps, times + [now], Credit(q, aprBps, now).(claimed := claimed))
  {
    assert (times + [now])[..|times|] == times;
  }

  lemma FollowsKeepsStake(p: Position, aprBps: int, times: seq<int>, q: Position, i: nat, op: Op)
    requires Follows(p, aprBps, times, q) && KeepsStake(p, i, aprBps, op)
    ensures KeepsStake(q, i, aprBps, op) && q.asset == p.asset && q.active == p.active
  {
    CreditKeepsTerms(p, aprBps, times);
  }

  function TimesOf(op: Op, asset: nat): seq<int> {
    if op.DistributeOp? && op.asset == asset then [op.now] else []
  }

  lemma StepKeepsFollowing(p: Position, l: Ledger, op: Op, i: nat, aprBps: int, times: seq<int>)
    requires Inv(l) && i < |l.positions| && p.active && 0 < aprBps <= MAX_APR_BPS
    requires KeepsStake(p, i, aprBps, op) && Follows(p, aprBps, times, l.positions[i])
    ensures i < |Step(l, op).positions|
    ensures Follows(p, aprBps, times + TimesOf(op, p.asset), Step(l, op).positions[i])
  {
    var q := l.positions[i];
    FollowsKeepsStake(p, aprBps, times, q, i, op);
    StepFollowsSchedule(l, op, i, aprBps);
    if op.DistributeOp? && op.asset == p.asset {
      FollowsCredit(p, aprBps, times, q, op.now, Step(l, op).positions[i].claimed);
    } else {
      assert times + TimesOf(op, p.asset) == times;
    }
  }

  lemma {:induction false} RunFollowsSchedule(l: Ledger, ops: seq<Op>, i: nat, aprBps: int)
    requires Inv(l) && i < |l.positions| && l.positions[i].active && 0 < aprBps <= MAX_APR_BPS
    requires forall k :: 0 <= k < |ops| ==> KeepsStake(l.positions[i], i, aprBps, ops[k])
    ensures i < |Run(l, ops).positions|
    ensures Follows(l.positions[i], aprBps, Times(ops, l.positions[i].asset), Run(l, ops).positions[i])
  {
    if ops != [] {
      var p, n := l.positions[i], |ops| - 1;
      var times := Times(ops[..n], p.asset);
      RunFollowsSchedule(l, ops[..n], i, aprBps);
      StepKeepsFollowing(p, Run(l, ops[..n]), ops[n], i, aprBps, times);
    }
  }

  /** The run keeps the stake and the rate, and its last distribution on the asset is at `until`. */
  ghost predicate SteadyRun(p: Position, i: nat, aprBps: int, ops: seq<Op>, until: int) {
    && (forall k :: 0 <= k < |ops| ==> KeepsStake(p, i, aprBps, ops[k]))
    && var times := Times(ops, p.asset);
       Since(p) <= until && until in times && forall k :: 0 <= k < |times| ==> times[k] <= until
  }

  /**
   Over a run that leaves a position's stake alone and distributes on its asset at one rate, the
   position earns what one distribution at the end would have paid, less at most one unit for each
   distribution that credited it. Claims and everybody else's requests make no difference.
   */
  lemma StakersEarnByTheClock(l: Ledger, ops: seq<Op>, i: nat, aprBps: int, until: int)
    requires Inv(l) && i < |l.positions| && l.positions[i].active && 0 < aprBps <= MAX_APR_BPS
    requires SteadyRun(l.positions[i], i, aprBps, ops, until)
    ensures var p := l.positions[i];
            && i < |Run(l, ops).positions|
            && var earned := Run(l, ops).positions[i].accrued - p.accrued;
               earned <= Due(p, aprBps, until) <= earned + Credited(p, aprBps, Times(ops, p.asset))
  {
    assert PositionOk(l.positions[i]);
    RunFollowsSchedule(l, ops, i, aprBps);
    ScheduleMatchesOneDistribution(l.positions[i], aprBps, Times(ops, l.positions[i].asset), until);
  }
}
