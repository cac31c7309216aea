/** Multi-signature proposals as a state machine over signing and execution requests. */
module MultiSigSpec {
  import opened Common

  datatype Wallet = Wallet(owners: seq<nat>, threshold: int)

  datatype Status = Pending | Approved | Executed

  /** `executions` counts how often the proposal was executed; the source keeps no such column. */
  datatype Proposal = Proposal(status: Status, signCount: nat, signers: seq<nat>, executions: nat)

  const FRESH := Proposal(Pending, 0, [], 0)

  datatype Error =
    | InvalidThreshold | CallerNotOwner | UnknownUser
    | Unauthorized | ProposalNotFound | AlreadySigned | NotApproved

  datatype Event = Sign(caller: nat) | Execute(caller: nat)

  predicate MayAct(w: Wallet, caller: nat) {
    caller != 0 && caller in w.owners
  }

  function ActError(caller: nat): Error {
    if caller == 0 then Unauthorized else CallerNotOwner
  }

  /** Signing does not look at the status, so a signature re-approves an executed proposal. */
  function SignBy(w: Wallet, p: Proposal, caller: nat): Result<Proposal, Error> {
    if !MayAct(w, caller) then Err(ActError(caller))
    else if caller in p.signers then Err(AlreadySigned)
    else Ok(p.(signers := p.signers + [caller], signCount := p.signCount + 1,
               status := if p.signCount + 1 >= w.threshold then Approved else p.status))
  }

  function ExecuteBy(w: Wallet, p: Proposal, caller: nat): Result<Proposal, Error> {
    if !MayAct(w, caller) then Err(ActError(caller))
    else if p.status != Approved then Err(NotApproved)
    else Ok(p.(status := Executed, executions := p.executions + 1))
  }

  function Step(w: Wallet, p: Proposal, e: Event): Proposal {
    var r := if e.Sign? then SignBy(w, p, e.caller) else ExecuteBy(w, p, e.caller);
    if r.Ok? then r.value else p
  }

  function Run(w: Wallet, es: seq<Event>): Proposal {
    if es == [] then FRESH else Step(w, Run(w, es[..|es| - 1]), es[|es| - 1])
  }

  // ----- who can sign -----

  /** The distinct owners able to authenticate; repeating an id in the list adds nobody. */
  function Voters(w: Wallet): set<nat> {
    set o | o in w.owners && o != 0
  }

  /** Owners who asked to sign at least once. */
  function Signers(w: Wallet, es: seq<Event>): set<nat> {
    if es == [] then {}
    else
      var e := es[|es| - 1];
      Signers(w, es[..|es| - 1]) + if e.Sign? && MayAct(w, e.caller) then {e.caller} else {}
  }

  lemma SubsetSize<T>(a: set<T>, b: set<T>)
    requires a <= b
    ensures |a| <= |b|
  {
    assert b == a + (b - a);
  }

  lemma {:induction false} SignersAreVoters(w: Wallet, es: seq<Event>)
    ensures Signers(w, es) <= Voters(w)
  {
    if es != [] {
      SignersAreVoters(w, es[..|es| - 1]);
    }
  }

  // ----- invariant -----

  ghost predicate Inv(w: Wallet, p: Proposal, signers: set<nat>) {
    && (forall c :: c in p.signers <==> c in signers)
    && p.signCount == |signers|
    && (p.status == Pending <==> p.signCount < w.threshold)
    && p.executions + (if p.status == Approved then 1 else 0)
         <= (if p.signCount < w.threshold then 0 else p.signCount - w.threshold + 1)
    && (p.status == Executed ==> 0 < p.executions)
  }

  lemma StepKeepsInv(w: Wallet, p: Proposal, e: Event, signers: set<nat>)
    requires 0 < w.threshold && Inv(w, p, signers)
    ensures var more := if e.Sign? && MayAct(w, e.caller) then {e.caller} else {};
            Inv(w, Step(w, p, e), signers + more)
  {
    if e.Sign? && MayAct(w, e.caller) {
      if e.caller in p.signers {
        assert signers + {e.caller} == signers;
      }
    } else {
      assert signers + {} == signers;
    }
  }

  lemma {:induction false} RunKeepsInv(w: Wallet, es: seq<Event>)
    requires 0 < w.threshold
    ensures Inv(w, Run(w, es), Signers(w, es))
  {
    if es != [] {
      var n := |es| - 1;
      RunKeepsInv(w, es[..n]);
      StepKeepsInv(w, Run(w, es[..n]), es[n], Signers(w, es[..n]));
    }
  }

  /**
   After every history the stored count is the number of distinct owners who signed, and the
   proposal is pending exactly while they are fewer than the threshold.
   */
  lemma CountIsDistinctSigners(w: Wallet, es: seq<Event>)
    requires 0 < w.threshold
    ensures Run(w, es).signCount == |Signers(w, es)| <= |Voters(w)|
    ensures Run(w, es).status == Pending <==> |Signers(w, es)| < w.threshold
  {
    RunKeepsInv(w, es);
    SignersAreVoters(w, es);
    SubsetSize(Signers(w, es), Voters(w));
  }

  function MaxExecutions(w: Wallet): nat {
    var d := |Voters(w)|;
    if d < w.threshold then 0 else d - w.threshold + 1
  }

  /** A proposal is executed at most once for each signature from the threshold on. */
  lemma ExecutionsBounded(w: Wallet, es: seq<Event>)
    requires 0 < w.threshold
    ensures Run(w, es).executions <= MaxExecutions(w)
  {
    RunKeepsInv(w, es);
    CountIsDistinctSigners(w, es);
  }

  // ----- the bound is reached -----

  /** The distinct non-zero ids of a list. */
  function Distinct(s: seq<nat>): (r: seq<nat>)
    ensures forall x :: x in r <==> x in s && x != 0
    ensures forall i, j :: 0 <= i < j < |r| ==> r[i] != r[j]
  {
    if s == [] then []
    else
      var n := |s| - 1;
      var r := Distinct(s[..n]);
      assert forall x :: x in s <==> x in s[..n] || x == s[n];
      if s[n] == 0 || s[n] in r then r else r + [s[n]]
  }

  function Elements(s: seq<nat>): set<nat> {
    set x | x in s
  }

  lemma {:induction false} DistinctSize(s: seq<nat>)
    requires forall i, j :: 0 <= i < j < |s| ==> s[i] != s[j]
    ensures |Elements(s)| == |s|
  {
    if s != [] {
      var n := |s| - 1;
      DistinctSize(s[..n]);
      assert Elements(s) == Elements(s[..n]) + {s[n]};
      assert s[n] !in Elements(s[..n]);
    }
  }

  lemma VotersListed(w: Wallet)
    ensures var voters := Distinct(w.owners);
            |voters| == |Voters(w)| && forall i :: 0 <= i < |voters| ==> MayAct(w, voters[i])
  {
    var voters := Distinct(w.owners);
    DistinctSize(voters);
    assert Elements(voters) == Voters(w);
    assert forall i :: 0 <= i < |voters| ==> voters[i] in voters;
  }

  /** Every voter in turn signs and immediately tries to execute. */
  function SignAndExecute(voters: seq<nat>): seq<Event> {
    if voters == [] then []
    else
      var n := |voters| - 1;
      SignAndExecute(voters[..n]) + [Sign(voters[n])] + [Execute(voters[n])]
  }

  lemma RunSnoc(w: Wallet, es: seq<Event>, e: Event)
    ensures Run(w, es + [e]) == Step(w, Run(w, es), e)
  {
    assert (es + [e])[..|es|] == es;
  }

  lemma {:induction false} SignAndExecuteRun(w: Wallet, voters: seq<nat>)
    requires 0 < w.threshold
    requires forall i :: 0 <= i < |voters| ==> MayAct(w, voters[i])
    requires forall i, j :: 0 <= i < j < |voters| ==> voters[i] != voters[j]
    ensures var n := |voters|;
            Run(w, SignAndExecute(voters))
              == Proposal(if n < w.threshold then Pending else Executed, n, voters,
                          if n < w.threshold then 0 else n - w.threshold + 1)
  {
    if voters != [] {
      var n := |voters| - 1;
      var v := voters[n];
      SignAndExecuteRun(w, voters[..n]);
      assert v !in voters[..n] && voters[..n] + [v] == voters;
      RunSnoc(w, SignAndExecute(voters[..n]), Sign(v));
      RunSnoc(w, SignAndExecute(voters[..n]) + [Sign(v)], Execute(v));
    }
  }

  /** The bound on executions is attained by some history of every wallet. */
  lemma ExecutionsBoundReached(w: Wallet)
    requires 0 < w.threshold
    ensures exists es :: Run(w, es).executions == MaxExecutions(w)
  {
    var voters := Distinct(w.owners);
    VotersListed(w);
    SignAndExecuteRun(w, voters);
    assert Run(w, SignAndExecute(voters)).executions == MaxExecutions(w);
  }

  /** Execution is one-shot for exactly those wallets whose threshold needs every distinct owner. */
  lemma OneShotExactly(w: Wallet)
    requires 0 < w.threshold
    ensures (forall es :: Run(w, es).executions <= 1) <==> |Voters(w)| <= w.threshold
  {
    if |Voters(w)| <= w.threshold {
      forall es ensures Run(w, es).executions <= 1 {
        ExecutionsBounded(w, es);
      }
    } else {
      ExecutionsBoundReached(w);
    }
  }

  /** A proposal can be approved in some history exactly when enough distinct owners exist. */
  lemma ApprovableExactly(w: Wallet)
    requires 0 < w.threshold
    ensures (exists es :: Run(w, es).status != Pending) <==> w.threshold <= |Voters(w)|
  {
    if w.threshold <= |Voters(w)| {
      var voters := Distinct(w.owners);
      VotersListed(w);
      SignAndExecuteRun(w, voters);
      assert Run(w, SignAndExecute(voters)).status != Pending;
    } else {
      forall es ensures Run(w, es).status == Pending {
        CountIsDistinctSigners(w, es);
      }
    }
  }

  // ----- who may do what, and when -----

  /** A signature counts if and only if an owner gives it who has not signed before. */
  lemma SignedExactly(w: Wallet, p: Proposal, caller: nat)
    ensures var r := SignBy(w, p, caller);
            && (r.Ok? <==> caller != 0 && caller in w.owners && caller !in p.signers)
            && (r == Err(Unauthorized) <==> caller == 0)
            && (r == Err(CallerNotOwner) <==> caller != 0 && caller !in w.owners)
            && (r.Ok? ==>
                  && r.value.signers == p.signers + [caller] && r.value.signCount == p.signCount + 1
                  && r.value.executions == p.executions
                  && (r.value.status == Approved <==> w.threshold <= p.signCount + 1 || p.status == Approved)
                  && (p.signCount + 1 < w.threshold ==> r.value.status == p.status))
  {
  }

  /** A proposal is executed if and only if an owner asks for it while it is approved. */
  lemma ExecutedExactly(w: Wallet, p: Proposal, caller: nat)
    ensures var r := ExecuteBy(w, p, caller);
            && (r.Ok? <==> caller != 0 && caller in w.owners && p.status == Approved)
            && (r == Err(Unauthorized) <==> caller == 0)
            && (r == Err(CallerNotOwner) <==> caller != 0 && caller !in w.owners)
            && (r.Ok? ==> r.value == p.(status := Executed, executions := p.executions + 1))
  {
  }

  /** Owners who have asked to sign, read off the history. */
  function Signed(w: Wallet, es: seq<Event>): set<nat> {
    set c | c in w.owners && c != 0 && Sign(c) in es
  }

  lemma {:induction false} SignersSigned(w: Wallet, es: seq<Event>)
    ensures Signers(w, es) == Signed(w, es)
  {
    if es == [] {
      assert Signed(w, es) == {};
    } else {
      var n := |es| - 1;
      SignersSigned(w, es[..n]);
      assert forall c: nat :: Sign(c) in es <==> Sign(c) in es[..n] || es[n] == Sign(c);
    }
  }

  /**
   In every history, a request executes a proposal only if it is an owner's request to execute and at
   least as many distinct owners as the threshold asks for signed before it.
   */
  lemma {:induction false} ExecutionNeedsQuorum(w: Wallet, es: seq<Event>, e: Event)
    requires 0 < w.threshold
    ensures var (before, after) := (Run(w, es), Run(w, es + [e]));
            before.executions < after.executions ==>
              && e.Execute? && e.caller != 0 && e.caller in w.owners
              && w.threshold <= |Signed(w, es)|
              && after.executions == before.executions + 1 && after.status == Executed
  {
    RunSnoc(w, es, e);
    CountIsDistinctSigners(w, es);
    SignersSigned(w, es);
  }

  /** In every history, requests by anyone who is not an owner change nothing. */
  lemma {:induction false} StrangersChangeNothing(w: Wallet, es: seq<Event>, e: Event)
    requires e.caller == 0 || e.caller !in w.owners
    ensures Run(w, es + [e]) == Run(w, es)
  {
    RunSnoc(w, es, e);
  }
}
