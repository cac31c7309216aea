/** The multi-signature handler: a wallet row and its proposals. */
module MultiSigHandler {
  import opened Common
  import opened MultiSigSpec

  /** Whether the id is in the owner list. */
  method IsOwnerOf(owners: seq<nat>, user: nat) returns (found: bool)
    ensures found <==> user in owners
  {
    found := false;
    for i := 0 to |owners|
      invariant !found && user !in owners[..i]
    {
      if owners[i] == user {
        return true;
      }
    }
  }

  class MultiSigWallet {
    const wallet: Wallet
    var proposals: seq<Proposal>

    constructor (wallet: Wallet)
      ensures this.wallet == wallet && proposals == []
    {
      this.wallet, proposals := wallet, [];
    }

    method CreateProposal(caller: nat) returns (r: Result<nat, Error>)
      modifies this`proposals
      ensures if caller != 0 && caller in wallet.owners
              then r == Ok(|old(proposals)|) && proposals == old(proposals) + [Proposal(Pending, 0, [], 0)]
              else r == Err(ActError(caller)) && proposals == old(proposals)
    {
      if caller == 0 {
        return Err(Unauthorized);
      }
      var owner := IsOwnerOf(wallet.owners, caller);
      if !owner {
        return Err(CallerNotOwner);
      }
      proposals := proposals + [FRESH];
      return Ok(|proposals| - 1);
    }

    method SignProposal(id: nat, caller: nat) returns (r: Result<(), Error>)
      modifies this`proposals
      ensures if id >= |old(proposals)|
              then r == Err(if caller == 0 then Unauthorized else ProposalNotFound) && proposals == old(proposals)
              else
                && proposals == old(proposals)[id := Step(wallet, old(proposals)[id], Sign(caller))]
                && match SignBy(wallet, old(proposals)[id], caller)
                   case Ok(_) => r == Ok(())
                   case Err(e) => r == Err(e)
    {
      if caller == 0 {
        return Err(Unauthorized);
      }
      if id >= |proposals| {
        return Err(ProposalNotFound);
      }
      var owner := IsOwnerOf(wallet.owners, caller);
      if !owner {
        return Err(CallerNotOwner);
      }
      var p := proposals[id];
      if caller in p.signers {
        return Err(AlreadySigned);
      }
      p := p.(signers := p.signers + [caller]);
      p := p.(signCount := p.signCount + 1);
      if p.signCount >= wallet.threshold {
        p := p.(status := Approved);
      }
      proposals := proposals[id := p];
      return Ok(());
    }

    method ExecuteProposal(id: nat, caller: nat) returns (r: Result<(), Error>)
      modifies this`proposals
      ensures if id >= |old(proposals)|
              then r == Err(if caller == 0 then Unauthorized else ProposalNotFound) && proposals == old(proposals)
              else
                && proposals == old(proposals)[id := Step(wallet, old(proposals)[id], Execute(caller))]
                && match ExecuteBy(wallet, old(proposals)[id], caller)
                   case Ok(_) => r == Ok(())
                   case Err(e) => r == Err(e)
    {
      if caller == 0 {
        return Err(Unauthorized);
      }
      if id >= |proposals| {
        return Err(ProposalNotFound);
      }
      var owner := IsOwnerOf(wallet.owners, caller);
      if !owner {
        return Err(CallerNotOwner);
      }
      var p := proposals[id];
      if p.status != Approved {
        return Err(NotApproved);
      }
      proposals := proposals[id := p.(status := Executed, executions := p.executions + 1)];
      return Ok(());
    }
  }

  /** Checks before a wallet is stored; repeated owner ids pass them. */
  method CreateWallet(users: set<nat>, caller: nat, owners: seq<nat>, threshold: int)
    returns (r: Result<Wallet, Error>)
    ensures r.Ok? <==> 0 < threshold <= |owners| && caller != 0 && caller in owners
                       && forall i :: 0 <= i < |owners| ==> owners[i] in users
    ensures r.Ok? ==> r.value == Wallet(owners, threshold)
    ensures r.Err? && 0 < threshold <= |owners| && caller != 0 && caller in owners
            ==> r == Err(UnknownUser)
  {
    if threshold <= 0 || threshold > |owners| {
      return Err(InvalidThreshold);
    }
    if caller == 0 {
      return Err(Unauthorized);
    }
    var owner := IsOwnerOf(owners, caller);
    if !owner {
      return Err(CallerNotOwner);
    }
    for i := 0 to |owners|
      invariant forall j :: 0 <= j < i ==> owners[j] in users
    {
      if owners[i] !in users {
        return Err(UnknownUser);
      }
    }
    return Ok(Wallet(owners, threshold));
  }
}
