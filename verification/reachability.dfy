/**
 Sequences of transactions against one deployment. A reverted transaction
 leaves the state as it was, so a run is the fold of the successful ones.
 */
module Reachability {
  import opened Wrappers
  import opened Types
  import opened Referral
  import opened Invariants

  /** One state-changing transaction, with its sender where the contract reads one. */
  datatype Call =
    | Apply(caller: Address, name: string, id: string)
    | Verify(caller: Address, id: string)
    | Disable(caller: Address, id: string)
    | ChangeAddress(caller: Address, newAddr: Address)
    | Withdraw(caller: Address)
    | ReferUser(user: Address, id: string)
    | OrganicUser(user: Address)

  /** Dispatches one transaction to the operation it names. */
  function Step(r: Registry, c: Call): (res: Result<Registry, Error>)
    requires WellFormed(r)
    ensures res.Success? ==> WellFormed(res.value) && res.value.owner == r.owner
  {
    match c
    case Apply(caller, name, id) => ApplyForAffiliate(r, caller, name, id)
    case Verify(caller, id) => VerifyAffiliate(r, caller, id)
    case Disable(caller, id) => DisableAffiliate(r, caller, id)
    case ChangeAddress(caller, newAddr) => ChangeAffiliateAddress(r, caller, newAddr)
    case Withdraw(caller) => WithdrawAffiliate(r, caller)
    case ReferUser(user, id) => RegisterReferredUser(r, user, id)
    case OrganicUser(user) => RegisterOrganicUser(r, user)
  }

  /** The state after one transaction: the new state, or the old one if it reverted. */
  function After(r: Registry, c: Call): Registry
    requires WellFormed(r)
  {
    match Step(r, c)
    case Success(r') => r'
    case Failure(_) => r
  }

  /** The state after a sequence of transactions; the owner never changes. */
  function Run(r: Registry, calls: seq<Call>): (r': Registry)
    requires WellFormed(r)
    ensures WellFormed(r')
    ensures r'.owner == r.owner
    decreases |calls|
  {
    if calls == [] then r else Run(After(r, calls[0]), calls[1..])
  }

  /** Every successful transaction keeps every invariant. */
  lemma StepPreservesInvariant(r: Registry, c: Call)
    requires Invariant(r)
    ensures Invariant(After(r, c))
  {
    match c
    case Apply(caller, name, id) => ApplyPreserves(r, caller, name, id);
    case Verify(caller, id) => VerifyPreserves(r, caller, id);
    case Disable(caller, id) => DisablePreserves(r, caller, id);
    case ChangeAddress(caller, newAddr) => ChangeAddressPreserves(r, caller, newAddr);
    case Withdraw(caller) => WithdrawPreserves(r, caller);
    case ReferUser(user, id) => RegisterReferredPreserves(r, user, id);
    case OrganicUser(user) => RegisterOrganicPreserves(r, user);
  }

  /** A run of any length from an invariant state ends in an invariant state. */
  lemma {:induction false} RunPreservesInvariant(r: Registry, calls: seq<Call>)
    requires Invariant(r)
    ensures Invariant(Run(r, calls))
    decreases |calls|
  {
    if calls != [] {
      StepPreservesInvariant(r, calls[0]);
      RunPreservesInvariant(After(r, calls[0]), calls[1..]);
    }
  }

  /** Every state reachable from deployment satisfies every invariant. */
  lemma ReachableInvariant(owner: Address, calls: seq<Call>)
    ensures Invariant(Run(Init(owner), calls))
  {
    InitInvariant(owner);
    RunPreservesInvariant(Init(owner), calls);
  }

  /** A user who is organic stays organic, and a referred user stays referred to the same affiliate. */
  lemma StepKeepsAttribution(r: Registry, c: Call, u: Address)
    requires WellFormed(r)
    ensures IsUserOrganic(r, u) ==> IsUserOrganic(After(r, c), u)
    ensures UserToAffiliate(r, u) != 0 ==> UserToAffiliate(After(r, c), u) == UserToAffiliate(r, u)
  {
  }

  /** Attribution is terminal across any run of transactions. */
  lemma {:induction false} RunKeepsAttribution(r: Registry, calls: seq<Call>, u: Address)
    requires WellFormed(r)
    ensures IsUserOrganic(r, u) ==> IsUserOrganic(Run(r, calls), u)
    ensures UserToAffiliate(r, u) != 0 ==> UserToAffiliate(Run(r, calls), u) == UserToAffiliate(r, u)
    decreases |calls|
  {
    if calls != [] {
      StepKeepsAttribution(r, calls[0], u);
      RunKeepsAttribution(After(r, calls[0]), calls[1..], u);
    }
  }

  /** In every reachable state no user is both organic and referred. */
  lemma ReachableExclusive(owner: Address, calls: seq<Call>, u: Address)
    ensures var r := Run(Init(owner), calls);
      !(IsUserOrganic(r, u) && UserToAffiliate(r, u) != 0)
  {
    ReachableInvariant(owner, calls);
  }

  /** In every reachable state each affiliate's `totalRef` is the number of users referred to it. */
  lemma ReachableRefCounts(owner: Address, calls: seq<Call>, k: nat)
    ensures var r := Run(Init(owner), calls);
      k < |r.affiliates| ==> r.affiliates[k].totalRef == |ReferredTo(r.userToAffiliate, k)|
  {
    ReachableInvariant(owner, calls);
  }
}
