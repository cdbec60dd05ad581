/**
 Global invariants of the registry, and proofs that the deployed contract
 satisfies them and that every successful transaction keeps them.
 */
module Invariants {
  import opened Wrappers
  import opened Types
  import opened Referral

  /** Every live id points at a record that carries that id. */
  ghost predicate IdsResolve(r: Registry)
    requires WellFormed(r)
  {
    forall id | id in r.affiliateIdToAffiliate :: r.affiliates[r.affiliateIdToAffiliate[id]].id == id
  }

  /** The record an address holds is still reachable through its own id. */
  ghost predicate HeldRecordsLive(r: Registry)
    requires WellFormed(r)
  {
    forall a | a in r.addressToAffiliate ::
      && r.affiliates[r.addressToAffiliate[a]].id in r.affiliateIdToAffiliate
      && r.affiliateIdToAffiliate[r.affiliates[r.addressToAffiliate[a]].id] == r.addressToAffiliate[a]
  }

  /** No two addresses hold the same record. */
  ghost predicate HoldersDistinct(r: Registry)
  {
    forall a, b | a in r.addressToAffiliate && b in r.addressToAffiliate && a != b ::
      r.addressToAffiliate[a] != r.addressToAffiliate[b]
  }

  /** No user is both referred and organic. */
  ghost predicate AttributionExclusive(r: Registry)
  {
    forall u | u in r.organicUsers :: u !in r.userToAffiliate
  }

  /** Each record's `totalRef` is exactly the number of users mapped to its index. */
  ghost predicate RefCountsExact(r: Registry)
    requires WellFormed(r)
  {
    forall k | 0 <= k < |r.affiliates| :: r.affiliates[k].totalRef == |ReferredTo(r.userToAffiliate, k)|
  }

  /** Everything that holds of every reachable registry. */
  ghost predicate Invariant(r: Registry)
  {
    && WellFormed(r)
    && IdsResolve(r)
    && HeldRecordsLive(r)
    && HoldersDistinct(r)
    && AttributionExclusive(r)
    && RefCountsExact(r)
  }

  // ---------------------------------------------------------------------------
  // Counting referrals
  // ---------------------------------------------------------------------------

  /** Attributing a fresh user to `k` adds exactly that user to `k`'s referrals and changes no other index's. */
  lemma ReferredToAfterAdd(users: map<Address, nat>, user: Address, k: nat, j: nat)
    requires user !in users
    ensures j == k ==> ReferredTo(users[user := k], j) == ReferredTo(users, j) + {user}
    ensures j != k ==> ReferredTo(users[user := k], j) == ReferredTo(users, j)
    ensures j == k ==> |ReferredTo(users[user := k], j)| == |ReferredTo(users, j)| + 1
  {
  }

  // ---------------------------------------------------------------------------
  // Preservation, one operation at a time
  // ---------------------------------------------------------------------------

  /** The deployed contract satisfies every invariant. */
  lemma InitInvariant(owner: Address)
    ensures Invariant(Init(owner))
  {
  }

  /** A successful application keeps every invariant. */
  lemma ApplyPreserves(r: Registry, caller: Address, name: string, id: string)
    requires Invariant(r)
    ensures ApplyForAffiliate(r, caller, name, id).Success? ==> Invariant(ApplyForAffiliate(r, caller, name, id).value)
  {
  }

  /** A successful verification keeps every invariant. */
  lemma VerifyPreserves(r: Registry, caller: Address, id: string)
    requires Invariant(r)
    ensures VerifyAffiliate(r, caller, id).Success? ==> Invariant(VerifyAffiliate(r, caller, id).value)
  {
  }

  /** A successful disabling keeps every invariant. */
  lemma DisablePreserves(r: Registry, caller: Address, id: string)
    requires Invariant(r)
    ensures DisableAffiliate(r, caller, id).Success? ==> Invariant(DisableAffiliate(r, caller, id).value)
  {
  }

  /** A successful address change keeps every invariant. */
  lemma ChangeAddressPreserves(r: Registry, caller: Address, newAddr: Address)
    requires Invariant(r)
    ensures ChangeAffiliateAddress(r, caller, newAddr).Success? ==>
      Invariant(ChangeAffiliateAddress(r, caller, newAddr).value)
  {
  }

  /** A successful withdrawal keeps every invariant. */
  lemma WithdrawPreserves(r: Registry, caller: Address)
    requires Invariant(r)
    ensures WithdrawAffiliate(r, caller).Success? ==> Invariant(WithdrawAffiliate(r, caller).value)
  {
  }

  /** A successful referral keeps every invariant; the referral counts need the counting lemma. */
  lemma RegisterReferredPreserves(r: Registry, user: Address, id: string)
    requires Invariant(r)
    ensures RegisterReferredUser(r, user, id).Success? ==> Invariant(RegisterReferredUser(r, user, id).value)
  {
    var res := RegisterReferredUser(r, user, id);
    if res.Success? {
      var r', k := res.value, r.affiliateIdToAffiliate[id];
      assert r'.userToAffiliate == r.userToAffiliate[user := k];
      assert forall j | 0 <= j < |r.affiliates| :: r'.affiliates[j].id == r.affiliates[j].id;
      forall j | 0 <= j < |r'.affiliates|
        ensures r'.affiliates[j].totalRef == |ReferredTo(r'.userToAffiliate, j)|
      {
        ReferredToAfterAdd(r.userToAffiliate, user, k, j);
      }
    }
  }

  /** A successful organic registration keeps every invariant. */
  lemma RegisterOrganicPreserves(r: Registry, user: Address)
    requires Invariant(r)
    ensures RegisterOrganicUser(r, user).Success? ==> Invariant(RegisterOrganicUser(r, user).value)
  {
  }
}
