/**
 The observable behaviour of the registry, stated through its public reads:
 the lifecycle of an affiliate, the rules binding a user to at most one source
 of attribution, and what `getAffiliateAddress` reports.
 */
module Behaviour {
  import opened Wrappers
  import opened Types
  import opened Referral
  import opened Invariants

  // ---------------------------------------------------------------------------
  // Deployment and application
  // ---------------------------------------------------------------------------

  /** A fresh deployment holds exactly the genesis record, which is disabled, unreferred and has the zero address. */
  lemma GenesisRecord(owner: Address)
    ensures AffiliateAt(Init(owner), 0) == Some(Affiliate("Genesis", "genesis", false, 0, ZeroAddress))
    ensures AffiliateAt(Init(owner), 1) == None
  {
  }

  /** The first application to a fresh deployment gets index 1, and its record starts disabled with no referrals. */
  lemma FirstApplicantGetsIndexOne(owner: Address, caller: Address, name: string, id: string)
    ensures ApplyForAffiliate(Init(owner), caller, name, id).Success?
    ensures var r := ApplyForAffiliate(Init(owner), caller, name, id).value;
      && AffiliateIdToAffiliate(r, id) == 1
      && AffiliateAt(r, 1) == Some(Affiliate(name, id, false, 0, caller))
      && !IsAffiliateEnabled(r, id)
  {
  }

  /**
   After a successful application, the same sender cannot apply again under any
   id, and nobody else can apply under the same id.
   */
  lemma ApplyTwiceRejected(r: Registry, caller: Address, name: string, id: string,
                           name2: string, id2: string, other: Address, name3: string)
    requires WellFormed(r)
    requires ApplyForAffiliate(r, caller, name, id).Success?
    requires other != caller && other !in r.addressToAffiliate
    ensures var r1 := ApplyForAffiliate(r, caller, name, id).value;
      && ApplyForAffiliate(r1, caller, name2, id2) == Failure(AlreadyApplied)
      && ApplyForAffiliate(r1, other, name3, id) == Failure(AffiliateIdExists)
  {
  }

  /** Two different addresses never hold records with the same id. */
  lemma HoldersHoldDistinctIds(r: Registry, a: Address, b: Address)
    requires Invariant(r)
    requires a in r.addressToAffiliate && b in r.addressToAffiliate && a != b
    ensures r.affiliates[r.addressToAffiliate[a]].id != r.affiliates[r.addressToAffiliate[b]].id
  {
  }

  // ---------------------------------------------------------------------------
  // Verification and disabling
  // ---------------------------------------------------------------------------

  /** Only the owner may verify or disable, whatever the id. */
  lemma AdminOnly(r: Registry, caller: Address, id: string)
    requires WellFormed(r)
    requires caller != r.owner
    ensures VerifyAffiliate(r, caller, id) == Failure(NotOwner)
    ensures DisableAffiliate(r, caller, id) == Failure(NotOwner)
  {
  }

  /** The owner verifying an id nobody holds is refused. */
  lemma VerifyUnknownRejected(r: Registry, id: string)
    requires WellFormed(r)
    requires id !in r.affiliateIdToAffiliate
    ensures VerifyAffiliate(r, r.owner, id) == Failure(NotValidAffiliate)
  {
  }

  /** A new affiliate is disabled; verifying enables it and disabling makes it disabled again. */
  lemma VerifyThenDisable(r: Registry, caller: Address, name: string, id: string)
    requires WellFormed(r)
    requires ApplyForAffiliate(r, caller, name, id).Success?
    ensures var r1 := ApplyForAffiliate(r, caller, name, id).value;
      && !IsAffiliateEnabled(r1, id)
      && VerifyAffiliate(r1, r.owner, id).Success?
      && var r2 := VerifyAffiliate(r1, r.owner, id).value;
      && IsAffiliateEnabled(r2, id)
      && DisableAffiliate(r2, r.owner, id).Success?
      && !IsAffiliateEnabled(DisableAffiliate(r2, r.owner, id).value, id)
  {
  }

  /** Verifying twice is not an error: the second verification changes nothing. */
  lemma VerifyIdempotent(r: Registry, id: string)
    requires WellFormed(r)
    requires VerifyAffiliate(r, r.owner, id).Success?
    ensures var r1 := VerifyAffiliate(r, r.owner, id).value;
      VerifyAffiliate(r1, r.owner, id) == Success(r1)
  {
    var r1 := VerifyAffiliate(r, r.owner, id).value;
    var k := r.affiliateIdToAffiliate[id];
    assert r1.affiliates[k := r1.affiliates[k].(enabled := true)] == r1.affiliates;
  }

  /** Disabling twice is not an error either: disabling a disabled affiliate changes nothing. */
  lemma DisableIdempotent(r: Registry, id: string)
    requires WellFormed(r)
    requires DisableAffiliate(r, r.owner, id).Success?
    ensures var r1 := DisableAffiliate(r, r.owner, id).value;
      DisableAffiliate(r1, r.owner, id) == Success(r1)
  {
    var r1 := DisableAffiliate(r, r.owner, id).value;
    var k := r.affiliateIdToAffiliate[id];
    assert r1.affiliates[k := r1.affiliates[k].(enabled := false)] == r1.affiliates;
  }

  // ---------------------------------------------------------------------------
  // Changing the affiliate address
  // ---------------------------------------------------------------------------

  /** A sender that holds no affiliate cannot change an address. */
  lemma ChangeAddressWithoutAffiliate(r: Registry, caller: Address, newAddr: Address)
    requires WellFormed(r)
    requires caller !in r.addressToAffiliate
    ensures ChangeAffiliateAddress(r, caller, newAddr) == Failure(NotValidAffiliate)
  {
  }

  /**
   An applicant's record starts with the applicant's address; changing it to a
   non-zero address rewrites only that field of the same record, and the zero
   address is refused.
   */
  lemma ChangeAddressAfterApply(r: Registry, caller: Address, name: string, id: string, newAddr: Address)
    requires WellFormed(r)
    requires ApplyForAffiliate(r, caller, name, id).Success?
    ensures var r1 := ApplyForAffiliate(r, caller, name, id).value;
      var k := AffiliateIdToAffiliate(r1, id);
      && AffiliateAt(r1, k).value.addr == caller
      && ChangeAffiliateAddress(r1, caller, ZeroAddress) == Failure(AddressIsZero)
      && (newAddr != ZeroAddress ==>
            && ChangeAffiliateAddress(r1, caller, newAddr).Success?
            && var r2 := ChangeAffiliateAddress(r1, caller, newAddr).value;
            && AffiliateIdToAffiliate(r2, id) == k
            && AffiliateAt(r2, k) == Some(Affiliate(name, id, false, 0, newAddr)))
  {
  }

  /**
   Changing the address moves only the `addr` field, not the holder entry: the
   old sender still holds the record and can withdraw it, the new address holds
   nothing and may apply for a record of its own, which then carries the same `addr`.
   */
  lemma ChangeAddressKeepsHolder(r: Registry, caller: Address, newAddr: Address, name: string, id: string)
    requires WellFormed(r)
    requires ChangeAffiliateAddress(r, caller, newAddr).Success?
    requires newAddr != caller && newAddr !in r.addressToAffiliate
    requires id !in r.affiliateIdToAffiliate
    ensures var r1, k := ChangeAffiliateAddress(r, caller, newAddr).value, r.addressToAffiliate[caller];
      && OwnedAffiliate(r1, caller) == k
      && OwnedAffiliate(r1, newAddr) == 0
      && (!r.affiliates[k].enabled ==> WithdrawAffiliate(r1, caller).Success?)
      && ApplyForAffiliate(r1, newAddr, name, id).Success?
      && var r2 := ApplyForAffiliate(r1, newAddr, name, id).value;
      && r2.affiliates[k].addr == newAddr
      && r2.affiliates[|r.affiliates|].addr == newAddr
  {
  }

  // ---------------------------------------------------------------------------
  // Withdrawal
  // ---------------------------------------------------------------------------

  /** Withdrawing a never-verified application makes its id resolve to 0 again. */
  lemma WithdrawUnverified(r: Registry, caller: Address, name: string, id: string)
    requires WellFormed(r)
    requires ApplyForAffiliate(r, caller, name, id).Success?
    ensures var r1 := ApplyForAffiliate(r, caller, name, id).value;
      && AffiliateIdToAffiliate(r1, id) == |r.affiliates|
      && WithdrawAffiliate(r1, caller).Success?
      && AffiliateIdToAffiliate(WithdrawAffiliate(r1, caller).value, id) == 0
  {
  }

  /** A verified affiliate cannot withdraw. */
  lemma WithdrawVerifiedRejected(r: Registry, caller: Address, name: string, id: string)
    requires WellFormed(r)
    requires ApplyForAffiliate(r, caller, name, id).Success?
    ensures var r1 := ApplyForAffiliate(r, caller, name, id).value;
      && VerifyAffiliate(r1, r.owner, id).Success?
      && WithdrawAffiliate(VerifyAffiliate(r1, r.owner, id).value, caller) == Failure(AlreadyEnabled)
  {
  }

  /**
   Applying again under a withdrawn id never brings back the withdrawn record:
   the id resolves to a fresh slot past every existing one.
   */
  lemma WithdrawnRecordNotRevived(r: Registry, caller: Address, id: string, applicant: Address, name: string)
    requires WellFormed(r)
    requires caller in r.addressToAffiliate && r.affiliates[r.addressToAffiliate[caller]].id == id
    requires WithdrawAffiliate(r, caller).Success?
    requires ApplyForAffiliate(WithdrawAffiliate(r, caller).value, applicant, name, id).Success?
    ensures var r2 := ApplyForAffiliate(WithdrawAffiliate(r, caller).value, applicant, name, id).value;
      && AffiliateIdToAffiliate(r2, id) == |r.affiliates|
      && AffiliateIdToAffiliate(r2, id) != r.addressToAffiliate[caller]
      && r2.affiliates[..|r.affiliates|] == r.affiliates
  {
  }

  // ---------------------------------------------------------------------------
  // User attribution
  // ---------------------------------------------------------------------------

  /** An organic user cannot be referred to any affiliate, active or not. */
  lemma OrganicUserNotReferred(r: Registry, user: Address, id: string)
    requires WellFormed(r)
    requires IsUserOrganic(r, user)
    ensures RegisterReferredUser(r, user, id) == Failure(AlreadyOrganic)
  {
  }

  /** A referred user can neither become organic nor be referred again, to the same or another affiliate. */
  lemma ReferredUserFinal(r: Registry, user: Address, id: string, id2: string)
    requires Invariant(r)
    requires UserToAffiliate(r, user) != 0
    ensures RegisterOrganicUser(r, user) == Failure(AlreadyReferred)
    ensures RegisterReferredUser(r, user, id2) == Failure(AlreadyReferred)
  {
  }

  /** Nobody is organic in a fresh deployment; registering a user as organic makes `isUserOrganic` report it. */
  lemma OrganicFlagSetByRegistration(owner: Address, user: Address, other: Address)
    requires other != user
    ensures !IsUserOrganic(Init(owner), user)
    ensures RegisterOrganicUser(Init(owner), user).Success?
    ensures IsUserOrganic(RegisterOrganicUser(Init(owner), user).value, user)
    ensures !IsUserOrganic(RegisterOrganicUser(Init(owner), user).value, other)
  {
  }

  /** A fresh user cannot be referred to an affiliate that has not been verified. */
  lemma UnverifiedAffiliateRefused(r: Registry, user: Address, id: string)
    requires WellFormed(r)
    requires !IsUserOrganic(r, user) && UserToAffiliate(r, user) == 0
    requires id in r.affiliateIdToAffiliate && !IsAffiliateEnabled(r, id)
    ensures RegisterReferredUser(r, user, id) == Failure(AffiliateNotActive)
  {
  }

  /**
   Deploy, apply, verify, refer two users: the affiliate at index 1 counts two
   referrals, both users map to 1, and an uninvolved user maps to 0.
   */
  lemma TwoReferralsScenario(owner: Address, caller: Address, u1: Address, u2: Address, u3: Address)
    requires u1 != u2 && u3 != u1 && u3 != u2
    ensures var r0 := ApplyForAffiliate(Init(owner), caller, "Shadow", "shadow77");
      && r0.Success?
      && var r1 := VerifyAffiliate(r0.value, owner, "shadow77");
      && r1.Success?
      && AffiliateAt(r1.value, 1).value.totalRef == 0
      && var r2 := RegisterReferredUser(r1.value, u1, "shadow77");
      && r2.Success?
      && var r3 := RegisterReferredUser(r2.value, u2, "shadow77");
      && r3.Success?
      && AffiliateAt(r3.value, 1).value.totalRef == 2
      && UserToAffiliate(r3.value, u1) == 1
      && UserToAffiliate(r3.value, u2) == 1
      && UserToAffiliate(r3.value, u3) == 0
  {
  }

  // ---------------------------------------------------------------------------
  // getAffiliateAddress
  // ---------------------------------------------------------------------------

  /** An organic user has no affiliate address. */
  lemma OrganicUserHasNoAffiliateAddress(r: Registry, user: Address)
    requires Invariant(r)
    requires IsUserOrganic(r, user)
    ensures GetAffiliateAddress(r, user) == ZeroAddress
  {
  }

  /** A user just referred to an active affiliate reads that affiliate's current address. */
  lemma ReferredUserReadsAffiliateAddress(r: Registry, user: Address, id: string)
    requires WellFormed(r)
    requires RegisterReferredUser(r, user, id).Success?
    ensures GetAffiliateAddress(RegisterReferredUser(r, user, id).value, user)
      == r.affiliates[r.affiliateIdToAffiliate[id]].addr
  {
  }

  /**
   Disabling an affiliate hides its address from its referred users without
   touching their attribution or the referral count; verifying it again brings
   the address back.
   */
  lemma DisableHidesAddress(r: Registry, user: Address, id: string)
    requires WellFormed(r)
    requires UserToAffiliate(r, user) != 0 && id in r.affiliateIdToAffiliate
    requires UserToAffiliate(r, user) == r.affiliateIdToAffiliate[id]
    ensures var r1 := DisableAffiliate(r, r.owner, id).value;
      var k := r.affiliateIdToAffiliate[id];
      && GetAffiliateAddress(r1, user) == ZeroAddress
      && UserToAffiliate(r1, user) == k
      && r1.affiliates[k].totalRef == r.affiliates[k].totalRef
      && GetAffiliateAddress(VerifyAffiliate(r1, r.owner, id).value, user) == r.affiliates[k].addr
  {
  }

  /**
   Withdrawal is gated only on the current `enabled` flag: an affiliate that was
   verified, gained referrals and was then disabled can still withdraw. Its users
   stay attributed to the retired index, its count is kept, no id reaches it any
   more, and `getAffiliateAddress` reports the zero address for them.
   */
  lemma WithdrawAfterDisableStrandsUsers(r: Registry, caller: Address, user: Address)
    requires Invariant(r)
    requires caller in r.addressToAffiliate
    requires UserToAffiliate(r, user) == r.addressToAffiliate[caller]
    ensures var k, id := r.addressToAffiliate[caller], r.affiliates[r.addressToAffiliate[caller]].id;
      && DisableAffiliate(r, r.owner, id).Success?
      && var r1 := DisableAffiliate(r, r.owner, id).value;
      && WithdrawAffiliate(r1, caller).Success?
      && var r2 := WithdrawAffiliate(r1, caller).value;
      && UserToAffiliate(r2, user) == k
      && r2.affiliates[k].totalRef == r.affiliates[k].totalRef
      && AffiliateIdToAffiliate(r2, id) == 0
      && GetAffiliateAddress(r2, user) == ZeroAddress
  {
  }
}
