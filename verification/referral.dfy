/**
 The REXReferral registry: affiliates apply, the owner verifies or disables
 them, and users are attributed either to one verified affiliate or to none
 (organic). Every state-changing operation is a pure function from the current
 state to either the next state or the reason the transaction reverts; a revert
 leaves the state as it was.
 */
module Referral {
  import opened Wrappers
  import opened Types

  /** The contract's storage. Absent keys read as index 0, as Solidity mappings do. */
  datatype Registry = Registry(
    owner: Address,
    affiliates: seq<Affiliate>,
    affiliateIdToAffiliate: map<string, nat>,
    addressToAffiliate: map<Address, nat>,
    userToAffiliate: map<Address, nat>,
    organicUsers: set<Address>)

  /** A mapping read with the Solidity default: a missing key yields 0. */
  function Lookup<K>(m: map<K, nat>, k: K): nat
  {
    if k in m then m[k] else 0
  }

  /** Every stored index names a real, non-genesis slot of the array. */
  predicate IndexesIn<K>(m: map<K, nat>, n: nat)
  {
    forall k | k in m :: 1 <= m[k] < n
  }

  /** The structural facts every reachable registry satisfies and every read relies on. */
  predicate WellFormed(r: Registry)
  {
    && |r.affiliates| >= 1
    && r.affiliates[0] == Genesis
    && IndexesIn(r.affiliateIdToAffiliate, |r.affiliates|)
    && IndexesIn(r.addressToAffiliate, |r.affiliates|)
    && IndexesIn(r.userToAffiliate, |r.affiliates|)
  }

  /** The users a `userToAffiliate` table attributes to the affiliate at index `k`. */
  function ReferredTo(users: map<Address, nat>, k: nat): set<Address>
  {
    set u | u in users && users[u] == k
  }

  /** Users and organic flags are the same in both states. */
  predicate SameAttribution(r: Registry, r': Registry)
  {
    r'.userToAffiliate == r.userToAffiliate && r'.organicUsers == r.organicUsers
  }

  /** Only the record at index `k` may differ; the owner and the lookup tables are the same. */
  predicate OnlyRecordEdited(r: Registry, r': Registry, k: nat)
  {
    && r'.owner == r.owner
    && |r'.affiliates| == |r.affiliates|
    && (forall j | 0 <= j < |r.affiliates| && j != k :: r'.affiliates[j] == r.affiliates[j])
    && r'.affiliateIdToAffiliate == r.affiliateIdToAffiliate
    && r'.addressToAffiliate == r.addressToAffiliate
  }

  // ---------------------------------------------------------------------------
  // Construction and reads
  // ---------------------------------------------------------------------------

  /** The freshly deployed contract: `owner` is the deployer, and only the genesis record exists. */
  function Init(owner: Address): (r: Registry)
    ensures WellFormed(r)
    ensures r.owner == owner
    ensures |r.affiliates| == 1
    ensures r.userToAffiliate == map[] && r.organicUsers == {}
    ensures r.affiliateIdToAffiliate == map[] && r.addressToAffiliate == map[]
  {
    Registry(owner, [Genesis], map[], map[], map[], {})
  }

  /** The public getter `affiliates(i)`: reverts (None) past the end of the array. */
  function AffiliateAt(r: Registry, i: nat): (a: Option<Affiliate>)
    ensures a.Some? <==> i < |r.affiliates|
    ensures a.Some? ==> a.value == r.affiliates[i]
  {
    if i < |r.affiliates| then Some(r.affiliates[i]) else None
  }

  /** The public getter `affiliateIdToAffiliate(id)`: the live index of `id`, or 0. */
  function AffiliateIdToAffiliate(r: Registry, id: string): (k: nat)
    requires WellFormed(r)
    ensures k < |r.affiliates|
    ensures k == 0 <==> id !in r.affiliateIdToAffiliate
  {
    Lookup(r.affiliateIdToAffiliate, id)
  }

  /** The index of the affiliate the address `a` applied for and still holds, or 0. */
  function OwnedAffiliate(r: Registry, a: Address): (k: nat)
    requires WellFormed(r)
    ensures k < |r.affiliates|
    ensures k == 0 <==> a !in r.addressToAffiliate
  {
    Lookup(r.addressToAffiliate, a)
  }

  /** The public getter `userToAffiliate(u)`: the index `u` is referred to, or 0. */
  function UserToAffiliate(r: Registry, u: Address): (k: nat)
    requires WellFormed(r)
    ensures k < |r.affiliates|
    ensures k == 0 <==> u !in r.userToAffiliate
    ensures k != 0 ==> u in ReferredTo(r.userToAffiliate, k)
  {
    Lookup(r.userToAffiliate, u)
  }

  /** The public read `isUserOrganic(u)`: whether `u` was registered as organic. */
  function IsUserOrganic(r: Registry, u: Address): (b: bool)
    ensures b <==> u in r.organicUsers
  {
    u in r.organicUsers
  }

  /** `isAffiliateEnabled(id)`: an unknown id reads the disabled genesis record, so it reports false. */
  function IsAffiliateEnabled(r: Registry, id: string): (b: bool)
    requires WellFormed(r)
    ensures b ==> id in r.affiliateIdToAffiliate
    ensures id in r.affiliateIdToAffiliate ==> (b <==> r.affiliates[r.affiliateIdToAffiliate[id]].enabled)
  {
    r.affiliates[AffiliateIdToAffiliate(r, id)].enabled
  }

  /**
   `getAffiliateAddress(u)`: the current address of the affiliate `u` is referred
   to, or the zero address when there is none or it is disabled. An unattributed
   user reads the disabled genesis record.
   */
  function GetAffiliateAddress(r: Registry, u: Address): (a: Address)
    requires WellFormed(r)
    ensures u !in r.userToAffiliate ==> a == ZeroAddress
    ensures a != ZeroAddress ==>
      u in r.userToAffiliate && r.affiliates[r.userToAffiliate[u]].enabled
      && a == r.affiliates[r.userToAffiliate[u]].addr
    ensures u in r.userToAffiliate && r.affiliates[r.userToAffiliate[u]].enabled ==>
      a == r.affiliates[r.userToAffiliate[u]].addr
  {
    var affiliate := r.affiliates[UserToAffiliate(r, u)];
    if affiliate.enabled then affiliate.addr else ZeroAddress
  }

  // ---------------------------------------------------------------------------
  // Affiliate lifecycle
  // ---------------------------------------------------------------------------

  /**
   `applyForAffiliate(name, id)` sent by `caller`: appends a disabled record
   owned by `caller`. One application per address, one live record per id.
   */
  function ApplyForAffiliate(r: Registry, caller: Address, name: string, id: string): (res: Result<Registry, Error>)
    requires WellFormed(r)
    ensures caller in r.addressToAffiliate ==> res == Failure(AlreadyApplied)
    ensures caller !in r.addressToAffiliate && id in r.affiliateIdToAffiliate ==> res == Failure(AffiliateIdExists)
    ensures res.Success? <==> caller !in r.addressToAffiliate && id !in r.affiliateIdToAffiliate
    ensures res.Success? ==>
      var r' := res.value;
      && WellFormed(r')
      && r'.owner == r.owner
      && r'.affiliates == r.affiliates + [Affiliate(name, id, false, 0, caller)]
      && AffiliateIdToAffiliate(r', id) == |r.affiliates|
      && OwnedAffiliate(r', caller) == |r.affiliates|
      && (forall other | other != id :: Lookup(r'.affiliateIdToAffiliate, other) == Lookup(r.affiliateIdToAffiliate, other))
      && (forall a | a != caller :: Lookup(r'.addressToAffiliate, a) == Lookup(r.addressToAffiliate, a))
      && SameAttribution(r, r')
  {
    if OwnedAffiliate(r, caller) != 0 then Failure(AlreadyApplied)
    else if AffiliateIdToAffiliate(r, id) != 0 then Failure(AffiliateIdExists)
    else
      var k := |r.affiliates|;
      Success(r.(
        affiliates := r.affiliates + [Affiliate(name, id, false, 0, caller)],
        affiliateIdToAffiliate := r.affiliateIdToAffiliate[id := k],
        addressToAffiliate := r.addressToAffiliate[caller := k]))
  }

  /** The owner-only guard shared by `verifyAffiliate` and `disableAffiliate`, then the id lookup. */
  function AdminTarget(r: Registry, caller: Address, id: string): (res: Result<nat, Error>)
    requires WellFormed(r)
    ensures caller != r.owner ==> res == Failure(NotOwner)
    ensures caller == r.owner && id !in r.affiliateIdToAffiliate ==> res == Failure(NotValidAffiliate)
    ensures res.Success? <==> caller == r.owner && id in r.affiliateIdToAffiliate
    ensures res.Success? ==> res.value == r.affiliateIdToAffiliate[id] && 1 <= res.value < |r.affiliates|
  {
    if caller != r.owner then Failure(NotOwner)
    else
      var k := AffiliateIdToAffiliate(r, id);
      if k == 0 then Failure(NotValidAffiliate) else Success(k)
  }

  /** `verifyAffiliate(id)`: the owner enables a live affiliate; enabling twice is not an error. */
  function VerifyAffiliate(r: Registry, caller: Address, id: string): (res: Result<Registry, Error>)
    requires WellFormed(r)
    ensures caller != r.owner ==> res == Failure(NotOwner)
    ensures caller == r.owner && id !in r.affiliateIdToAffiliate ==> res == Failure(NotValidAffiliate)
    ensures res.Success? <==> caller == r.owner && id in r.affiliateIdToAffiliate
    ensures res.Success? ==>
      var r', k := res.value, r.affiliateIdToAffiliate[id];
      && WellFormed(r')
      && IsAffiliateEnabled(r', id)
      && OnlyRecordEdited(r, r', k)
      && r'.affiliates[k] == r.affiliates[k].(enabled := true)
      && SameAttribution(r, r')
  {
    match AdminTarget(r, caller, id)
    case Failure(e) => Failure(e)
    case Success(k) =>
      Success(r.(affiliates := r.affiliates[k := r.affiliates[k].(enabled := true)]))
  }

  /** `disableAffiliate(id)`: the owner disables a live affiliate; its referrals stay recorded. */
  function DisableAffiliate(r: Registry, caller: Address, id: string): (res: Result<Registry, Error>)
    requires WellFormed(r)
    ensures caller != r.owner ==> res == Failure(NotOwner)
    ensures caller == r.owner && id !in r.affiliateIdToAffiliate ==> res == Failure(NotValidAffiliate)
    ensures res.Success? <==> caller == r.owner && id in r.affiliateIdToAffiliate
    ensures res.Success? ==>
      var r', k := res.value, r.affiliateIdToAffiliate[id];
      && WellFormed(r')
      && !IsAffiliateEnabled(r', id)
      && OnlyRecordEdited(r, r', k)
      && r'.affiliates[k] == r.affiliates[k].(enabled := false)
      && SameAttribution(r, r')
  {
    match AdminTarget(r, caller, id)
    case Failure(e) => Failure(e)
    case Success(k) =>
      Success(r.(affiliates := r.affiliates[k := r.affiliates[k].(enabled := false)]))
  }

  /**
   `changeAffiliateAddress(newAddr)` sent by `caller`: rewrites the `addr` of the
   record `caller` holds. The record keeps its index, and `caller` keeps holding it.
   */
  function ChangeAffiliateAddress(r: Registry, caller: Address, newAddr: Address): (res: Result<Registry, Error>)
    requires WellFormed(r)
    ensures caller !in r.addressToAffiliate ==> res == Failure(NotValidAffiliate)
    ensures caller in r.addressToAffiliate && newAddr == ZeroAddress ==> res == Failure(AddressIsZero)
    ensures res.Success? <==> caller in r.addressToAffiliate && newAddr != ZeroAddress
    ensures res.Success? ==>
      var r', k := res.value, r.addressToAffiliate[caller];
      && WellFormed(r')
      && OnlyRecordEdited(r, r', k)
      && r'.affiliates[k] == r.affiliates[k].(addr := newAddr)
      && SameAttribution(r, r')
  {
    var k := OwnedAffiliate(r, caller);
    if k == 0 then Failure(NotValidAffiliate)
    else if newAddr == ZeroAddress then Failure(AddressIsZero)
    else Success(r.(affiliates := r.affiliates[k := r.affiliates[k].(addr := newAddr)]))
  }

  /**
   `withdrawAffiliate()` sent by `caller`: retires the caller's record while it is
   disabled. The record stays in the array but is no longer reachable by its id
   or by its owner.
   */
  function WithdrawAffiliate(r: Registry, caller: Address): (res: Result<Registry, Error>)
    requires WellFormed(r)
    ensures caller !in r.addressToAffiliate ==> res == Failure(NotValidAffiliate)
    ensures caller in r.addressToAffiliate && r.affiliates[r.addressToAffiliate[caller]].enabled ==>
      res == Failure(AlreadyEnabled)
    ensures res.Success? <==> caller in r.addressToAffiliate && !r.affiliates[r.addressToAffiliate[caller]].enabled
    ensures res.Success? ==>
      var r', id := res.value, r.affiliates[r.addressToAffiliate[caller]].id;
      && WellFormed(r')
      && r'.owner == r.owner
      && r'.affiliates == r.affiliates
      && AffiliateIdToAffiliate(r', id) == 0
      && OwnedAffiliate(r', caller) == 0
      && (forall other | other != id :: Lookup(r'.affiliateIdToAffiliate, other) == Lookup(r.affiliateIdToAffiliate, other))
      && (forall a | a != caller :: Lookup(r'.addressToAffiliate, a) == Lookup(r.addressToAffiliate, a))
      && SameAttribution(r, r')
  {
    var k := OwnedAffiliate(r, caller);
    if k == 0 then Failure(NotValidAffiliate)
    else if r.affiliates[k].enabled then Failure(AlreadyEnabled)
    else Success(r.(
      affiliateIdToAffiliate := r.affiliateIdToAffiliate - {r.affiliates[k].id},
      addressToAffiliate := r.addressToAffiliate - {caller}))
  }

  // ---------------------------------------------------------------------------
  // User attribution
  // ---------------------------------------------------------------------------

  /**
   `registerReferredUser(user, id)`: anyone may attribute a fresh user to a
   verified affiliate, whose referral count goes up by one. The user checks come
   first: an organic user is refused as such even when the affiliate is not active.
   */
  function RegisterReferredUser(r: Registry, user: Address, id: string): (res: Result<Registry, Error>)
    requires WellFormed(r)
    ensures user in r.organicUsers ==> res == Failure(AlreadyOrganic)
    ensures user !in r.organicUsers && user in r.userToAffiliate ==> res == Failure(AlreadyReferred)
    ensures user !in r.organicUsers && user !in r.userToAffiliate && id !in r.affiliateIdToAffiliate ==>
      res == Failure(NotValidAffiliate)
    ensures (&& user !in r.organicUsers && user !in r.userToAffiliate && id in r.affiliateIdToAffiliate
             && !r.affiliates[r.affiliateIdToAffiliate[id]].enabled) ==> res == Failure(AffiliateNotActive)
    ensures res.Success? <==> user !in r.organicUsers && user !in r.userToAffiliate && IsAffiliateEnabled(r, id)
    ensures res.Success? ==>
      var r', k := res.value, r.affiliateIdToAffiliate[id];
      && WellFormed(r')
      && UserToAffiliate(r', user) == k
      && (forall v | v != user :: Lookup(r'.userToAffiliate, v) == Lookup(r.userToAffiliate, v))
      && r'.organicUsers == r.organicUsers
      && OnlyRecordEdited(r, r', k)
      && r'.affiliates[k] == r.affiliates[k].(totalRef := r.affiliates[k].totalRef + 1)
  {
    if IsUserOrganic(r, user) then Failure(AlreadyOrganic)
    else if UserToAffiliate(r, user) != 0 then Failure(AlreadyReferred)
    else
      var k := AffiliateIdToAffiliate(r, id);
      if k == 0 then Failure(NotValidAffiliate)
      else if !r.affiliates[k].enabled then Failure(AffiliateNotActive)
      else
        var a := r.affiliates[k];
        Success(r.(
          affiliates := r.affiliates[k := a.(totalRef := a.totalRef + 1)],
          userToAffiliate := r.userToAffiliate[user := k]))
  }

  /** `registerOrganicUser(user)`: marks a fresh user as organic; a second registration is refused. */
  function RegisterOrganicUser(r: Registry, user: Address): (res: Result<Registry, Error>)
    requires WellFormed(r)
    ensures user in r.userToAffiliate ==> res == Failure(AlreadyReferred)
    ensures user !in r.userToAffiliate && user in r.organicUsers ==> res == Failure(AlreadyOrganic)
    ensures res.Success? <==> user !in r.userToAffiliate && user !in r.organicUsers
    ensures res.Success? ==>
      var r' := res.value;
      && WellFormed(r')
      && IsUserOrganic(r', user)
      && (forall v | v != user :: IsUserOrganic(r', v) == IsUserOrganic(r, v))
      && r'.userToAffiliate == r.userToAffiliate
      && r'.affiliates == r.affiliates
      && r'.affiliateIdToAffiliate == r.affiliateIdToAffiliate
      && r'.addressToAffiliate == r.addressToAffiliate
      && r'.owner == r.owner
  {
    if UserToAffiliate(r, user) != 0 then Failure(AlreadyReferred)
    else if IsUserOrganic(r, user) then Failure(AlreadyOrganic)
    else Success(r.(organicUsers := r.organicUsers + {user}))
  }
}
