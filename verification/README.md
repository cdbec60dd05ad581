# REXReferral registry in Dafny

A model of the REXReferral contract: an on-chain registry in which applicants
become affiliates, the contract owner verifies or disables them, and users are
attributed either to one verified affiliate ("referred") or to none
("organic").

The model follows the contract's Hardhat suite `test/test-rexreferral.js`,
which asserts every transition and every revert string. Where the suite is
silent, the choice the model makes is listed under "Policies not fixed by the
tests" below. Each operation is a pure function from the
registry state and an explicit sender to `Result<Registry, Error>`. A
`Failure` is a revert, and the state is left as it was.

Modules:

- `Wrappers` (`wrappers.dfy`): `Option` and `Result`.
- `Types` (`types.dfy`): 160-bit `Address` with `ZeroAddress`, the `Affiliate` record, the `Genesis` sentinel, `Error` and its revert strings.
- `Referral` (`referral.dfy`): the `Registry` storage, the deployment `Init`, the public reads, and the seven transactions.
- `Invariants` (`invariants.dfy`): the global invariants, and a proof that deployment establishes them and every transaction keeps them.
- `Reachability` (`reachability.dfy`): transaction sequences (`Step`, `Run`). It proves that every reachable state is invariant and that attribution is terminal.
- `Behaviour` (`behaviour.dfy`): the test suite's assertions, stated for all inputs through the public reads.

Storage follows Solidity's mappings: a missing key reads as index 0. Index 0
is the disabled `Genesis` record. The model reads the record at index 0 for a
missing key, so `IsAffiliateEnabled` and `GetAffiliateAddress` treat "no
affiliate" like a disabled one.

Check order. Where the tests give two failing conditions at once, their
expected revert fixes which check comes first:

- `applyForAffiliate`: "Already applied" comes before "Affiliate ID already exists" (lines 42-46).
- `verifyAffiliate`: the owner check comes before the id check (lines 55-60).
- `registerReferredUser`: "Already registered organically" comes before "Affiliate is not active". Lines 170-185 expect the organic revert for an affiliate that was never verified.

Policies not fixed by the tests:

- `registerReferredUser` checks "Already registered to affiliate" before any affiliate check. Lines 216-245 use only enabled affiliates, so they do not decide this.
- An unknown id in `registerReferredUser` reverts with "Not a valid affiliate". This check comes after both user checks, so an organic user with an unknown id gets "Already registered organically".
- `changeAffiliateAddress` checks ownership before the zero address.
- `changeAffiliateAddress` rewrites only the record's `addr`. The holder entry stays keyed by the old sender. After a change the old address still holds the record and can withdraw it while it is disabled, and the new address holds nothing. The new address may then apply for a record of its own, so two records can carry the same `addr` (`Behaviour.ChangeAddressKeepsHolder`). Lines 95-133 read only `addr`, so they do not decide this.
- Verifying an enabled affiliate succeeds and changes nothing (`Behaviour.VerifyIdempotent`). Disabling a disabled one also succeeds and changes nothing (`Behaviour.DisableIdempotent`). No test verifies or disables the same affiliate twice.
- `withdrawAffiliate` keeps the record in the array. It removes only the id entry and the owner entry.
- `withdrawAffiliate` is gated only on the current `enabled` flag. An affiliate that was verified, gained referrals and was then disabled can still withdraw. Its users stay attributed to the retired index and keep its count, and from then on `getAffiliateAddress` returns the zero address for them (`Behaviour.WithdrawAfterDisableStrandsUsers`).
- A withdrawn id may be applied for again. It then resolves to a fresh index and never to the withdrawn record (`Behaviour.WithdrawnRecordNotRevived`).

## Model

| member | source | states |
|---|---|---|
| Types.Reason | test/test-rexreferral.js:43-217 | each error maps to the revert string the tests expect, and each of the nine strings comes from exactly one error |
| Referral.Init | test/test-rexreferral.js:12-19 | deployment records the deployer as owner and holds one record, with no ids, holders, referrals or organic users |
| Referral.AffiliateAt | test/test-rexreferral.js:110-118 | the `affiliates(i)` getter returns the record at `i` exactly when `i` is inside the array, and reverts past its end |
| Referral.AffiliateIdToAffiliate | test/test-rexreferral.js:139-147 | `affiliateIdToAffiliate(id)` is a readable slot, and it is 0 exactly when no live affiliate has the id |
| Referral.OwnedAffiliate | test/test-rexreferral.js:99-102 | the sender's record index is a readable slot, and it is 0 exactly when the sender holds no affiliate |
| Referral.UserToAffiliate | test/test-rexreferral.js:267-275 | `userToAffiliate(u)` is a readable slot, it is 0 exactly for unattributed users, and a non-zero value puts `u` among that affiliate's referrals |
| Referral.IsUserOrganic | scripts/deploy.js:51-55 | the `isUserOrganic(u)` read reports exactly whether `u` was registered as organic |
| Referral.IsAffiliateEnabled | test/test-rexreferral.js:73-85 | `isAffiliateEnabled` is true only for a live id, and for a live id it is that record's `enabled` flag; an unknown id reads false |
| Referral.GetAffiliateAddress | test/test-rexreferral.js:283-337 | an unattributed user gets the zero address; a non-zero result is the live address of the enabled affiliate the user is referred to, and such an affiliate always yields its address |
| Referral.ApplyForAffiliate | test/test-rexreferral.js:38-53 | reverts "Already applied" when the sender holds a record, else "Affiliate ID already exists" when the id is live; on success it appends a disabled, unreferred record with the sender's address at the next index, maps the id and the sender to that index, and leaves other ids, holders and users alone |
| Referral.AdminTarget | test/test-rexreferral.js:55-93 | the owner-only guard: a non-owner is refused first, then an unknown id; on success it yields the live, non-genesis index of the id |
| Referral.VerifyAffiliate | test/test-rexreferral.js:55-93 | only the owner, only for a live id; on success `isAffiliateEnabled(id)` holds and only that record's `enabled` flag changed |
| Referral.DisableAffiliate | test/test-rexreferral.js:62-85 | only the owner, only for a live id; on success `isAffiliateEnabled(id)` is false and only that record's `enabled` flag changed, with referrals untouched |
| Referral.ChangeAffiliateAddress | test/test-rexreferral.js:95-133 | reverts "Not a valid affiliate" for a sender with no record, and "Address cannot be 0" for the zero address; otherwise only the `addr` of the sender's own record changes, and it keeps its index |
| Referral.WithdrawAffiliate | test/test-rexreferral.js:135-163 | reverts "Not a valid affiliate" for a sender with no record and "Affiliate is already enabled" for an enabled one; on success the id resolves to 0, the sender holds nothing, and every other id, holder, record and user is unchanged |
| Referral.RegisterReferredUser | test/test-rexreferral.js:170-276 | reverts "Already registered organically", then "Already registered to affiliate", then (unknown id) "Not a valid affiliate", then "Affiliate is not active"; succeeds exactly for a fresh user and an enabled affiliate, mapping that user alone to the affiliate's index and raising only that record's `totalRef` by exactly 1 |
| Referral.RegisterOrganicUser | test/test-rexreferral.js:187-202 | reverts "Already registered to affiliate" for a referred user and "Already registered organically" for an organic one; otherwise marks only that user organic and changes nothing else |
| Invariants.InitInvariant | test/test-rexreferral.js:22-31 | the deployed registry satisfies every invariant: ids resolve to their records, holders are distinct and live, attribution is exclusive, and every `totalRef` (genesis's 0 included) counts its users |
| Invariants.ApplyPreserves | test/test-rexreferral.js:38-53 | a successful application keeps every invariant: the appended record has no referrals, and its id is live only for it and its sender |
| Invariants.VerifyPreserves | test/test-rexreferral.js:77-80 | a successful verification keeps every invariant |
| Invariants.DisablePreserves | test/test-rexreferral.js:82-85 | a successful disabling keeps every invariant |
| Invariants.ChangeAddressPreserves | test/test-rexreferral.js:114-118 | a successful address change keeps every invariant |
| Invariants.WithdrawPreserves | test/test-rexreferral.js:143-147 | a successful withdrawal keeps every invariant: the remaining holders' ids still resolve to their own records |
| Invariants.RegisterReferredPreserves | test/test-rexreferral.js:260-271 | a successful referral keeps every invariant, in particular that each `totalRef` equals the number of users mapped to its index |
| Invariants.RegisterOrganicPreserves | test/test-rexreferral.js:179-185 | a successful organic registration keeps every invariant, in particular that no user is both organic and referred |
| Reachability.Step | scripts/deploy.js:26-56 | any one transaction that succeeds leaves a well-formed registry with the same owner |
| Reachability.Run | scripts/deploy.js:26-56 | any sequence of transactions, some possibly reverting, leaves a well-formed registry with the deployer still the owner |
| Reachability.StepPreservesInvariant | test/test-rexreferral.js:166-276 | every transaction, successful or reverted, leaves an invariant state invariant |
| Reachability.RunPreservesInvariant | test/test-rexreferral.js:166-276 | any run of transactions from an invariant state ends in an invariant state |
| Reachability.ReachableInvariant | test/test-rexreferral.js:12-19 | every state reachable from deployment satisfies every invariant |
| Reachability.StepKeepsAttribution | test/test-rexreferral.js:216-245 | after any transaction an organic user is still organic, and a referred user is still referred to the same index |
| Reachability.RunKeepsAttribution | test/test-rexreferral.js:187-245 | organic and referred status, and the affiliate a user is referred to, survive any run of transactions |
| Reachability.ReachableExclusive | test/test-rexreferral.js:170-202 | in every reachable state no user is both organic and referred |
| Reachability.ReachableRefCounts | test/test-rexreferral.js:263-271 | in every reachable state each record's `totalRef` equals the number of users mapped to its index |
| Behaviour.GenesisRecord | test/test-rexreferral.js:22-31 | a fresh deployment's `affiliates(0)` is {"Genesis", "genesis", disabled, 0 referrals, zero address}, and `affiliates(1)` reverts |
| Behaviour.FirstApplicantGetsIndexOne | test/test-rexreferral.js:136-141 | the first application to a fresh deployment succeeds, its id resolves to 1, and its record is disabled with no referrals and the sender's address |
| Behaviour.ApplyTwiceRejected | test/test-rexreferral.js:39-52 | after an application, the same sender is refused with "Already applied" under any id, and another sender is refused with "Affiliate ID already exists" under the same id |
| Behaviour.HoldersHoldDistinctIds | test/test-rexreferral.js:48-52 | in an invariant state two different addresses never hold records with the same id |
| Behaviour.AdminOnly | test/test-rexreferral.js:55-65 | a non-owner's verification and disabling revert with "Ownable: caller is not the owner", whatever the id |
| Behaviour.VerifyUnknownRejected | test/test-rexreferral.js:88-93 | the owner verifying an id nobody holds reverts with "Not a valid affiliate" |
| Behaviour.VerifyThenDisable | test/test-rexreferral.js:67-86 | a new affiliate is disabled; the owner's verification enables it and the owner's disabling disables it again |
| Behaviour.VerifyIdempotent | test/test-rexreferral.js:77-80 | verifying an enabled affiliate again succeeds and leaves the state as it was; the cited lines verify once, and no test verifies twice, so the second call is the model's policy |
| Behaviour.DisableIdempotent | test/test-rexreferral.js:82-85 | disabling a disabled affiliate again succeeds and leaves the state as it was; the cited lines disable once, and no test disables twice, so the second call is the model's policy |
| Behaviour.ChangeAddressWithoutAffiliate | test/test-rexreferral.js:95-102 | a sender that holds no affiliate is refused with "Not a valid affiliate", whatever the new address |
| Behaviour.ChangeAddressAfterApply | test/test-rexreferral.js:104-133 | a new record carries the applicant's address; the zero address is refused; a non-zero address replaces only `addr`, and the id still resolves to the same index |
| Behaviour.ChangeAddressKeepsHolder | test/test-rexreferral.js:95-133 | after a successful change the old sender still holds the record and may withdraw it while it is disabled, the new address holds nothing and may apply under a fresh id, and both records then carry the new address |
| Behaviour.WithdrawUnverified | test/test-rexreferral.js:135-148 | after an application the id resolves to the new index, and withdrawing the unverified record succeeds and makes the id resolve to 0 |
| Behaviour.WithdrawVerifiedRejected | test/test-rexreferral.js:150-163 | after an application and its verification, withdrawing reverts with "Affiliate is already enabled" |
| Behaviour.WithdrawnRecordNotRevived | test/test-rexreferral.js:143-147 | applying under a withdrawn id gives a fresh index past every existing record and leaves all existing records, the withdrawn one included, in place |
| Behaviour.OrganicUserNotReferred | test/test-rexreferral.js:170-185 | an organic user cannot be referred to any affiliate, active or not, and is refused with "Already registered organically" |
| Behaviour.ReferredUserFinal | test/test-rexreferral.js:187-245 | a referred user cannot become organic and cannot be referred again to any affiliate, with "Already registered to affiliate" |
| Behaviour.OrganicFlagSetByRegistration | scripts/deploy.js:51-56 | nobody is organic in a fresh deployment; registering a user as organic succeeds, makes `isUserOrganic` true for that user and leaves every other user not organic |
| Behaviour.UnverifiedAffiliateRefused | test/test-rexreferral.js:204-214 | a fresh user cannot be referred to a live but unverified affiliate, with "Affiliate is not active" |
| Behaviour.TwoReferralsScenario | test/test-rexreferral.js:247-276 | apply "shadow77", verify, and refer two users: the record at index 1 goes from 0 to 2 referrals, both users map to 1, and an uninvolved user maps to 0 |
| Behaviour.OrganicUserHasNoAffiliateAddress | test/test-rexreferral.js:283-291 | in an invariant state an organic user's affiliate address is the zero address |
| Behaviour.ReferredUserReadsAffiliateAddress | test/test-rexreferral.js:293-313 | a user just referred to an active affiliate reads that affiliate's address |
| Behaviour.DisableHidesAddress | test/test-rexreferral.js:315-337 | disabling a referred user's affiliate makes the user's affiliate address zero but keeps the user's index and the referral count; verifying it again restores the address |
| Behaviour.WithdrawAfterDisableStrandsUsers | test/test-rexreferral.js:150-163 | in an invariant state a holder whose record was disabled by the owner can withdraw; its referred users keep the retired index and its count, its id resolves to 0, and their affiliate address is zero |

## Left out

- Events, gas, ABI encoding, signers and transaction receipts are not modelled. The sender is an explicit parameter of each operation.
- OpenZeppelin `Ownable` is modelled only as an owner fixed at deployment and checked by equality. Ownership transfer and renouncement are out of scope: no test exercises them.
- `registerReferredUser` and `registerOrganicUser` take no sender and have no access check. The deploy script (scripts/deploy.js:39-56) calls them with users registering themselves.
- Integer widths: `totalRef` is a `nat`. A uint256 overflow of it cannot occur, because it would need more than 2^256 distinct users and there are only 2^160 addresses.
- Integer widths: record indices are `nat`, not uint256. The array is not bounded by the number of addresses: one address can apply, withdraw and apply again, and each successful application appends one record. Reaching 2^256 therefore needs 2^256 successful applications, and the model does not track that bound.
- The EVM never sends from the zero address, so the model puts no constraint on the sender.
- `IsUserOrganic`, `IsAffiliateEnabled` on unknown ids and `affiliates(i)` make no promise beyond what is stated above.
- The deployment script's console logging is not modelled.
