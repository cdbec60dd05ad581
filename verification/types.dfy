/** Addresses, affiliate records and revert reasons of the REXReferral contract. */
module Types {

  /** An EVM account address: an unsigned 160-bit integer. */
  type Address = a: int | 0 <= a < 0x1_0000_0000_0000_0000_0000_0000_0000_0000_0000_0000

  /** The null address, used as "no address" by every read that can fail softly. */
  const ZeroAddress: Address := 0

  /** One entry of the `affiliates` array. */
  datatype Affiliate = Affiliate(
    name: string,
    id: string,
    enabled: bool,
    totalRef: nat,
    addr: Address)

  /** The sentinel record at index 0, which stands for "no affiliate". */
  const Genesis: Affiliate := Affiliate("Genesis", "genesis", false, 0, ZeroAddress)

  /** Every way a transaction can revert. */
  datatype Error =
    | NotOwner
    | AlreadyApplied
    | AffiliateIdExists
    | NotValidAffiliate
    | AddressIsZero
    | AlreadyEnabled
    | AffiliateNotActive
    | AlreadyOrganic
    | AlreadyReferred

  /** The revert string a caller observes for each error; each string belongs to exactly one error. */
  function Reason(e: Error): (msg: string)
    ensures e == NotOwner <==> msg == "Ownable: caller is not the owner"
    ensures e == AlreadyApplied <==> msg == "Already applied"
    ensures e == AffiliateIdExists <==> msg == "Affiliate ID already exists"
    ensures e == NotValidAffiliate <==> msg == "Not a valid affiliate"
    ensures e == AddressIsZero <==> msg == "Address cannot be 0"
    ensures e == AlreadyEnabled <==> msg == "Affiliate is already enabled"
    ensures e == AffiliateNotActive <==> msg == "Affiliate is not active"
    ensures e == AlreadyOrganic <==> msg == "Already registered organically"
    ensures e == AlreadyReferred <==> msg == "Already registered to affiliate"
  {
    match e
    case NotOwner => "Ownable: caller is not the owner"
    case AlreadyApplied => "Already applied"
    case AffiliateIdExists => "Affiliate ID already exists"
    case NotValidAffiliate => "Not a valid affiliate"
    case AddressIsZero => "Address cannot be 0"
    case AlreadyEnabled => "Affiliate is already enabled"
    case AffiliateNotActive => "Affiliate is not active"
    case AlreadyOrganic => "Already registered organically"
    case AlreadyReferred => "Already registered to affiliate"
  }

}
