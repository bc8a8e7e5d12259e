/**
 * The two closed vocabularies of the bot: the identity a profile declares for
 * itself and the audience categories it is looking for. In the database both
 * are stored as plain strings, so every reader validates them first.
 */
module Categories {
  import opened Common

  datatype Identity = Male | Female | TransWoman | TransMan | Nonbinary | Couple | Other

  datatype Audience = Women | Men | TransWomen | TransMen | NonbinaryPeople | Couples | Any

  /** The string stored in the database for an identity. */
  function IdentityCode(i: Identity): string
  {
    match i
    case Male => "MALE"
    case Female => "FEMALE"
    case TransWoman => "TRANS_WOMAN"
    case TransMan => "TRANS_MAN"
    case Nonbinary => "NONBINARY"
    case Couple => "COUPLE"
    case Other => "OTHER"
  }

  /** The string stored in the database for an audience category. */
  function AudienceCode(a: Audience): string
  {
    match a
    case Women => "WOMEN"
    case Men => "MEN"
    case TransWomen => "TRANS_WOMEN"
    case TransMen => "TRANS_MEN"
    case NonbinaryPeople => "NONBINARY_PEOPLE"
    case Couples => "COUPLES"
    case Any => "ANY"
  }

  /** The membership test against the identity list: a raw string is an identity iff it is one of the seven codes. */
  function ParseIdentity(s: string): (r: Option<Identity>)
    ensures r.Some? ==> IdentityCode(r.value) == s
    ensures r.None? ==> forall i :: IdentityCode(i) != s
  {
    if s == "MALE" then Some(Male)
    else if s == "FEMALE" then Some(Female)
    else if s == "TRANS_WOMAN" then Some(TransWoman)
    else if s == "TRANS_MAN" then Some(TransMan)
    else if s == "NONBINARY" then Some(Nonbinary)
    else if s == "COUPLE" then Some(Couple)
    else if s == "OTHER" then Some(Other)
    else None
  }

  /** The membership test against the audience list. */
  function ParseAudience(s: string): (r: Option<Audience>)
    ensures r.Some? ==> AudienceCode(r.value) == s
    ensures r.None? ==> forall a :: AudienceCode(a) != s
  {
    if s == "WOMEN" then Some(Women)
    else if s == "MEN" then Some(Men)
    else if s == "TRANS_WOMEN" then Some(TransWomen)
    else if s == "TRANS_MEN" then Some(TransMen)
    else if s == "NONBINARY_PEOPLE" then Some(NonbinaryPeople)
    else if s == "COUPLES" then Some(Couples)
    else if s == "ANY" then Some(Any)
    else None
  }

  /** Decoding a stored code gives back the identity it encodes. */
  lemma IdentityCodeRoundTrip(i: Identity)
    ensures ParseIdentity(IdentityCode(i)) == Some(i)
  {
  }

  /** Decoding a stored code gives back the audience it encodes. */
  lemma AudienceCodeRoundTrip(a: Audience)
    ensures ParseAudience(AudienceCode(a)) == Some(a)
  {
  }

  /**
   * The category under which a profile of identity `id` is sought. The one
   * identity without a category of its own, OTHER, falls into ANY.
   */
  function IdentityToAudience(id: Identity): (a: Audience)
    ensures a == Any <==> id == Other
  {
    match id
    case Male => Men
    case Female => Women
    case TransWoman => TransWomen
    case TransMan => TransMen
    case Nonbinary => NonbinaryPeople
    case Couple => Couples
    case Other => Any
  }

  /** The inverse table: the identity whose members an audience category seeks. */
  function AudienceToIdentity(a: Audience): Identity
  {
    match a
    case Men => Male
    case Women => Female
    case TransWomen => TransWoman
    case TransMen => TransMan
    case NonbinaryPeople => Nonbinary
    case Couples => Couple
    case Any => Other
  }

  /** The identity table is a bijection: each direction undoes the other. */
  lemma IdentityToAudienceBijective(id: Identity, a: Audience)
    ensures AudienceToIdentity(IdentityToAudience(id)) == id
    ensures IdentityToAudience(AudienceToIdentity(a)) == a
  {
  }

  /** Distinct identities are sought under distinct categories. */
  lemma IdentityToAudienceInjective(i: Identity, j: Identity)
    ensures IdentityToAudience(i) == IdentityToAudience(j) ==> i == j
  {
    IdentityToAudienceBijective(i, Any);
    IdentityToAudienceBijective(j, Any);
  }
}
