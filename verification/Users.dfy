/**
 The user record of the directory and the keys it can be sorted on.
 The record layout mirrors the JSON users the remote API returns: identity and
 contact fields, a nested address with geo coordinates, and nested company data.
 */
module Users {
  import opened Strings

  datatype Geo = Geo(lat: string, lng: string)

  datatype Address = Address(street: string, suite: string, city: string, zipcode: string, geo: Geo)

  datatype Company = Company(name: string, catchPhrase: string, bs: string)

  datatype User = User(
    id: int,
    name: string,
    username: string,
    email: string,
    address: Address,
    phone: string,
    website: string,
    company: Company)

  /** What the add-user form submits. */
  datatype UserFormData = UserFormData(
    name: string,
    username: string,
    email: string,
    phone: string,
    website: string,
    company: string)

  /** `keyof User`: every top-level field of the record. */
  datatype SortKey =
    | IdKey | NameKey | UsernameKey | EmailKey | AddressKey | PhoneKey | WebsiteKey | CompanyKey
  {
    /** The two keys whose values are nested objects rather than numbers or strings. */
    predicate IsComposite()
    {
      this == AddressKey || this == CompanyKey
    }
  }

  /** A number or string field value, as the comparator sees it. */
  datatype Value = Num(n: int) | Text(s: string)

  /** `u[key]` for a key whose value is a number or a string. */
  function KeyValue(key: SortKey, u: User): (v: Value)
    requires !key.IsComposite()
    ensures v.Num? <==> key == IdKey
  {
    match key
    case IdKey => Num(u.id)
    case NameKey => Text(u.name)
    case UsernameKey => Text(u.username)
    case EmailKey => Text(u.email)
    case PhoneKey => Text(u.phone)
    case WebsiteKey => Text(u.website)
  }

  /** JavaScript `<` between two field values of the same kind. */
  predicate ValueLess(v: Value, w: Value)
  {
    match (v, w)
    case (Num(a), Num(b)) => a < b
    case (Text(a), Text(b)) => StrLess(a, b)
    case _ => false
  }

  /** `ValueLess` is a strict total order on values of one kind. */
  lemma ValueLessStrictTotal(u: Value, v: Value, w: Value)
    requires u.Num? == v.Num? && v.Num? == w.Num?
    ensures !ValueLess(u, u)
    ensures ValueLess(u, v) ==> !ValueLess(v, u)
    ensures ValueLess(u, v) && ValueLess(v, w) ==> ValueLess(u, w)
    ensures u == v || ValueLess(u, v) || ValueLess(v, u)
  {
    if u.Text? {
      StrLessIrreflexive(u.s);
      StrLessAsymmetric(u.s, v.s);
      StrLessTransitive(u.s, v.s, w.s);
      StrLessTotal(u.s, v.s);
    }
  }
}
