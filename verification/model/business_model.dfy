/** The `Business` schema: an employer's account. */
module BusinessModel {
  import opened Base
  import opened Strings
  import opened Json
  import opened Accounts

  /** The only value of `accountType` the enum admits. */
  const BusinessAccountType: string := "business"

  datatype Contact = Contact(name: string, phoneNumber: string, position: string)

  datatype Address = Address(street: string, city: string, state: string, zipCode: string, country: string)

  datatype Business = Business(
    id: Id,
    email: string,
    password: Secret,
    businessName: string,
    businessType: string,
    logo: Option<string>,
    contact: Contact,
    address: Address,
    approved: bool,
    isEmailVerified: bool,
    tokens: Tokens,
    createdAt: Time)

  /** What `new Business({...})` stores: trimmed text fields, the e-mail
      setters, and the `approved` and `isEmailVerified` defaults (false):
      a new business can neither log in nor post until verified and
      approved. */
  function NewBusiness(id: Id, email: string, password: string, businessName: string,
                       businessType: string, contact: Contact, address: Address, now: Time): (b: Business)
    ensures b.email == NormalizeEmail(email)
    ensures b.businessName == Trim(businessName) && b.businessType == Trim(businessType)
    ensures b.contact.phoneNumber == Trim(contact.phoneNumber)
    ensures !b.approved && !b.isEmailVerified && b.tokens == NoTokens
    ensures b.password == Plain(password) && b.logo.None?
  {
    Business(id, NormalizeEmail(email), Plain(password), Trim(businessName), Trim(businessType), None,
             Contact(Trim(contact.name), Trim(contact.phoneNumber), Trim(contact.position)),
             Address(Trim(address.street), Trim(address.city), Trim(address.state),
                     Trim(address.zipCode), Trim(address.country)),
             false, false, NoTokens, now)
  }

  /** The stored document of a business, every property in schema order. */
  function ToDocument(b: Business): Document {
    ProfileFields(b) + StatusFields(b)
  }

  function ProfileFields(b: Business): (r: Document)
    ensures forall i :: 0 <= i < |r| ==> r[i].0 != ApprovedField && r[i].0 != IdVirtual
  {
    [(IdField, Str(b.id)), (EmailField, Str(b.email))]
    + SecretFields(b.password, b.tokens)
    + [(BusinessNameField, Str(b.businessName)), (BusinessTypeField, Str(b.businessType))]
    + (if b.logo.Some? then [(LogoField, Str(b.logo.value))] else [])
    + [(ContactPersonField, Obj([Field("name", Str(b.contact.name)),
                                 Field("phoneNumber", Str(b.contact.phoneNumber)),
                                 Field("position", Str(b.contact.position))])),
       (AddressField, Obj([Field("street", Str(b.address.street)), Field("city", Str(b.address.city)),
                           Field("state", Str(b.address.state)), Field("zipCode", Str(b.address.zipCode)),
                           Field("country", Str(b.address.country))]))]
  }

  function StatusFields(b: Business): Document {
    [(AccountTypeField, Str(BusinessAccountType)), (ApprovedField, Bool(b.approved)),
       (IsEmailVerifiedField, Bool(b.isEmailVerified)), (CreatedAtField, Num(b.createdAt))]
  }

  /** `business.toJSON()`: the same redaction as for users, and no virtuals
      (the schema does not enable them). */
  function ToJson(b: Business): (r: Document)
    ensures forall k :: k in RedactedKeys ==> Lookup(r, k).None?
    ensures forall k :: k !in RedactedKeys ==> Lookup(r, k) == Lookup(ToDocument(b), k)
    ensures Lookup(r, IdVirtual).None?
  {
    var d := ToDocument(b);
    assert forall i :: 0 <= i < |StatusFields(b)| ==> StatusFields(b)[i].0 != IdVirtual;
    assert forall i :: 0 <= i < |d| ==> d[i].0 != IdVirtual;
    Redact(d)
  }

  /** The approval flag survives the redaction: the public view of a
      business tells whether it is approved. */
  lemma ToJsonShowsApproval(b: Business)
    ensures Lookup(ToJson(b), ApprovedField) == Some(Bool(b.approved))
  {
    var p := ProfileFields(b);
    var t := StatusFields(b);
    LookupAppend(p, t);
    assert t[1..][0] == (ApprovedField, Bool(b.approved));
    assert Lookup(t, ApprovedField) == Lookup(t[1..], ApprovedField);
  }
}
