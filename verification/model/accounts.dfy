/** What the `User` and `Business` schemas have in common: the stored
    password, the one-time e-mail-verification and password-reset tokens,
    and the `trim` + `lowercase` normalisation of the e-mail address. */
module Accounts {
  import opened Base
  import opened Strings
  import opened Json

  /** A stored password.  bcrypt is replaced by an injective tag: hashing
      `x` gives `Hashed(x)`, so hashing an already hashed value gives a
      different value again, as bcrypt does. */
  datatype Secret = Plain(text: string) | Hashed(preimage: Secret)

  /** `bcrypt.compare(candidate, stored)`. */
  predicate PasswordMatches(candidate: string, stored: Secret) {
    stored == Hashed(Plain(candidate))
  }

  /** The one-time tokens and their expiry instants (absent = `null`). */
  datatype Tokens = Tokens(
    verifyToken: Option<string>,
    verifyExpires: Option<Time>,
    resetToken: Option<string>,
    resetExpires: Option<Time>)

  const NoTokens: Tokens := Tokens(None, None, None, None)

  /** The `trim` and `lowercase` setters of an e-mail field (lower-casing is
      exact for ASCII letters and the Kelvin sign). */
  function NormalizeEmail(s: string): (r: string)
    ensures |r| <= |s|
    ensures IsTrimmed(r)
  {
    var t := Trim(s);
    LowerTrimmed(t);
    ToLower(t)
  }

  /** Lower-casing never turns a non-space into a space, so it keeps a
      trimmed string trimmed. */
  lemma LowerTrimmed(t: string)
    requires IsTrimmed(t)
    ensures IsTrimmed(ToLower(t))
  {
    var r := ToLower(t);
    if r != [] {
      assert !IsSpace(t[0]) && !IsSpace(t[|t| - 1]);
      assert LeadingSpaces(r) == 0;
      assert TrailingSpaces(r) == 0;
    } else {
      assert t == [];
    }
  }

  /** The setters are idempotent: a stored address is its own normal form,
      so a query with a stored address finds it. */
  lemma NormalizeEmailIdempotent(s: string)
    ensures NormalizeEmail(NormalizeEmail(s)) == NormalizeEmail(s)
  {
    var r := NormalizeEmail(s);
    assert Trim(r) == r;
    ToLowerIdempotent(Trim(s));
  }

  /** The `pre('save')` hook: the password is hashed when the save modified
      it, and kept as stored otherwise. */
  function PreSave(password: Secret, modified: bool): (r: Secret)
    ensures modified ==> r.Hashed? && r.preimage == password
    ensures !modified ==> r == password
  {
    if modified then Hashed(password) else password
  }

  /** A password set in clear and saved once is accepted by `comparePassword`
      for that text and for no other, and saving again without touching the
      password keeps it accepted (no double hashing). */
  lemma SavedPasswordMatches(text: string, other: string)
    ensures PasswordMatches(text, PreSave(Plain(text), true))
    ensures other != text ==> !PasswordMatches(other, PreSave(Plain(text), true))
    ensures PasswordMatches(text, PreSave(PreSave(Plain(text), true), false))
    ensures !PasswordMatches(text, PreSave(PreSave(Plain(text), true), true))
  {
  }

  /** The property names of the stored `User` and `Business` documents
      (nested `contactPerson` and `address` properties flattened), and the
      two virtuals `id` and `fullName`. */
  datatype Prop =
    | IdField | EmailField | PasswordField
    | VerifyTokenField | VerifyExpiresField | ResetTokenField | ResetExpiresField
    | UsernameField | FirstNameField | LastNameField | PhoneNumberField
    | AvatarField | CvField | InterestsField
    | BusinessNameField | BusinessTypeField | LogoField | ContactPersonField | AddressField
    | ApprovedField | AccountTypeField | IsEmailVerifiedField | CreatedAtField
    | IdVirtual | FullNameVirtual

  /** A stored document: its properties in order. */
  type Document = seq<(Prop, Value)>

  /** The properties both `toJSON` transforms delete. */
  const RedactedKeys: set<Prop> :=
    {PasswordField, VerifyTokenField, VerifyExpiresField, ResetTokenField, ResetExpiresField}

  /** The stored form of a password (a bcrypt string for a hash). */
  function SecretText(s: Secret): string {
    match s
    case Plain(t) => t
    case Hashed(p) => "$2a$10$" + SecretText(p)
  }

  /** The password and token properties of a stored account document; an
      unset token or expiry has no property at all. */
  function SecretFields(password: Secret, t: Tokens): (r: Document)
    ensures forall i :: 0 <= i < |r| ==> r[i].0 in RedactedKeys
  {
    [(PasswordField, Str(SecretText(password)))]
    + (if t.verifyToken.Some? then [(VerifyTokenField, Str(t.verifyToken.value))] else [])
    + (if t.verifyExpires.Some? then [(VerifyExpiresField, Num(t.verifyExpires.value))] else [])
    + (if t.resetToken.Some? then [(ResetTokenField, Str(t.resetToken.value))] else [])
    + (if t.resetExpires.Some? then [(ResetExpiresField, Num(t.resetExpires.value))] else [])
  }

  /** `toJSON`'s transform: the password and every token property is gone,
      every other property is kept with its value. */
  function Redact(doc: Document): (r: Document)
    ensures forall k :: k in RedactedKeys ==> Lookup(r, k).None?
    ensures forall k :: k !in RedactedKeys ==> Lookup(r, k) == Lookup(doc, k)
  {
    Remove(doc, RedactedKeys)
  }

  /** A property that is present in the document before the transform is
      present after it exactly when it is not a secret. */
  lemma RedactKeepsPublic(doc: Document, k: Prop)
    requires Lookup(doc, k).Some?
    ensures Lookup(Redact(doc), k).Some? <==> k !in RedactedKeys
  {
  }
}
