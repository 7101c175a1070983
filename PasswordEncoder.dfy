/** A stand-in for `BCryptPasswordEncoder`. A digest is the bcrypt version and
    cost marker, then the salt as a decimal field ending in '$', then the raw
    password. The salt is drawn at random by the real encoder; here it is a
    parameter. The stand-in keeps what callers rely on: a digest matches the
    password it was made from, matches no other password, and is never equal
    to the password. It is not one-way. */
module PasswordEncoder {
  import opened Wrappers
  import opened Text

  const BCRYPT_PREFIX: string := "$2a$10$"

  function Encode(salt: nat, raw: string): (digest: string)
    ensures |digest| > |raw|
  {
    BCRYPT_PREFIX + Field(salt, '$', raw)
  }

  /** `matches(raw, encoded)`: false for any digest that is not well formed. */
  predicate Matches(raw: string, encoded: string) {
    && StartsWith(encoded, BCRYPT_PREFIX)
    && match ParseField(encoded[|BCRYPT_PREFIX|..], '$')
       case None => false
       case Some((_, password)) => password == raw
  }

  lemma EncodeParts(salt: nat, raw: string)
    ensures StartsWith(Encode(salt, raw), BCRYPT_PREFIX)
    ensures ParseField(Encode(salt, raw)[|BCRYPT_PREFIX|..], '$') == Some((salt, raw))
  {
    var d := Encode(salt, raw);
    assert d[..|BCRYPT_PREFIX|] == BCRYPT_PREFIX;
    assert d[|BCRYPT_PREFIX|..] == Field(salt, '$', raw);
    ParseFieldOfField(salt, '$', raw);
  }

  /** A password matches every digest made from it. */
  lemma MatchesEncode(salt: nat, raw: string)
    ensures Matches(raw, Encode(salt, raw))
  {
    EncodeParts(salt, raw);
  }

  /** A digest matches only the password it was made from. */
  lemma MatchesOnlyItsPassword(salt: nat, raw: string, other: string)
    requires Matches(other, Encode(salt, raw))
    ensures other == raw
  {
    EncodeParts(salt, raw);
  }

  /** The stored digest never equals the plaintext. */
  lemma EncodeDiffersFromRaw(salt: nat, raw: string)
    ensures Encode(salt, raw) != raw
  {
  }
}
