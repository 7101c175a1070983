/** The session-token codec of `JwtTokenUtil`: issue a signed, time-limited
    token for an email, validate it, and read its subject back.

    The compact encoding and the signature are a stand-in for HS256 JSON Web
    Tokens: a token is the decimal issue time, expiration time and signing-key
    identifier, each followed by '.', and then the subject. A token counts as
    signed by a key when it carries that key's identifier. The clock is read
    in milliseconds and passed in by the caller; like a JWT's NumericDate, the
    issue and expiration claims are whole seconds, the milliseconds dropped.
    `generateToken` reads the clock twice, once per date (`TokenClock`). */
module Jwt {
  import opened Wrappers
  import opened Text

  /** Token lifetime: one minute. */
  const EXPIRATION_TIME: nat := 1000 * 60

  /** Issue and expiration times in whole seconds. */
  datatype Claims = Claims(subject: string, issuedAt: nat, expiration: nat)

  /** A clock reading in milliseconds as a NumericDate claim: whole seconds. */
  function NumericDate(millis: nat): nat {
    millis / 1000
  }

  /** The two clock readings of one `generateToken` call, in milliseconds:
      `new Date()` for the issue date, then `System.currentTimeMillis()` for
      the expiration. */
  datatype TokenClock = TokenClock(issuedAt: nat, expiresFrom: nat)

  /** Two calls whose readings fall in the same seconds, date by date. */
  predicate SameSeconds(c1: TokenClock, c2: TokenClock) {
    NumericDate(c1.issuedAt) == NumericDate(c2.issuedAt) && NumericDate(c1.expiresFrom) == NumericDate(c2.expiresFrom)
  }

  /** The last instant, in milliseconds, at which a token issued with the
      readings `clock` validates: the start of the expiration claim's second,
      which lies up to 999 ms before a minute after the second reading. */
  function ExpiryInstant(clock: TokenClock): (instant: nat)
    ensures clock.expiresFrom + EXPIRATION_TIME - 999 <= instant <= clock.expiresFrom + EXPIRATION_TIME
    ensures instant % 1000 == 0
  {
    NumericDate(clock.expiresFrom + EXPIRATION_TIME) * 1000
  }

  /** Adding the lifetime moves the claim by exactly 60 seconds. */
  lemma NumericDateAfterLifetime(now: nat)
    ensures NumericDate(now + EXPIRATION_TIME) == NumericDate(now) + 60
  {
  }

  /** A token parsed at `now` has expired when `now` is after its expiration second. */
  predicate ExpiredAt(claims: Claims, now: nat) {
    now > claims.expiration * 1000
  }

  /** What parsing a token can fail with. `EmptyToken` is jjwt's
      IllegalArgumentException; the others are its JwtException subclasses. */
  datatype JwtError = EmptyToken | Malformed | SignatureMismatch | Expired

  /** A decoded signed token: its claims and the key it was signed with. */
  datatype Jws = Jws(claims: Claims, signingKey: nat)

  function Compact(t: Jws): (token: string)
    ensures token != ""
  {
    Field(t.claims.issuedAt, '.', Field(t.claims.expiration, '.', Field(t.signingKey, '.', t.claims.subject)))
  }

  function Decode(token: string): Option<Jws> {
    match ParseField(token, '.')
    case None => None
    case Some((iat, r1)) =>
      match ParseField(r1, '.')
      case None => None
      case Some((exp, r2)) =>
        match ParseField(r2, '.')
        case None => None
        case Some((key, subject)) => Some(Jws(Claims(subject, iat, exp), key))
  }

  /** Every token starts with a digit, so none is blank. */
  lemma DecodedHasText(token: string)
    ensures Decode(token).Some? ==> HasText(token)
  {
    if Decode(token).Some? {
      ParseFieldLeadingDigit(token, '.');
      assert !IsJavaWhitespace(token[0]);
    }
  }

  lemma DecodeCompact(t: Jws)
    ensures Decode(Compact(t)) == Some(t)
  {
    var c := t.claims;
    ParseFieldOfField(t.signingKey, '.', c.subject);
    ParseFieldOfField(c.expiration, '.', Field(t.signingKey, '.', c.subject));
    ParseFieldOfField(c.issuedAt, '.', Field(c.expiration, '.', Field(t.signingKey, '.', c.subject)));
  }

  /** Two tokens are the same string only when they carry the same claims
      under the same key. */
  lemma CompactInjective(t1: Jws, t2: Jws)
    requires Compact(t1) == Compact(t2)
    ensures t1 == t2
  {
    DecodeCompact(t1);
    DecodeCompact(t2);
  }

  /** One `JwtTokenUtil` component; `key` identifies the HS256 key it draws
      when it is created. */
  datatype JwtTokenUtil = JwtTokenUtil(key: nat) {

    /** `generateToken`: subject `email`, issued at the first reading,
        expiring one minute after the second, signed with this instance's
        key; both dates kept to the second. */
    function GenerateToken(email: string, clock: TokenClock): (token: string)
      ensures Decode(token) == Some(Jws(Claims(email, NumericDate(clock.issuedAt),
                                               NumericDate(clock.expiresFrom + EXPIRATION_TIME)), key))
    {
      var t := Jws(Claims(email, NumericDate(clock.issuedAt), NumericDate(clock.expiresFrom + EXPIRATION_TIME)), key);
      DecodeCompact(t);
      Compact(t)
    }

    /** jjwt's `parseClaimsJws` under this instance's key at time `now`: a
        blank string is refused before anything else, then the structure is
        read, then the signature checked, then the expiration. */
    function ParseClaimsJws(token: string, now: nat): (r: Result<Claims, JwtError>)
      ensures r.Success? <==> Decode(token).Some? && Decode(token).value.signingKey == key
                                && !ExpiredAt(Decode(token).value.claims, now)
      ensures r.Success? ==> r.value == Decode(token).value.claims
      ensures r == Failure(EmptyToken) <==> !HasText(token)
    {
      DecodedHasText(token);
      if !HasText(token) then Failure(EmptyToken)
      else match Decode(token)
        case None => Failure(Malformed)
        case Some(jws) =>
          if jws.signingKey != key then Failure(SignatureMismatch)
          else if ExpiredAt(jws.claims, now) then Failure(Expired)
          else Success(jws.claims)
    }

    /** `validateToken`: true exactly for a well-formed token signed with this
        instance's key and not yet expired; every parse failure, the
        IllegalArgumentException of a blank string included, becomes false. */
    function ValidateToken(token: string, now: nat): (valid: bool)
      ensures valid <==> Decode(token).Some? && Decode(token).value.signingKey == key
                           && now <= Decode(token).value.claims.expiration * 1000
      ensures !HasText(token) ==> !valid
    {
      ParseClaimsJws(token, now).Success?
    }

    /** `getEmailFromToken`: the subject of the parsed token, or the error the
        parse raises. It runs the same parse as `ValidateToken`. */
    function GetEmailFromToken(token: string, now: nat): (r: Result<string, JwtError>)
      ensures r.Success? <==> ValidateToken(token, now)
      ensures r.Success? ==> r.value == Decode(token).value.claims.subject
      ensures r.Failure? ==> r.error == ParseClaimsJws(token, now).error
    {
      match ParseClaimsJws(token, now)
      case Success(claims) => Success(claims.subject)
      case Failure(e) => Failure(e)
    }
  }

  /** A token reads back as the email it was issued for, for its whole lifetime. */
  lemma GetEmailFromGeneratedToken(util: JwtTokenUtil, email: string, clock: TokenClock, now: nat)
    requires now <= ExpiryInstant(clock)
    ensures util.GetEmailFromToken(util.GenerateToken(email, clock), now) == Success(email)
  {
    GeneratedTokenValidates(util, email, clock, now);
  }

  /** A freshly issued token validates under the issuing instance until it expires. */
  lemma GeneratedTokenValidates(util: JwtTokenUtil, email: string, clock: TokenClock, now: nat)
    requires now <= ExpiryInstant(clock)
    ensures util.ValidateToken(util.GenerateToken(email, clock), now)
  {
    var token := util.GenerateToken(email, clock);
    assert Decode(token).value.claims.expiration * 1000 == ExpiryInstant(clock);
  }

  /** After its expiration second a generated token no longer validates, even
      though less than a full minute may have passed since it was issued. */
  lemma GeneratedTokenExpires(util: JwtTokenUtil, email: string, clock: TokenClock, now: nat)
    requires now > ExpiryInstant(clock)
    ensures !util.ValidateToken(util.GenerateToken(email, clock), now)
    ensures util.GetEmailFromToken(util.GenerateToken(email, clock), now) == Failure(Expired)
  {
    var token := util.GenerateToken(email, clock);
    DecodedHasText(token);
    assert ExpiredAt(Decode(token).value.claims, now);
  }

  /** The claims are the issue second and the second a minute after the
      second reading. With readings less than a second apart, the expiration
      claim lies 60 seconds after the issue claim, or 61 when the readings
      straddle a second boundary. */
  lemma GeneratedTokenLifetime(util: JwtTokenUtil, email: string, clock: TokenClock)
    ensures var jws := Decode(util.GenerateToken(email, clock)).value;
            && jws.claims.issuedAt == clock.issuedAt / 1000
            && jws.claims.expiration == clock.expiresFrom / 1000 + 60
            && jws.claims.expiration * 1000 == ExpiryInstant(clock)
            && (NumericDate(clock.issuedAt) == NumericDate(clock.expiresFrom) ==>
                  jws.claims.expiration == jws.claims.issuedAt + 60)
            && (clock.issuedAt <= clock.expiresFrom < clock.issuedAt + 1000
                && NumericDate(clock.issuedAt) != NumericDate(clock.expiresFrom) ==>
                  jws.claims.expiration == jws.claims.issuedAt + 61)
  {
    NumericDateAfterLifetime(clock.expiresFrom);
  }

  /** Readings of 999 ms and 1000 ms give a token that lives 61 seconds on paper. */
  lemma StraddlingReadingsLiveLonger(util: JwtTokenUtil, email: string)
    ensures var jws := Decode(util.GenerateToken(email, TokenClock(999, 1000))).value;
            jws.claims.issuedAt == 0 && jws.claims.expiration == 61
  {
  }

  /** Once past its expiration a token never validates, whoever issued it. */
  lemma ExpiredTokenInvalid(util: JwtTokenUtil, token: string, now: nat)
    requires Decode(token).Some? && now > Decode(token).value.claims.expiration * 1000
    ensures !util.ValidateToken(token, now)
    ensures util.GetEmailFromToken(token, now) == Failure(Expired) || util.GetEmailFromToken(token, now) == Failure(SignatureMismatch)
  {
  }

  /** A token issued by one instance never validates under another instance's key. */
  lemma ForeignTokenInvalid(issuer: JwtTokenUtil, other: JwtTokenUtil, email: string, issued: TokenClock, now: nat)
    requires issuer.key != other.key
    ensures !other.ValidateToken(issuer.GenerateToken(email, issued), now)
    ensures other.GetEmailFromToken(issuer.GenerateToken(email, issued), now) == Failure(SignatureMismatch)
  {
    DecodedHasText(issuer.GenerateToken(email, issued));
  }

  /** A blank string is refused with jjwt's IllegalArgumentException: validation
      answers false and reading the subject fails with that error. */
  lemma BlankTokenRejected(util: JwtTokenUtil, token: string, now: nat)
    requires !HasText(token)
    ensures !util.ValidateToken(token, now)
    ensures util.GetEmailFromToken(token, now) == Failure(EmptyToken)
  {
  }

  /** On a string that is not a token, validation answers false and reading
      the subject fails. */
  lemma MalformedTokenRejected(util: JwtTokenUtil, token: string, now: nat)
    requires Decode(token).None?
    ensures !util.ValidateToken(token, now)
    ensures util.GetEmailFromToken(token, now).Failure?
    ensures util.GetEmailFromToken(token, now).error in {EmptyToken, Malformed}
  {
  }

  /** The malformed-token case of the codec's test, on its own input. */
  lemma {:induction false} InvalidJwtTokenRejected(util: JwtTokenUtil, now: nat)
    ensures !util.ValidateToken("invalidJwtToken", now)
    ensures util.GetEmailFromToken("invalidJwtToken", now) == Failure(Malformed)
  {
    var s := "invalidJwtToken";
    assert !IsJavaWhitespace(s[0]);
    assert forall i :: 0 <= i < |s| ==> s[i] != '.';
    var r := IndexOf(s, '.');
    assert r.None?;
    assert ParseField(s, '.') == None;
    assert Decode(s) == None;
  }

  /** Issuing a token is deterministic and sees the clock only to the second:
      one instance gives two requests the same string exactly when they are
      for the same email and their readings fall in the same seconds. */
  lemma GenerateTokenInjective(util: JwtTokenUtil, e1: string, c1: TokenClock, e2: string, c2: TokenClock)
    ensures util.GenerateToken(e1, c1) == util.GenerateToken(e2, c2) <==> e1 == e2 && SameSeconds(c1, c2)
  {
    if util.GenerateToken(e1, c1) == util.GenerateToken(e2, c2) {
      SameTokenSameSeconds(util, e1, c1, e2, c2);
    }
    if e1 == e2 && SameSeconds(c1, c2) {
      SameSecondsSameToken(util, e1, c1, c2);
    }
  }

  lemma SameTokenSameSeconds(util: JwtTokenUtil, e1: string, c1: TokenClock, e2: string, c2: TokenClock)
    requires util.GenerateToken(e1, c1) == util.GenerateToken(e2, c2)
    ensures e1 == e2 && SameSeconds(c1, c2)
  {
    var d1 := Decode(util.GenerateToken(e1, c1)).value;
    var d2 := Decode(util.GenerateToken(e2, c2)).value;
    assert d1 == d2;
    NumericDateAfterLifetime(c1.expiresFrom);
    NumericDateAfterLifetime(c2.expiresFrom);
  }

  lemma SameSecondsSameToken(util: JwtTokenUtil, email: string, c1: TokenClock, c2: TokenClock)
    requires SameSeconds(c1, c2)
    ensures util.GenerateToken(email, c1) == util.GenerateToken(email, c2)
  {
    NumericDateAfterLifetime(c1.expiresFrom);
    NumericDateAfterLifetime(c2.expiresFrom);
    GenerateTokenIsCompact(util, email, c1);
    GenerateTokenIsCompact(util, email, c2);
  }

  lemma GenerateTokenIsCompact(util: JwtTokenUtil, email: string, clock: TokenClock)
    ensures util.GenerateToken(email, clock)
              == Compact(Jws(Claims(email, NumericDate(clock.issuedAt), NumericDate(clock.expiresFrom + EXPIRATION_TIME)), util.key))
  {
  }
}
