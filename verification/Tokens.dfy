/**
 Token claims and their lifetimes. Clock readings are microseconds since the epoch; the claims of
 sections 4.1.4 to 4.1.6 of RFC 7519 are whole seconds, cut off when a token is signed.
 */
module Tokens {
  import opened AuthTypes

  const SECOND := 1_000_000
  const ACCESS_TTL_SECONDS := 15 * 60
  const REFRESH_TTL_SECONDS := 7 * 24 * 60 * 60
  const ISSUER := "arcadia-auth"
  const AUDIENCE := "arcadia"
  const ACCESS := "access"
  const REFRESH := "refresh"

  /** A signed payload; whoever holds the secret may have left any of these out. */
  datatype Claims = Claims(
    typ: Option<string>,
    sub: Option<Id>,
    role: Option<Role>,
    iss: Option<string>,
    aud: Option<string>,
    iat: Option<int>,
    nbf: Option<int>,
    exp: Option<int>,
    jti: Option<string>)

  /** What a client sends: a payload under a good signature, or anything else. */
  datatype Token = Signed(claims: Claims) | Garbage

  datatype Decoded = Accepted(claims: Claims) | TokenError

  // ---- signing -----------------------------------------------------------

  function Seconds(now: nat): nat {
    now / SECOND
  }

  /** `_sign` */
  function Sign(typ: string, sub: Id, role: Option<Role>, ttlSeconds: nat, jti: string, now: nat): Claims {
    Claims(Some(typ), Some(sub), role, Some(ISSUER), Some(AUDIENCE),
           Some(Seconds(now)), Some(Seconds(now)), Some(Seconds(now + ttlSeconds * SECOND)), Some(jti))
  }

  function AccessToken(user: Id, role: Role, jti: string, now: nat): Claims {
    Sign(ACCESS, user, Some(role), ACCESS_TTL_SECONDS, jti, now)
  }

  function RefreshToken(user: Id, jti: string, now: nat): Claims {
    Sign(REFRESH, user, None, REFRESH_TTL_SECONDS, jti, now)
  }

  // ---- decoding ----------------------------------------------------------

  /** The checks of the library: a claim about time that is absent is not checked, the issuer and the
      audience must be there. */
  predicate InForce(c: Claims, now: nat) {
    && (c.iat.Some? ==> c.iat.value * SECOND <= now)
    && (c.nbf.Some? ==> c.nbf.value * SECOND <= now)
    && (c.exp.Some? ==> now < c.exp.value * SECOND)
    && c.iss == Some(ISSUER)
    && c.aud == Some(AUDIENCE)
  }

  /** `_decode` */
  function Decode(token: Token, expected: string, now: nat): Decoded {
    if token.Garbage? || !InForce(token.claims, now) then TokenError
    else if token.claims.typ != Some(expected) then TokenError
    else Accepted(token.claims)
  }

  lemma WholeSeconds(now: nat, ttlSeconds: nat)
    ensures Seconds(now + ttlSeconds * SECOND) == Seconds(now) + ttlSeconds
    ensures Seconds(now) * SECOND <= now < (Seconds(now) + 1) * SECOND
  {
    assert now + ttlSeconds * SECOND == SECOND * (Seconds(now) + ttlSeconds) + now % SECOND;
  }

  /** Exactly when a signed token is accepted: under its own type, from the second it was signed in and
      for as many whole seconds as its lifetime -- so never for longer than the lifetime after signing,
      and for less than it by under a second. */
  lemma AcceptedExactlyInItsWindow(typ: string, sub: Id, role: Option<Role>, ttlSeconds: nat, jti: string, signedAt: nat,
                                   expected: string, t: nat)
    ensures var claims := Sign(typ, sub, role, ttlSeconds, jti, signedAt);
      Decode(Signed(claims), expected, t) ==
        if typ == expected && Seconds(signedAt) * SECOND <= t < (Seconds(signedAt) + ttlSeconds) * SECOND
        then Accepted(claims) else TokenError
    ensures (Seconds(signedAt) + ttlSeconds) * SECOND <= signedAt + ttlSeconds * SECOND
    ensures signedAt + ttlSeconds * SECOND < (Seconds(signedAt) + ttlSeconds + 1) * SECOND
  {
    WholeSeconds(signedAt, ttlSeconds);
  }

  /** A refresh token is never an access token, and carries no role that could go stale. */
  lemma RefreshTokensGrantNothing(user: Id, jti: string, signedAt: nat, t: nat)
    ensures Decode(Signed(RefreshToken(user, jti, signedAt)), ACCESS, t) == TokenError
    ensures Decode(Signed(RefreshToken(user, jti, signedAt)), REFRESH, t).Accepted? ==>
      Decode(Signed(RefreshToken(user, jti, signedAt)), REFRESH, t).claims.role == None
  {}

  // ---- the two kinds of token --------------------------------------------

  /** Signed by this service at that moment, for so many seconds. */
  predicate SignedFor(c: Claims, typ: string, sub: Id, role: Option<Role>, jti: string, signedAt: nat, seconds: nat) {
    && c.typ == Some(typ) && c.sub == Some(sub) && c.role == role && c.jti == Some(jti)
    && c.iss == Some("arcadia-auth") && c.aud == Some("arcadia")
    && c.iat == Some(signedAt / 1_000_000) && c.nbf == Some(signedAt / 1_000_000)
    && c.exp == Some(signedAt / 1_000_000 + seconds)
  }

  /** A quarter of an hour, with the role the account has. */
  predicate IsAccessToken(c: Claims, sub: Id, role: Role, jti: string, signedAt: nat) {
    SignedFor(c, "access", sub, Some(role), jti, signedAt, 900)
  }

  /** A week, with no role. */
  predicate IsRefreshToken(c: Claims, sub: Id, jti: string, signedAt: nat) {
    SignedFor(c, "refresh", sub, None, jti, signedAt, 604_800)
  }

  /** What is signed says whose it is and how long it is good for. */
  lemma TokensSay(user: Id, role: Role, a: string, r: string, now: nat)
    ensures IsAccessToken(AccessToken(user, role, a, now), user, role, a, now)
    ensures IsRefreshToken(RefreshToken(user, r, now), user, r, now)
  {
    WholeSeconds(now, 900);
    WholeSeconds(now, 604_800);
  }

  /** Exactly when any signed token is taken as an access token or as a refresh token, whoever signed it: of
      that kind, from this issuer, for this audience, and not before or after the times it names. */
  lemma AcceptedIff(c: Claims, expected: string, now: nat)
    ensures Decode(Signed(c), expected, now).Accepted? <==>
      && c.typ == Some(expected) && c.iss == Some("arcadia-auth") && c.aud == Some("arcadia")
      && (forall from :: c.iat == Some(from) || c.nbf == Some(from) ==> from * 1_000_000 <= now)
      && (forall until :: c.exp == Some(until) ==> now < until * 1_000_000)
    ensures Decode(Signed(c), expected, now).Accepted? ==> Decode(Signed(c), expected, now).claims == c
    ensures Decode(Garbage, expected, now) == TokenError
  {
    assert c.iat.Some? ==> c.iat == Some(c.iat.value);
    assert c.nbf.Some? ==> c.nbf == Some(c.nbf.value);
    assert c.exp.Some? ==> c.exp == Some(c.exp.value);
  }

  /** So an access token is good from the second it was signed in for fifteen minutes, and a refresh token for a
      week, each as what it is. */
  lemma Lifetimes(c: Claims, sub: Id, role: Role, jti: string, signedAt: nat, t: nat)
    ensures IsAccessToken(c, sub, role, jti, signedAt) ==>
      (Decode(Signed(c), "access", t).Accepted? <==> signedAt / 1_000_000 <= t / 1_000_000 < signedAt / 1_000_000 + 900)
      && Decode(Signed(c), "refresh", t) == TokenError
    ensures IsRefreshToken(c, sub, jti, signedAt) ==>
      (Decode(Signed(c), "refresh", t).Accepted? <==> signedAt / 1_000_000 <= t / 1_000_000 < signedAt / 1_000_000 + 604_800)
      && Decode(Signed(c), "access", t) == TokenError
  {
    SecondsCompare(signedAt / 1_000_000, t);
    SecondsCompare(signedAt / 1_000_000 + 900, t);
    SecondsCompare(signedAt / 1_000_000 + 604_800, t);
  }

  lemma SecondsCompare(seconds: int, t: nat)
    ensures seconds * 1_000_000 <= t <==> seconds <= t / 1_000_000
  {
    assert t == 1_000_000 * (t / 1_000_000) + t % 1_000_000;
  }
}
