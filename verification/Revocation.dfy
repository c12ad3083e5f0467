/** Logging out of a refresh token: how long the blacklist key lives against how long the token does. */
module Revocation {
  import opened AuthTypes
  import opened Tokens
  import opened Redis

  /** `int(seconds)` of a difference of clock readings: Python cuts towards zero. */
  function Truncated(micros: int): int {
    if micros >= 0 then micros / SECOND else -((-micros) / SECOND)
  }

  /** `max(int(exp - time.time()), 1)` */
  function LogoutTtl(exp: int, readAt: nat): (ttl: nat)
    ensures ttl >= 1
  {
    if Truncated(exp * SECOND - readAt) >= 1 then Truncated(exp * SECOND - readAt) else 1
  }

  /** There is an id to revoke and an expiry to measure by. */
  predicate Revocable(claims: Claims) {
    claims.jti.Some? && claims.jti.value != "" && claims.exp.Some? && claims.exp.value != 0
  }

  /** When the key of a logout lapses. */
  function Lapse(exp: int, readAt: nat, setAt: nat): nat {
    setAt + LogoutTtl(exp, readAt) * SECOND
  }

  /** The key lapses less than a second before the token does; exactly when it lapses no earlier: the
      fraction of a second that was cut off is made up by the time it took to reach Redis, or the token
      had less than a second to live. A logout on a whole second is one such case. */
  lemma LapseAgainstExpiry(exp: int, readAt: nat, setAt: nat)
    requires readAt <= setAt
    ensures Lapse(exp, readAt, setAt) > exp * SECOND - SECOND
    ensures var left := exp * SECOND - readAt;
      Lapse(exp, readAt, setAt) >= exp * SECOND <==> left < SECOND || left % SECOND <= setAt - readAt
    ensures readAt % SECOND == 0 ==> Lapse(exp, readAt, setAt) >= exp * SECOND
  {
    var left := exp * SECOND - readAt;
    assert left % SECOND == if readAt % SECOND == 0 then 0 else SECOND - readAt % SECOND;
    if left >= SECOND {
      assert left == SECOND * (left / SECOND) + left % SECOND;
    }
  }

  /** A refresh gets past the token checks: it is decoded at one reading and looked up at a later one. */
  predicate Passes(token: Token, keys: Keys, decodedAt: nat, checkedAt: nat) {
    && Decode(token, REFRESH, decodedAt).Accepted?
    && (var jti := token.claims.jti; jti.Some? && jti.value != "" ==> !Live(keys, RevokedKey(jti.value), checkedAt))
  }

  /** From the logout until the key lapses, and from the token's expiry on, every refresh is refused. */
  lemma RefusedWhileTheKeyLives(user: Id, jti: string, signedAt: nat, keys: Keys, decodedAt: nat, checkedAt: nat)
    requires jti != ""
    requires var exp := RefreshToken(user, jti, signedAt).exp.value;
      (RevokedKey(jti) in keys && checkedAt < keys[RevokedKey(jti)]) || exp * SECOND <= decodedAt
    ensures !Passes(Signed(RefreshToken(user, jti, signedAt)), keys, decodedAt, checkedAt)
  {}

  /** Exactly when a logout holds for ever against refreshes that take up to `lag` from decoding the token
      to looking it up: the key outlives the token by that much, or the token had expired anyway. */
  lemma RevokedForGood(user: Id, jti: string, signedAt: nat, keys: Keys, setAt: nat, lag: nat)
    requires jti != "" && RevokedKey(jti) in keys && signedAt <= setAt
    ensures var token := RefreshToken(user, jti, signedAt);
      (forall d: nat, e: nat :: setAt <= d <= e <= d + lag ==> !Passes(Signed(token), keys, d, e))
      <==> keys[RevokedKey(jti)] >= token.exp.value * SECOND + lag || token.exp.value * SECOND <= setAt
  {
    var token, lapse := RefreshToken(user, jti, signedAt), keys[RevokedKey(jti)];
    var end := token.exp.value * SECOND;
    WholeSeconds(signedAt, REFRESH_TTL_SECONDS);
    if lapse < end + lag && setAt < end {
      var d: nat := end - 1;
      var e: nat := if lapse <= d then d else lapse;
      assert Passes(Signed(token), keys, d, e);
    }
  }

  /** A logout half a second past the whole leaves the last half second of the token's week open. */
  lemma HalfASecondIsLeftOpen(user: Id, jti: string)
    requires jti != ""
    ensures var token := RefreshToken(user, jti, 0);
      var readAt, exp := 500_000, token.exp.value;
      var keys := SetKey(map[], RevokedKey(jti), LogoutTtl(exp, readAt), readAt);
      && Decode(Signed(token), REFRESH, readAt).Accepted?
      && Passes(Signed(token), keys, exp * SECOND - 500_000, exp * SECOND - 500_000)
  {}

  /** A second logout under the same id that names a nearer expiry shortens the key: then the first one does not
      hold. */
  lemma AnotherExpiryReopens(user: Id, jti: string, exp: int, at: nat)
    requires jti != "" && 0 < exp && at == exp * SECOND && exp < REFRESH_TTL_SECONDS
    ensures var token, key := RefreshToken(user, jti, 0), RevokedKey(jti);
      var first := SetKey(map[], key, LogoutTtl(token.exp.value, 0), 0);
      var second := SetKey(first, key, LogoutTtl(exp, 0), 0);
      !Passes(Signed(token), first, at, at) && Passes(Signed(token), second, at, at)
  {}
}
