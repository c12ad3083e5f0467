/** Signing in, refreshing and logging out, each against the readings of the clock it takes. */
module SessionUseCases {
  import opened AuthTypes
  import A = Accounts
  import Entities = AuthEntities
  import Text
  import opened Tokens
  import opened Redis
  import opened Revocation
  import opened UserRepository
  import opened CommandMeanings

  /** `RedisTokenBlacklist` */
  class TokenBlacklist {
    const client: Client

    constructor (client: Client)
      ensures this.client == client
    {
      this.client := client;
    }

    method Revoke(jti: string, ttlSeconds: nat, at: nat)
      requires 0 < ttlSeconds
      modifies client
      ensures client.keys == SetKey(old(client.keys), RevokedKey(jti), ttlSeconds, at)
    {
      client.Set(REVOKED_PREFIX + jti, ttlSeconds, at);
    }

    method IsRevoked(jti: string, at: nat) returns (revoked: bool)
      ensures revoked <==> Live(client.keys, RevokedKey(jti), at)
    {
      var count := client.Exists(REVOKED_PREFIX + jti, at);
      revoked := count == 1;
    }
  }

  datatype LoginOutcome =
    | LoggedIn(access: Claims, refresh: Claims)
    | InvalidCredentials
    | AccountNotUsable(state: UserState)

  /** This account, under the address as typed, with its own password. */
  ghost predicate Proven(users: map<Id, Account>, verify: (string, string) -> bool, email: string, password: string, id: Id) {
    Known(users, email, id) && verify(password, users[id].passwordHash)
  }

  /** What signing in answers: tokens exactly for an ACTIVE account under the address whose hash the password fits,
      its state when only that is in the way, and otherwise one answer for an unknown address and a wrong password. */
  ghost predicate SignInMeans(users: map<Id, Account>, verify: (string, string) -> bool, email: string, password: string,
                              outcome: LoginOutcome) {
    && (outcome.LoggedIn? <==> exists id :: Proven(users, verify, email, password, id) && users[id].state == Active)
    && (outcome == InvalidCredentials <==> !exists id :: Proven(users, verify, email, password, id))
    && (forall state :: outcome == AccountNotUsable(state) <==>
          state != Active && exists id :: Proven(users, verify, email, password, id) && users[id].state == state)
  }

  /** The tokens are that account's own, with its role. */
  ghost predicate TokensAreOf(users: map<Id, Account>, email: string, outcome: LoginOutcome, accessJti: string,
                              refreshJti: string, now: nat) {
    outcome.LoggedIn? ==>
      exists id ::
        && Known(users, email, id)
        && IsAccessToken(outcome.access, id, users[id].role, accessJti, now)
        && IsRefreshToken(outcome.refresh, id, refreshJti, now)
  }

  lemma NobodyIsProven(users: map<Id, Account>, verify: (string, string) -> bool, email: string, password: string)
    requires forall id :: id in users ==> users[id].email != Text.NormalizeEmail(email)
    ensures forall id :: !Proven(users, verify, email, password, id)
  {
    forall id ensures !Proven(users, verify, email, password, id) {
      KnownByItsForm(users, email, id);
    }
  }

  lemma OneIsProven(users: map<Id, Account>, verify: (string, string) -> bool, email: string, password: string, id: Id)
    requires UniqueEmails(users) && id in users && users[id].email == Text.NormalizeEmail(email)
    ensures Known(users, email, id)
    ensures forall k :: Proven(users, verify, email, password, k) <==> k == id && verify(password, users[id].passwordHash)
  {
    forall k ensures Known(users, email, k) <==> k == id {
      KnownByItsForm(users, email, k);
    }
  }

  class LoginUseCase {
    const repo: Repository
    /** bcrypt: whether a password fits a hash. */
    const verify: (string, string) -> bool

    constructor (repo: Repository, verify: (string, string) -> bool)
      ensures this.repo == repo && this.verify == verify
    {
      this.repo, this.verify := repo, verify;
    }

    /** What an account gets for the right password. */
    function Welcome(row: Account, accessJti: string, refreshJti: string, now: nat): LoginOutcome {
      if row.state != Active then AccountNotUsable(row.state)
      else LoggedIn(AccessToken(row.id, row.role, accessJti, now), RefreshToken(row.id, refreshJti, now))
    }

    /** What the account under this address gets. */
    function Answer(row: Account, password: string, accessJti: string, refreshJti: string, now: nat): LoginOutcome {
      if !verify(password, row.passwordHash) then InvalidCredentials else Welcome(row, accessJti, refreshJti, now)
    }

    /** The audit row of an attempt: whose account it was, if anybody's, and whether tokens were signed. */
    ghost predicate Audited(before: seq<AuditRow>, userId: Option<Id>, ip: string, outcome: LoginOutcome)
      reads repo
    {
      repo.audit == before + [AuditRow(userId, ip, outcome.LoggedIn?)]
    }

    /** What happens once the account was read and the password checked: one audit row, and on a usable account
        the tokens. */
    method Conclude(user: Entities.User?, matches: bool, ip: string, accessJti: string, refreshJti: string, now: nat)
      returns (outcome: LoginOutcome)
      requires repo.Valid() && (matches ==> user != null)
      modifies repo`audit
      ensures repo.Valid() && (user == null ==> outcome == InvalidCredentials)
      ensures Audited(old(repo.audit), if user == null then None else Some(user.id), ip, outcome)
      ensures user != null && !matches ==> outcome == InvalidCredentials
      ensures user != null && matches ==> outcome == Welcome(user.Value(), accessJti, refreshJti, now)
    {
      if !matches {
        repo.RecordLoginAudit(if user == null then None else Some(user.id), ip, false);
        return InvalidCredentials;
      }
      if !user.CanLogin() {
        repo.RecordLoginAudit(Some(user.id), ip, false);
        return AccountNotUsable(user.state);
      }
      repo.RecordLoginAudit(Some(user.id), ip, true);
      outcome := LoggedIn(AccessToken(user.id, user.role, accessJti, now), RefreshToken(user.id, refreshJti, now));
    }

    /** Every attempt leaves exactly one audit row, and it says success exactly when tokens were signed. */
    method Execute(email: string, password: string, ip: string, accessJti: string, refreshJti: string, now: nat)
      returns (outcome: LoginOutcome)
      requires repo.Valid()
      modifies repo`audit
      ensures repo.Valid()
      ensures !A.EmailTaken(repo.Contents(), Text.NormalizeEmail(email)) ==>
        outcome == InvalidCredentials && Audited(old(repo.audit), None, ip, outcome)
      ensures forall id :: id in repo.users && repo.users[id].email == Text.NormalizeEmail(email) ==>
        && outcome == Answer(repo.users[id], password, accessJti, refreshJti, now)
        && Audited(old(repo.audit), Some(id), ip, outcome)
      ensures SignInMeans(repo.users, verify, email, password, outcome)
      ensures TokensAreOf(repo.users, email, outcome, accessJti, refreshJti, now)
    {
      var user := repo.GetByEmail(Text.NormalizeEmail(email));
      var matches := user != null && verify(password, user.passwordHash);
      outcome := Conclude(user, matches, ip, accessJti, refreshJti, now);
      AnswerMeans(repo.users, user, email, password, accessJti, refreshJti, now, outcome);
    }

    lemma AnswerMeans(users: map<Id, Account>, user: Entities.User?, email: string, password: string, accessJti: string,
                      refreshJti: string, now: nat, outcome: LoginOutcome)
      requires UniqueEmails(users) && forall id :: id in users ==> users[id].id == id
      requires user == null ==> outcome == InvalidCredentials
      requires user == null ==> forall id :: id in users ==> users[id].email != Text.NormalizeEmail(email)
      requires user != null ==> user.id in users && users[user.id].email == Text.NormalizeEmail(email)
      requires user != null ==> outcome == Answer(users[user.id], password, accessJti, refreshJti, now)
      ensures SignInMeans(users, verify, email, password, outcome)
      ensures TokensAreOf(users, email, outcome, accessJti, refreshJti, now)
    {
      if user == null {
        NobodyIsProven(users, verify, email, password);
      } else {
        OneIsProven(users, verify, email, password, user.id);
        assert Proven(users, verify, email, password, user.id) <==> verify(password, users[user.id].passwordHash);
        TokensSay(user.id, users[user.id].role, accessJti, refreshJti, now);
      }
    }
  }

  datatype RefreshOutcome = Minted(claims: Claims) | Refused | NoSubject | NoSuchUser

  class RefreshTokenUseCase {
    const repo: Repository
    const blacklist: TokenBlacklist

    constructor (repo: Repository, blacklist: TokenBlacklist)
      ensures this.repo == repo && this.blacklist == blacklist
    {
      this.repo, this.blacklist := repo, blacklist;
    }

    /** The checks on the token itself: decoded at one reading, looked up at a later one. */
    method Admit(token: Token, decodedAt: nat, checkedAt: nat) returns (admitted: bool)
      ensures admitted <==> Passes(token, blacklist.client.keys, decodedAt, checkedAt)
    {
      var decoded := Decode(token, REFRESH, decodedAt);
      if decoded.TokenError? {
        return false;
      }
      var jti := decoded.claims.jti;
      if jti.Some? && jti.value != "" {
        var revoked := blacklist.IsRevoked(jti.value, checkedAt);
        return !revoked;
      }
      admitted := true;
    }

    /** The checks on its account, and the new token. */
    method MintFor(sub: Option<Id>, jti: string, signedAt: nat) returns (outcome: RefreshOutcome)
      requires repo.Valid()
      ensures outcome == NoSubject <==> sub == None
      ensures outcome == NoSuchUser <==> sub.Some? && sub.value !in repo.users
      ensures outcome == Refused <==> sub.Some? && sub.value in repo.users && repo.users[sub.value].state != Active
      ensures outcome.Minted? ==> outcome.claims == AccessToken(sub.value, repo.users[sub.value].role, jti, signedAt)
    {
      if sub == None {
        return NoSubject;
      }
      var user := repo.GetById(sub.value);
      if user == null {
        return NoSuchUser;
      }
      if !user.CanLogin() {
        return Refused;
      }
      outcome := Minted(AccessToken(user.id, user.role, jti, signedAt));
    }

    /** A new access token exactly for a live, unrevoked refresh token of an account that is ACTIVE, with
        the role the account has now. */
    method Execute(token: Token, decodedAt: nat, checkedAt: nat, jti: string, signedAt: nat)
      returns (outcome: RefreshOutcome)
      requires repo.Valid()
      ensures !Passes(token, blacklist.client.keys, decodedAt, checkedAt) ==> outcome == Refused
      ensures Passes(token, blacklist.client.keys, decodedAt, checkedAt) ==>
        var sub := token.claims.sub;
        && (outcome == NoSubject <==> sub == None)
        && (outcome == NoSuchUser <==> sub.Some? && sub.value !in repo.users)
        && (outcome == Refused <==> sub.Some? && sub.value in repo.users && repo.users[sub.value].state != Active)
        && (outcome.Minted? ==> outcome.claims == AccessToken(sub.value, repo.users[sub.value].role, jti, signedAt))
    {
      var admitted := Admit(token, decodedAt, checkedAt);
      if !admitted {
        return Refused;
      }
      outcome := MintFor(token.claims.sub, jti, signedAt);
    }
  }

  class LogoutUseCase {
    const blacklist: TokenBlacklist

    constructor (blacklist: TokenBlacklist)
      ensures this.blacklist == blacklist
    {
      this.blacklist := blacklist;
    }

    /** Decoded at one reading, measured at the next, stored at the last. */
    method Execute(token: Token, decodedAt: nat, readAt: nat, setAt: nat) returns (ok: bool)
      requires decodedAt <= readAt <= setAt
      modifies blacklist.client
      ensures ok <==> Decode(token, REFRESH, decodedAt).Accepted?
      ensures ok && Revocable(token.claims) ==>
        && blacklist.client.keys == SetKey(old(blacklist.client.keys), RevokedKey(token.claims.jti.value),
                                           LogoutTtl(token.claims.exp.value, readAt), setAt)
        && blacklist.client.keys[RevokedKey(token.claims.jti.value)] + SECOND > token.claims.exp.value * SECOND
      ensures !ok || !Revocable(token.claims) ==> blacklist.client.keys == old(blacklist.client.keys)
    {
      var decoded := Decode(token, REFRESH, decodedAt);
      if decoded.TokenError? {
        return false;
      }
      ok := true;
      var claims := decoded.claims;
      if !Revocable(claims) {
        return;
      }
      var ttl := Truncated(claims.exp.value * SECOND - readAt);
      if ttl < 1 {
        ttl := 1;
      }
      blacklist.Revoke(claims.jti.value, ttl, setAt);
      LapseAgainstExpiry(claims.exp.value, readAt, setAt);
    }
  }
}
