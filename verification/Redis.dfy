/** The one Redis database of the service: keys that lapse, under two prefixes. */
module Redis {
  import opened Tokens

  /** Each key with the instant it lapses at. */
  type Keys = map<string, nat>

  const REVOKED_PREFIX := "auth:revoked_jti:"
  const PRESENCE_PREFIX := "presence:online:"

  function RevokedKey(jti: string): string {
    REVOKED_PREFIX + jti
  }

  function PresenceKey(user: string): string {
    PRESENCE_PREFIX + user
  }

  /** SET key 1 EX ttl */
  function SetKey(keys: Keys, key: string, ttlSeconds: nat, at: nat): Keys {
    keys[key := at + ttlSeconds * SECOND]
  }

  /** EXISTS key */
  predicate Live(keys: Keys, key: string, at: nat) {
    key in keys && at < keys[key]
  }

  /** Distinct tokens and distinct users have distinct keys, and none of one kind is ever one of the other. */
  lemma KeysNeverCollide(a: string, b: string)
    ensures RevokedKey(a) == RevokedKey(b) ==> a == b
    ensures PresenceKey(a) == PresenceKey(b) ==> a == b
    ensures RevokedKey(a) != PresenceKey(b)
  {
    assert RevokedKey(a)[|REVOKED_PREFIX|..] == a && RevokedKey(b)[|REVOKED_PREFIX|..] == b;
    assert PresenceKey(a)[|PRESENCE_PREFIX|..] == a && PresenceKey(b)[|PRESENCE_PREFIX|..] == b;
    assert RevokedKey(a)[0] == 'a' && PresenceKey(b)[0] == 'p';
  }

  class Client {
    var keys: Keys

    constructor ()
      ensures keys == map[]
    {
      keys := map[];
    }

    method Set(key: string, ttlSeconds: nat, at: nat)
      requires 0 < ttlSeconds
      modifies this
      ensures keys == SetKey(old(keys), key, ttlSeconds, at)
    {
      keys := keys[key := at + ttlSeconds * SECOND];
    }

    method Exists(key: string, at: nat) returns (count: nat)
      ensures count == if Live(keys, key, at) then 1 else 0
    {
      count := if key in keys && at < keys[key] then 1 else 0;
    }
  }
}
