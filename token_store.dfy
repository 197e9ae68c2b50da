/** `redisProvider`: refresh tokens and the access-token blacklist, stored in
    the cache under the SHA-256 digest of the token. The digest is a parameter
    (`hash`); nothing below depends on what it computes. */
module TokenStore {
  import opened Wrappers
  import Cache
  import Clock

  /** Seven days. */
  const RefreshTtlSeconds: int := 7 * 24 * 60 * 60

  function RefreshKey(hashed: string): string { "refresh_token:" + hashed }
  function BlacklistKey(hashed: string): string { "blacklist:" + hashed }

  /** The two key families never meet, whatever the digests. */
  lemma FamiliesDisjoint(h1: string, h2: string)
    ensures RefreshKey(h1) != BlacklistKey(h2)
  {
    assert RefreshKey(h1)[0] == 'r' && BlacklistKey(h2)[0] == 'b';
  }

  /** A reply that carries no value. */
  function Done<T>(r: Cache.Reply<T>): Cache.Reply<()> {
    if r.Err? then Cache.Err(r.failure) else Cache.Ok(())
  }

  /** `saveRefreshToken`: SETEX of the user name for seven days. */
  function SaveSpec(m: Cache.Entries, hashed: string, userName: string, now: int, fault: bool): Cache.Step<()> {
    Cache.Attempt(fault, m, Cache.SetExStep(m, RefreshKey(hashed), RefreshTtlSeconds, Cache.Str(userName), now))
  }

  /** `isRefreshTokenValid` and `isInBlacklist`: EXISTS answered 1. */
  function ExistsSpec(m: Cache.Entries, key: string, now: int, fault: bool): Cache.Reply<bool> {
    var s := Cache.Attempt(fault, m, Cache.ExistsStep(m, key, now));
    if s.reply.Err? then Cache.Err(s.reply.failure) else Cache.Ok(s.reply.value == 1)
  }

  /** `deleteRefreshToken`: DEL of the token's key. */
  function DeleteSpec(m: Cache.Entries, hashed: string, now: int, fault: bool): Cache.Step<()> {
    var s := Cache.Attempt(fault, m, Cache.DelStep(m, [RefreshKey(hashed)], now));
    Cache.Step(Done(s.reply), s.after)
  }

  /** `addToBlacklist` as written: the remaining lifetime in milliseconds is
      passed to SETEX, which counts seconds. */
  function AddToBlacklistAsWritten(m: Cache.Entries, hashed: string, expirationMs: int, now: int, fault: bool)
    : Cache.Step<()>
  {
    if expirationMs <= 0 then Cache.Step(Cache.Ok(()), m)
    else Cache.Attempt(fault, m, Cache.SetExStep(m, BlacklistKey(hashed), expirationMs, Cache.Str("1"), now))
  }

  /** The whole seconds that cover a remaining lifetime of `ms` milliseconds. */
  function BlacklistSeconds(ms: int): (r: int)
    requires ms > 0
    ensures r >= 1 && ms <= r * 1000 < ms + 1000
  {
    Clock.CeilDiv(ms, 1000)
  }

  /** `addToBlacklist` with the lifetime converted to seconds: a token with no
      lifetime left is not listed; any other is listed for its lifetime. */
  function AddToBlacklistSpec(m: Cache.Entries, hashed: string, expirationMs: int, now: int, fault: bool)
    : Cache.Step<()>
  {
    if expirationMs <= 0 then Cache.Step(Cache.Ok(()), m)
    else Cache.Attempt(fault, m, Cache.SetExStep(m, BlacklistKey(hashed), BlacklistSeconds(expirationMs), Cache.Str("1"), now))
  }

  class Provider {
    const redis: Cache.Redis
    const hash: string -> string

    constructor (redis: Cache.Redis, hash: string -> string)
      ensures this.redis == redis && this.hash == hash
    {
      this.redis := redis;
      this.hash := hash;
    }

    method SaveRefreshToken(refreshToken: string, userName: string, now: int, fault: bool) returns (r: Cache.Reply<()>)
      modifies redis
      ensures Cache.Step(r, redis.entries) == SaveSpec(old(redis.entries), hash(refreshToken), userName, now, fault)
    {
      r := redis.SetEx(RefreshKey(hash(refreshToken)), RefreshTtlSeconds, Cache.Str(userName), now, fault);
    }

    method IsRefreshTokenValid(refreshToken: string, now: int, fault: bool) returns (r: Cache.Reply<bool>)
      ensures r == ExistsSpec(redis.entries, RefreshKey(hash(refreshToken)), now, fault)
    {
      var count := redis.Exists(RefreshKey(hash(refreshToken)), now, fault);
      r := if count.Err? then Cache.Err(count.failure) else Cache.Ok(count.value == 1);
    }

    method DeleteRefreshToken(refreshToken: string, now: int, fault: bool) returns (r: Cache.Reply<()>)
      modifies redis
      ensures Cache.Step(r, redis.entries) == DeleteSpec(old(redis.entries), hash(refreshToken), now, fault)
    {
      var d := redis.Del([RefreshKey(hash(refreshToken))], now, fault);
      r := Done(d);
    }

    method AddToBlacklist(accessToken: string, expirationMs: int, now: int, fault: bool) returns (r: Cache.Reply<()>)
      modifies redis
      ensures Cache.Step(r, redis.entries) == AddToBlacklistAsWritten(old(redis.entries), hash(accessToken), expirationMs, now, fault)
    {
      if expirationMs <= 0 {
        return Cache.Ok(());
      }
      r := redis.SetEx(BlacklistKey(hash(accessToken)), expirationMs, Cache.Str("1"), now, fault);
    }

    method IsInBlacklist(accessToken: string, now: int, fault: bool) returns (r: Cache.Reply<bool>)
      ensures r == ExistsSpec(redis.entries, BlacklistKey(hash(accessToken)), now, fault)
    {
      var count := redis.Exists(BlacklistKey(hash(accessToken)), now, fault);
      r := if count.Err? then Cache.Err(count.failure) else Cache.Ok(count.value == 1);
    }
  }

  // ---------------------------------------------------------------- properties

  /** A saved refresh token is valid for exactly seven days from the save. */
  lemma SavedTokenValidForSevenDays(m: Cache.Entries, hashed: string, userName: string, now: int, later: int)
    ensures var after := SaveSpec(m, hashed, userName, now, false);
      && after.reply == Cache.Ok(())
      && ExistsSpec(after.after, RefreshKey(hashed), later, false) == Cache.Ok(later <= now + 604800000)
  {
  }

  /** A deleted refresh token is invalid from then on. */
  lemma DeletedTokenInvalid(m: Cache.Entries, hashed: string, now: int, later: int)
    ensures var after := DeleteSpec(m, hashed, now, false);
      && after.reply == Cache.Ok(())
      && ExistsSpec(after.after, RefreshKey(hashed), later, false) == Cache.Ok(false)
  {
  }

  /** A token without lifetime left sends no command and changes nothing. */
  lemma ExpiredTokenNotListed(m: Cache.Entries, hashed: string, expirationMs: int, now: int, fault: bool)
    requires expirationMs <= 0
    ensures AddToBlacklistAsWritten(m, hashed, expirationMs, now, fault) == Cache.Step(Cache.Ok(()), m)
    ensures AddToBlacklistSpec(m, hashed, expirationMs, now, fault) == Cache.Step(Cache.Ok(()), m)
  {
  }

  /** A listed token stays listed for its whole remaining lifetime and drops
      off less than a second after it. */
  lemma ListedForRemainingLifetime(m: Cache.Entries, hashed: string, expirationMs: int, now: int, later: int)
    requires expirationMs > 0
    ensures var after := AddToBlacklistSpec(m, hashed, expirationMs, now, false);
      && after.reply == Cache.Ok(())
      && (later <= now + expirationMs ==> ExistsSpec(after.after, BlacklistKey(hashed), later, false) == Cache.Ok(true))
      && (later >= now + expirationMs + 1000 ==> ExistsSpec(after.after, BlacklistKey(hashed), later, false) == Cache.Ok(false))
  {
    var s := BlacklistSeconds(expirationMs);
    assert AddToBlacklistSpec(m, hashed, expirationMs, now, false).after[BlacklistKey(hashed)].expiresAt == Some(now + s * 1000);
  }

  /** As written, a token is listed for as many seconds as it had milliseconds
      left, a thousand times its lifetime. */
  lemma AsWrittenListedForMsSeconds(m: Cache.Entries, hashed: string, expirationMs: int, now: int, later: int)
    requires expirationMs > 0
    ensures var after := AddToBlacklistAsWritten(m, hashed, expirationMs, now, false);
      && after.reply == Cache.Ok(())
      && ExistsSpec(after.after, BlacklistKey(hashed), later, false) == Cache.Ok(later <= now + expirationMs * 1000)
  {
  }

  /** As written, a token with one second left stays listed for a thousand
      seconds. */
  lemma AsWrittenListsThousandfold(m: Cache.Entries, hashed: string, now: int)
    ensures var after := AddToBlacklistAsWritten(m, hashed, 1000, now, false);
      ExistsSpec(after.after, BlacklistKey(hashed), now + 999000, false) == Cache.Ok(true)
  {
  }

  /** Refresh-token commands leave every blacklist entry alone, and blacklist
      commands every refresh token. */
  lemma FamiliesIndependent(m: Cache.Entries, h: string, other: string, userName: string, ms: int, now: int, fault: bool)
    ensures var k := BlacklistKey(other);
      && (k in SaveSpec(m, h, userName, now, fault).after <==> k in m)
      && (k in m ==> SaveSpec(m, h, userName, now, fault).after[k] == m[k])
      && (k in DeleteSpec(m, h, now, fault).after <==> k in m)
      && (k in m ==> DeleteSpec(m, h, now, fault).after[k] == m[k])
    ensures var k := RefreshKey(other);
      && (k in AddToBlacklistAsWritten(m, h, ms, now, fault).after <==> k in m)
      && (k in m ==> AddToBlacklistAsWritten(m, h, ms, now, fault).after[k] == m[k])
      && (k in AddToBlacklistSpec(m, h, ms, now, fault).after <==> k in m)
      && (k in m ==> AddToBlacklistSpec(m, h, ms, now, fault).after[k] == m[k])
  {
    FamiliesDisjoint(h, other);
    FamiliesDisjoint(other, h);
  }
}
