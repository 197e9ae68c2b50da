/** The second resolver stage, `redirectToLongUrl`: a single-flight lock on the
    code, two bounded follower rounds for requests that lose the lock, and a
    leader that consults the link table, fills the cache and releases the lock.
    The two stages are chained: the controller runs only when the middleware
    passes control on. */
module Redirect {
  import opened Wrappers
  import Cache
  import Clock
  import Http
  import Links
  import LongUrl
  import ShortUrlCache

  /** Lifetime of the lock, in milliseconds. */
  const LockMs: int := 3000
  /** Lifetime of a tombstone, in seconds. */
  const TombSeconds: int := 60
  /** A follower's pause before each round, in milliseconds. */
  const SleepMs: int := 80
  /** What the leader stores in a tombstone. */
  const TombReason: string := "{\"reason\":\"NOT_FOUND_OR_INACTIVE_OR_EXPIRED\"}"

  /** An outcome, the cache after it, and whether the link table was queried. */
  datatype Resolved = Resolved(outcome: Http.Outcome, after: Cache.Entries, queried: bool)

  // ---------------------------------------------------------------- TTL

  /** `Math.max(1, Math.ceil((expireAt - now) / 1000))`: the cache lifetime, in
      seconds, of a link that expires at `expireAt`. */
  function CacheTtl(expireAt: int, now: int): (r: int)
    ensures r >= 1
    ensures expireAt > now ==> (r - 1) * 1000 < expireAt - now <= r * 1000
    ensures expireAt <= now ==> r == 1
  {
    var c := Clock.CeilDiv(expireAt - now, 1000);
    if c < 1 then 1 else c
  }

  // ---------------------------------------------------------------- link lookup

  /** The row condition of the leader's query: the code matches, the link is
      active and its expiry lies after the database clock. */
  predicate Servable(l: Links.Link, code: string, dbNow: int) {
    l.code == Some(code) && l.isActive && Links.Unexpired(l, dbNow)
  }

  /** `... WHERE code = $1 AND is_active AND expire_at > now() LIMIT 1`, taking
      the first matching row in table order. */
  function FindServable(rows: seq<Links.Link>, code: string, dbNow: int): (r: Option<nat>)
    ensures r.Some? ==> r.value < |rows| && Servable(rows[r.value], code, dbNow)
    ensures r.None? <==> forall j :: 0 <= j < |rows| ==> !Servable(rows[j], code, dbNow)
  {
    if rows == [] then None
    else if Servable(rows[|rows| - 1], code, dbNow) && FindServable(rows[..|rows| - 1], code, dbNow).None?
    then Some(|rows| - 1)
    else match FindServable(rows[..|rows| - 1], code, dbNow)
      case Some(i) => Some(i)
      case None => None
  }

  // ---------------------------------------------------------------- follower

  /** What one follower round sees: a tombstone, a hit, a miss, or a cache
      error (which nothing catches). */
  datatype Probe = Tomb | Hit(url: string) | Miss | Broken

  /** One round: EXISTS on the tombstone, then GET on the positive key; an
      empty string counts as a miss. */
  function Round(m: Cache.Entries, code: string, now: int, existsFault: bool, getFault: bool): Probe {
    var tomb := Cache.Attempt(existsFault, m, Cache.ExistsStep(m, Links.TombKey(code), now));
    if tomb.reply.Err? then Broken
    else if tomb.reply.value != 0 then Tomb
    else
      var got := Cache.Attempt(getFault, m, Cache.GetStep(m, Links.ShortKey(code), now));
      if got.reply.Err? then Broken
      else if got.reply.value.None? || Cache.Render(got.reply.value.value) == "" then Miss
      else Hit(Cache.Render(got.reply.value.value))
  }

  function ProbeOutcome(p: Probe): Http.Outcome
    requires !p.Miss?
  {
    match p
    case Tomb => Http.Status(404)
    case Hit(url) => Http.Redirect(url)
    case Broken => Http.Uncaught
  }

  /** A request that lost the lock. `others1` and `others2` are the cache as
      other clients left it during the two pauses; the follower's own commands
      (numbered 1 to 4) only read. */
  function FollowerSpec(others1: Cache.Entries, others2: Cache.Entries, code: string, now: int,
                        faults: seq<bool>): Resolved
  {
    var p1 := Round(others1, code, now + SleepMs, Cache.Fault(faults, 1), Cache.Fault(faults, 2));
    if !p1.Miss? then Resolved(ProbeOutcome(p1), others1, false)
    else
      var p2 := Round(others2, code, now + 2 * SleepMs, Cache.Fault(faults, 3), Cache.Fault(faults, 4));
      if !p2.Miss? then Resolved(ProbeOutcome(p2), others2, false)
      else Resolved(Http.Status(404), others2, false)
  }

  // ---------------------------------------------------------------- leader

  /** The part of the leader's body after a row was found. */
  function LeaderServeSpec(m: Cache.Entries, code: string, link: Links.Link, env: ShortUrlCache.Env,
                           now: int, faults: seq<bool>): Resolved
    requires link.expireAt.Some?
  {
    LeaderOnParsed(m, code, LongUrl.SafeParseAsWritten(link.longUrl, env.opts, env.url),
                   CacheTtl(link.expireAt.value, now), env, now, faults)
  }

  /** The leader's decision on the outcome of `safeParse` for the row's URL:
      400 for a rejected URL, 500 when the transform throws or the URL parser
      refuses the result, 400 for a forbidden host, else cache it for `ttl`
      seconds (command 1) and redirect. */
  function LeaderOnParsed(m: Cache.Entries, code: string, p: LongUrl.ParseOutcome, ttl: int,
                          env: ShortUrlCache.Env, now: int, faults: seq<bool>): Resolved
  {
    match p
    case Rejected(_) => Resolved(Http.Status(400), m, true)
    case Threw(_) => Resolved(Http.Status(500), m, true)
    case Parsed(longUrl) =>
      match env.url.parse(longUrl)
      case None => Resolved(Http.Status(500), m, true)
      case Some(u) =>
        if env.forbidden(u.hostname) then Resolved(Http.Status(400), m, true)
        else
          var w := Cache.Attempt(Cache.Fault(faults, 1), m,
                     Cache.SetExStep(m, Links.ShortKey(code), ttl, Cache.Str(longUrl), now));
          Resolved(if w.reply.Err? then Http.Status(500) else Http.Redirect(longUrl), w.after, true)
  }

  /** The leader's `try` block. Its one cache write is command 1; a failing
      write, a stored URL whose transform throws out of `safeParse`, or a link
      the URL parser then refuses, lands in the `catch` (500). A link the
      screening rejects answers 400, as does a forbidden host. */
  function LeaderBody(m: Cache.Entries, code: string, rows: seq<Links.Link>, env: ShortUrlCache.Env,
                      now: int, dbNow: int, dbDown: bool, faults: seq<bool>): Resolved
  {
    if dbDown then Resolved(Http.Status(500), m, true)
    else match FindServable(rows, code, dbNow)
      case None =>
        var w := Cache.Attempt(Cache.Fault(faults, 1), m,
                   Cache.SetExStep(m, Links.TombKey(code), TombSeconds, Cache.Str(TombReason), now));
        Resolved(if w.reply.Err? then Http.Status(500) else Http.Status(404), w.after, true)
      case Some(i) => LeaderServeSpec(m, code, rows[i], env, now, faults)
  }

  /** The leader: its body, then the `finally` unlock (command 2), whose
      failure is ignored. */
  function LeaderSpec(m: Cache.Entries, code: string, token: string, rows: seq<Links.Link>,
                      env: ShortUrlCache.Env, now: int, dbNow: int, dbDown: bool, faults: seq<bool>): Resolved
  {
    var b := LeaderBody(m, code, rows, env, now, dbNow, dbDown, faults);
    var u := Cache.Attempt(Cache.Fault(faults, 2), b.after, Cache.UnlockStep(b.after, Links.LockKey(code), token, now));
    Resolved(b.outcome, u.after, true)
  }

  /** `redirectToLongUrl`. Command 0 is the SET NX PX of the lock with this
      request's token; it sits outside the `try`, so its failure escapes. */
  function RedirectSpec(m: Cache.Entries, raw: string, token: string, rows: seq<Links.Link>,
                        env: ShortUrlCache.Env, now: int, dbNow: int, dbDown: bool,
                        others1: Cache.Entries, others2: Cache.Entries, faults: seq<bool>): Resolved
  {
    match Links.ParseCode(raw)
    case None => Resolved(Http.Status(400), m, false)
    case Some(code) =>
      var lock := Cache.Attempt(Cache.Fault(faults, 0), m,
                    Cache.SetNxPxStep(m, Links.LockKey(code), token, LockMs, now));
      if lock.reply.Err? then Resolved(Http.Uncaught, m, false)
      else if !lock.reply.value then FollowerSpec(others1, others2, code, now, faults)
      else LeaderSpec(lock.after, code, token, rows, env, now, dbNow, dbDown, faults)
  }

  /** The route `GET /:code`: the middleware first, the controller on `next()`. */
  function ResolveSpec(m: Cache.Entries, raw: string, token: string, rows: seq<Links.Link>,
                       env: ShortUrlCache.Env, now: int, dbNow: int, dbDown: bool,
                       others1: Cache.Entries, others2: Cache.Entries,
                       middlewareFaults: seq<bool>, faults: seq<bool>): Resolved
  {
    var h := ShortUrlCache.CacheShortUrlSpec(m, raw, env, now, middlewareFaults);
    if h.outcome.Next? then RedirectSpec(h.after, raw, token, rows, env, now, dbNow, dbDown, others1, others2, faults)
    else Resolved(h.outcome, h.after, false)
  }

  // ---------------------------------------------------------------- the handler as commands

  /** A pause during which other clients may change the cache. */
  method Sleep(redis: Cache.Redis, others: Cache.Entries)
    modifies redis
    ensures redis.entries == others
  {
    redis.entries := others;
  }

  method FollowerRound(redis: Cache.Redis, code: string, now: int, existsFault: bool, getFault: bool)
    returns (p: Probe)
    ensures p == Round(redis.entries, code, now, existsFault, getFault)
  {
    var tomb := redis.Exists(Links.TombKey(code), now, existsFault);
    if tomb.Err? {
      return Broken;
    }
    if tomb.value != 0 {
      return Tomb;
    }
    var got := redis.Get(Links.ShortKey(code), now, getFault);
    if got.Err? {
      return Broken;
    }
    if got.value.None? || Cache.Render(got.value.value) == "" {
      return Miss;
    }
    return Hit(Cache.Render(got.value.value));
  }

  method Follower(redis: Cache.Redis, code: string, now: int, others1: Cache.Entries, others2: Cache.Entries,
                  faults: seq<bool>)
    returns (o: Http.Outcome)
    modifies redis
    ensures Resolved(o, redis.entries, false) == FollowerSpec(others1, others2, code, now, faults)
  {
    Sleep(redis, others1);
    var p1 := FollowerRound(redis, code, now + SleepMs, Cache.Fault(faults, 1), Cache.Fault(faults, 2));
    if !p1.Miss? {
      return ProbeOutcome(p1);
    }
    Sleep(redis, others2);
    var p2 := FollowerRound(redis, code, now + 2 * SleepMs, Cache.Fault(faults, 3), Cache.Fault(faults, 4));
    if !p2.Miss? {
      return ProbeOutcome(p2);
    }
    return Http.Status(404);
  }

  method FindServableRow(table: Links.LinkTable, code: string, dbNow: int) returns (r: Option<nat>)
    ensures r == FindServable(table.rows, code, dbNow)
  {
    var rows := table.rows;
    var i := 0;
    r := None;
    while i < |rows|
      invariant 0 <= i <= |rows|
      invariant r == FindServable(rows[..i], code, dbNow)
    {
      assert rows[..i + 1][..i] == rows[..i];
      if r.None? && Servable(rows[i], code, dbNow) {
        r := Some(i);
      }
      i := i + 1;
    }
    assert rows[..i] == rows;
  }

  method LeaderServe(redis: Cache.Redis, code: string, link: Links.Link, env: ShortUrlCache.Env, now: int,
                     faults: seq<bool>)
    returns (o: Http.Outcome)
    requires link.expireAt.Some?
    modifies redis
    ensures var b := LeaderServeSpec(old(redis.entries), code, link, env, now, faults);
      o == b.outcome && redis.entries == b.after
  {
    var result := LongUrl.Parse(link.longUrl, env.opts, env.url);
    if result.Failure? {
      return if result.error.Refused? then Http.Status(500) else Http.Status(400);
    }
    var longUrl := result.value;
    var u := env.url.parse(longUrl);
    if u.None? {
      return Http.Status(500);
    }
    if env.forbidden(u.value.hostname) {
      return Http.Status(400);
    }
    var ttl := CacheTtl(link.expireAt.value, now);
    var w := redis.SetEx(Links.ShortKey(code), ttl, Cache.Str(longUrl), now, Cache.Fault(faults, 1));
    if w.Err? {
      return Http.Status(500);
    }
    return Http.Redirect(longUrl);
  }

  method Leader(redis: Cache.Redis, code: string, token: string, table: Links.LinkTable, env: ShortUrlCache.Env,
                now: int, dbNow: int, dbDown: bool, faults: seq<bool>)
    returns (o: Http.Outcome)
    modifies redis
    ensures Resolved(o, redis.entries, true) == LeaderSpec(old(redis.entries), code, token, table.rows, env, now, dbNow, dbDown, faults)
  {
    if dbDown {
      o := Http.Status(500);
    } else {
      var found := FindServableRow(table, code, dbNow);
      if found.None? {
        var w := redis.SetEx(Links.TombKey(code), TombSeconds, Cache.Str(TombReason), now, Cache.Fault(faults, 1));
        o := if w.Err? then Http.Status(500) else Http.Status(404);
      } else {
        o := LeaderServe(redis, code, table.rows[found.value], env, now, faults);
      }
    }
    var _ := redis.Unlock(Links.LockKey(code), token, now, Cache.Fault(faults, 2));
  }

  method RedirectToLongUrl(redis: Cache.Redis, raw: string, token: string, table: Links.LinkTable,
                           env: ShortUrlCache.Env, now: int, dbNow: int, dbDown: bool,
                           others1: Cache.Entries, others2: Cache.Entries, faults: seq<bool>)
    returns (o: Http.Outcome, queried: bool)
    modifies redis
    ensures Resolved(o, redis.entries, queried)
         == RedirectSpec(old(redis.entries), raw, token, table.rows, env, now, dbNow, dbDown, others1, others2, faults)
  {
    var c := Links.ParseCode(raw);
    if c.None? {
      return Http.Status(400), false;
    }
    var code := c.value;
    var locked := redis.SetNxPx(Links.LockKey(code), token, LockMs, now, Cache.Fault(faults, 0));
    if locked.Err? {
      return Http.Uncaught, false;
    }
    if !locked.value {
      o := Follower(redis, code, now, others1, others2, faults);
      return o, false;
    }
    o := Leader(redis, code, token, table, env, now, dbNow, dbDown, faults);
    return o, true;
  }

  /** `GET /:code` as the two handlers run one after the other. */
  method Resolve(redis: Cache.Redis, raw: string, token: string, table: Links.LinkTable,
                 env: ShortUrlCache.Env, now: int, dbNow: int, dbDown: bool,
                 others1: Cache.Entries, others2: Cache.Entries,
                 middlewareFaults: seq<bool>, faults: seq<bool>)
    returns (o: Http.Outcome, queried: bool)
    modifies redis
    ensures Resolved(o, redis.entries, queried)
         == ResolveSpec(old(redis.entries), raw, token, table.rows, env, now, dbNow, dbDown,
                        others1, others2, middlewareFaults, faults)
  {
    o := ShortUrlCache.CacheShortUrl(redis, raw, env, now, middlewareFaults);
    if !o.Next? {
      return o, false;
    }
    o, queried := RedirectToLongUrl(redis, raw, token, table, env, now, dbNow, dbDown, others1, others2, faults);
  }

  // ---------------------------------------------------------------- properties

  /** A request leads, and so queries the table, exactly when its code is well
      formed, the lock command succeeds and no lock on the code is live; the
      lock then holds this request's token for 3000 ms. Otherwise a failed
      set-if-absent leaves the cache as it was. */
  lemma LeaderIffLockFree(m: Cache.Entries, raw: string, token: string, rows: seq<Links.Link>,
                          env: ShortUrlCache.Env, now: int, dbNow: int, dbDown: bool,
                          others1: Cache.Entries, others2: Cache.Entries, faults: seq<bool>)
    ensures var r := RedirectSpec(m, raw, token, rows, env, now, dbNow, dbDown, others1, others2, faults);
      r.queried <==> (Links.ParseCode(raw).Some? && !Cache.Fault(faults, 0)
                      && !Cache.Live(m, Links.LockKey(Links.ParseCode(raw).value), now))
    ensures Links.ParseCode(raw).Some? ==>
      var lock := Cache.Attempt(Cache.Fault(faults, 0), m,
                    Cache.SetNxPxStep(m, Links.LockKey(Links.ParseCode(raw).value), token, LockMs, now));
      && (lock.reply != Cache.Ok(true) ==> lock.after == m)
      && (lock.reply == Cache.Ok(true) ==>
            lock.after == m[Links.LockKey(Links.ParseCode(raw).value) := Cache.Entry(Cache.Str(token), Some(now + LockMs))])
  {
    if Links.ParseCode(raw).Some? {
      var code := Links.ParseCode(raw).value;
      var lock := Cache.Attempt(Cache.Fault(faults, 0), m, Cache.SetNxPxStep(m, Links.LockKey(code), token, LockMs, now));
      if lock.reply.Ok? && !lock.reply.value {
        assert !FollowerSpec(others1, others2, code, now, faults).queried;
      }
    }
  }

  /** What a round can report: a tombstone only when one is live, a hit only on
      the non-empty text of a live positive entry when no tombstone is live. */
  lemma RoundMeaning(m: Cache.Entries, code: string, now: int, existsFault: bool, getFault: bool)
    ensures var p := Round(m, code, now, existsFault, getFault);
      && (p.Tomb? <==> !existsFault && Cache.Live(m, Links.TombKey(code), now))
      && (p.Hit? ==> && !Cache.Live(m, Links.TombKey(code), now) && Cache.Live(m, Links.ShortKey(code), now)
                     && !m[Links.ShortKey(code)].value.Members?
                     && p.url == Cache.Render(m[Links.ShortKey(code)].value) && p.url != "")
      && (p.Miss? ==>
            && !Cache.Live(m, Links.TombKey(code), now)
            && (|| !Cache.Live(m, Links.ShortKey(code), now)
                || (!m[Links.ShortKey(code)].value.Members? && Cache.Render(m[Links.ShortKey(code)].value) == "")))
      && ((&& !existsFault && !getFault && !Cache.Live(m, Links.TombKey(code), now)
           && Cache.Live(m, Links.ShortKey(code), now) && m[Links.ShortKey(code)].value.Members?)
          ==> p.Broken?)
  {
  }

  /** A follower never queries the table and never writes: the cache it leaves
      is the one other clients produced. It redirects only to the raw text of a
      live positive entry seen in one of its two rounds, and answers 404 after
      a tombstone or after two misses; a cache error escapes. */
  lemma FollowerMeaning(others1: Cache.Entries, others2: Cache.Entries, code: string, now: int, faults: seq<bool>)
    ensures var r := FollowerSpec(others1, others2, code, now, faults);
      && !r.queried
      && (r.after == others1 || r.after == others2)
      && (r.outcome.Redirect? || r.outcome == Http.Status(404) || r.outcome == Http.Uncaught)
      && (r.outcome.Redirect? ==>
            var key := Links.ShortKey(code);
            || (Cache.Live(others1, key, now + SleepMs) && !others1[key].value.Members?
                && r.outcome.location == Cache.Render(others1[key].value))
            || (Cache.Live(others2, key, now + 2 * SleepMs) && !others2[key].value.Members?
                && r.outcome.location == Cache.Render(others2[key].value)))
    ensures (Round(others1, code, now + SleepMs, Cache.Fault(faults, 1), Cache.Fault(faults, 2)).Miss?
             && Round(others2, code, now + 2 * SleepMs, Cache.Fault(faults, 3), Cache.Fault(faults, 4)).Miss?)
            ==> FollowerSpec(others1, others2, code, now, faults) == Resolved(Http.Status(404), others2, false)
  {
    RoundMeaning(others1, code, now + SleepMs, Cache.Fault(faults, 1), Cache.Fault(faults, 2));
    RoundMeaning(others2, code, now + 2 * SleepMs, Cache.Fault(faults, 3), Cache.Fault(faults, 4));
  }

  /** When no servable row exists, the leader answers 404 (500 if the write
      fails) and leaves a tombstone that lives for 60 s; the positive entry is
      not touched. */
  lemma TombstoneOnMiss(m: Cache.Entries, code: string, token: string, rows: seq<Links.Link>,
                        env: ShortUrlCache.Env, now: int, dbNow: int, faults: seq<bool>)
    requires FindServable(rows, code, dbNow).None?
    requires !Cache.Fault(faults, 1)
    ensures var r := LeaderSpec(m, code, token, rows, env, now, dbNow, false, faults);
      && r.outcome == Http.Status(404)
      && Links.TombKey(code) in r.after
      && r.after[Links.TombKey(code)] == Cache.Entry(Cache.Str(TombReason), Some(now + TombSeconds * 1000))
      && (Links.ShortKey(code) in r.after <==> Links.ShortKey(code) in m)
      && (Links.ShortKey(code) in m ==> r.after[Links.ShortKey(code)] == m[Links.ShortKey(code)])
  {
    Links.KeyFamiliesDisjoint(code, code);
  }

  /** The positive entry is written only on a redirect: every other leader
      outcome leaves it as it was. */
  lemma PositiveEntryOnlyOnRedirect(m: Cache.Entries, code: string, token: string, rows: seq<Links.Link>,
      env: ShortUrlCache.Env, now: int, dbNow: int, dbDown: bool, faults: seq<bool>)
    ensures var r := LeaderSpec(m, code, token, rows, env, now, dbNow, dbDown, faults);
      var key := Links.ShortKey(code);
      !r.outcome.Redirect? ==> (key in r.after <==> key in m) && (key in m ==> r.after[key] == m[key])
  {
    Links.KeyFamiliesDisjoint(code, code);
    var r := LeaderSpec(m, code, token, rows, env, now, dbNow, dbDown, faults);
    var b := LeaderBody(m, code, rows, env, now, dbNow, dbDown, faults);
    UnlockTouchesOnlyLock(b.after, Links.LockKey(code), token, now, Cache.Fault(faults, 2));
    assert r.outcome == b.outcome;
    assert r.after == b.after || r.after == b.after - {Links.LockKey(code)};
    if !dbDown && FindServable(rows, code, dbNow).Some? {
      var link := rows[FindServable(rows, code, dbNow).value];
      assert b == LeaderServeSpec(m, code, link, env, now, faults);
      LeaderServeMeaning(m, code, link, env, now, faults);
    }
  }

  /** A leader redirects only to the schema's normalised form of a servable
      row's URL whose host is allowed, and it has then cached that URL with the
      lifetime `CacheTtl` gives. */
  lemma RedirectCachesCheckedUrl(m: Cache.Entries, code: string, token: string, rows: seq<Links.Link>,
      env: ShortUrlCache.Env, now: int, dbNow: int, dbDown: bool, faults: seq<bool>)
    ensures var r := LeaderSpec(m, code, token, rows, env, now, dbNow, dbDown, faults);
      r.outcome.Redirect? ==>
        && !dbDown && FindServable(rows, code, dbNow).Some?
        && var link := rows[FindServable(rows, code, dbNow).value];
        && LongUrl.SafeParseAsWritten(link.longUrl, env.opts, env.url) == LongUrl.Parsed(r.outcome.location)
        && env.url.parse(r.outcome.location).Some?
        && !env.forbidden(env.url.parse(r.outcome.location).value.hostname)
        && Links.ShortKey(code) in r.after
        && r.after[Links.ShortKey(code)] == Cache.Entry(Cache.Str(r.outcome.location),
                                                       Some(now + CacheTtl(link.expireAt.value, now) * 1000))
  {
    Links.KeyFamiliesDisjoint(code, code);
    var r := LeaderSpec(m, code, token, rows, env, now, dbNow, dbDown, faults);
    var b := LeaderBody(m, code, rows, env, now, dbNow, dbDown, faults);
    UnlockTouchesOnlyLock(b.after, Links.LockKey(code), token, now, Cache.Fault(faults, 2));
    assert r.outcome == b.outcome;
    assert r.after == b.after || r.after == b.after - {Links.LockKey(code)};
    LeaderBodyRedirect(m, code, rows, env, now, dbNow, dbDown, faults);
  }

  /** The same, for the leader's work before the unlock. */
  lemma LeaderBodyRedirect(m: Cache.Entries, code: string, rows: seq<Links.Link>,
      env: ShortUrlCache.Env, now: int, dbNow: int, dbDown: bool, faults: seq<bool>)
    ensures var b := LeaderBody(m, code, rows, env, now, dbNow, dbDown, faults);
      b.outcome.Redirect? ==>
        && !dbDown && FindServable(rows, code, dbNow).Some?
        && var link := rows[FindServable(rows, code, dbNow).value];
        && LongUrl.SafeParseAsWritten(link.longUrl, env.opts, env.url) == LongUrl.Parsed(b.outcome.location)
        && env.url.parse(b.outcome.location).Some?
        && !env.forbidden(env.url.parse(b.outcome.location).value.hostname)
        && Links.ShortKey(code) in b.after
        && b.after[Links.ShortKey(code)] == Cache.Entry(Cache.Str(b.outcome.location),
                                                       Some(now + CacheTtl(link.expireAt.value, now) * 1000))
  {
    var b := LeaderBody(m, code, rows, env, now, dbNow, dbDown, faults);
    if dbDown {
      assert b.outcome == Http.Status(500);
    } else if FindServable(rows, code, dbNow).None? {
      assert b.outcome.Status?;
    } else {
      var link := rows[FindServable(rows, code, dbNow).value];
      assert b == LeaderServeSpec(m, code, link, env, now, faults);
      LeaderServeMeaning(m, code, link, env, now, faults);
    }
  }

  /** The tombstone is written only when no row is servable. */
  lemma TombstoneOnlyOnMiss(m: Cache.Entries, code: string, token: string, rows: seq<Links.Link>,
      env: ShortUrlCache.Env, now: int, dbNow: int, dbDown: bool, faults: seq<bool>)
    ensures var r := LeaderSpec(m, code, token, rows, env, now, dbNow, dbDown, faults);
      var tomb := Links.TombKey(code);
      (dbDown || FindServable(rows, code, dbNow).Some?) ==>
        (tomb in r.after <==> tomb in m) && (tomb in m ==> r.after[tomb] == m[tomb])
  {
    Links.KeyFamiliesDisjoint(code, code);
    var r := LeaderSpec(m, code, token, rows, env, now, dbNow, dbDown, faults);
    var b := LeaderBody(m, code, rows, env, now, dbNow, dbDown, faults);
    UnlockTouchesOnlyLock(b.after, Links.LockKey(code), token, now, Cache.Fault(faults, 2));
    assert r.outcome == b.outcome;
    assert r.after == b.after || r.after == b.after - {Links.LockKey(code)};
    if !dbDown && FindServable(rows, code, dbNow).Some? {
      var link := rows[FindServable(rows, code, dbNow).value];
      assert b == LeaderServeSpec(m, code, link, env, now, faults);
      LeaderServeMeaning(m, code, link, env, now, faults);
    }
  }

  /** The unlock script removes at most the lock key. */
  lemma UnlockTouchesOnlyLock(m: Cache.Entries, key: string, token: string, now: int, fault: bool)
    ensures var u := Cache.Attempt(fault, m, Cache.UnlockStep(m, key, token, now));
      u.after == m || u.after == m - {key}
  {
  }

  lemma LeaderServeMeaning(m: Cache.Entries, code: string, link: Links.Link, env: ShortUrlCache.Env,
                           now: int, faults: seq<bool>)
    requires link.expireAt.Some?
    ensures var r := LeaderServeSpec(m, code, link, env, now, faults);
      var p := LongUrl.SafeParseAsWritten(link.longUrl, env.opts, env.url);
      var key := Links.ShortKey(code);
      && (p.Rejected? ==> r == Resolved(Http.Status(400), m, true))
      && (p.Threw? ==> r == Resolved(Http.Status(500), m, true))
      && (!r.outcome.Redirect? ==> r.after == m)
      && (r.outcome.Redirect? ==>
            && p == LongUrl.Parsed(r.outcome.location)
            && env.url.parse(r.outcome.location).Some?
            && !env.forbidden(env.url.parse(r.outcome.location).value.hostname)
            && r.after == m[key := Cache.Entry(Cache.Str(r.outcome.location),
                                               Some(now + CacheTtl(link.expireAt.value, now) * 1000))])
  {
    LeaderOnParsedMeaning(m, code, LongUrl.SafeParseAsWritten(link.longUrl, env.opts, env.url),
                          CacheTtl(link.expireAt.value, now), env, now, faults);
  }

  lemma LeaderOnParsedMeaning(m: Cache.Entries, code: string, p: LongUrl.ParseOutcome, ttl: int,
                              env: ShortUrlCache.Env, now: int, faults: seq<bool>)
    requires ttl >= 1
    ensures var r := LeaderOnParsed(m, code, p, ttl, env, now, faults);
      var key := Links.ShortKey(code);
      && (p.Rejected? ==> r == Resolved(Http.Status(400), m, true))
      && (p.Threw? ==> r == Resolved(Http.Status(500), m, true))
      && (!r.outcome.Redirect? ==> r.after == m)
      && (r.outcome.Redirect? ==>
            && p == LongUrl.Parsed(r.outcome.location)
            && env.url.parse(r.outcome.location).Some?
            && !env.forbidden(env.url.parse(r.outcome.location).value.hostname)
            && r.after == m[key := Cache.Entry(Cache.Str(r.outcome.location), Some(now + ttl * 1000))])
  {
    var key := Links.ShortKey(code);
    var r := LeaderOnParsed(m, code, p, ttl, env, now, faults);
    if p.Parsed? && env.url.parse(p.data).Some? && !env.forbidden(env.url.parse(p.data).value.hostname) {
      var w := Cache.Attempt(Cache.Fault(faults, 1), m, Cache.SetExStep(m, key, ttl, Cache.Str(p.data), now));
      assert r.after == w.after;
      if !Cache.Fault(faults, 1) {
        assert w.after == m[key := Cache.Entry(Cache.Str(p.data), Some(now + ttl * 1000))];
      }
    }
  }

  /** The leader's body never touches the lock key, so the `finally` unlock finds
      the leader's own token and removes the lock on every exit path, unless
      the unlock command itself fails (the lock then expires by itself). */
  lemma LeaderReleasesLock(m: Cache.Entries, code: string, token: string, rows: seq<Links.Link>,
                           env: ShortUrlCache.Env, now: int, dbNow: int, dbDown: bool, faults: seq<bool>)
    requires m[Links.LockKey(code) := Cache.Entry(Cache.Str(token), Some(now + LockMs))] == m
    ensures var r := LeaderSpec(m, code, token, rows, env, now, dbNow, dbDown, faults);
      && (!Cache.Fault(faults, 2) ==> Links.LockKey(code) !in r.after)
      && (Cache.Fault(faults, 2) ==>
            Links.LockKey(code) in r.after
            && r.after[Links.LockKey(code)] == Cache.Entry(Cache.Str(token), Some(now + LockMs)))
  {
    Links.KeyFamiliesDisjoint(code, code);
    var lockKey := Links.LockKey(code);
    assert lockKey in m && m[lockKey] == Cache.Entry(Cache.Str(token), Some(now + LockMs));
    var b := LeaderBody(m, code, rows, env, now, dbNow, dbDown, faults);
    if !dbDown && FindServable(rows, code, dbNow).Some? {
      LeaderServeMeaning(m, code, rows[FindServable(rows, code, dbNow).value], env, now, faults);
    }
    assert lockKey in b.after && b.after[lockKey] == m[lockKey];
  }

  /** Along the route, a live tombstone answers 404 before the lock or the
      table is reached, and nothing changes. */
  lemma ResolveTombstone(m: Cache.Entries, raw: string, token: string, rows: seq<Links.Link>,
                         env: ShortUrlCache.Env, now: int, dbNow: int, dbDown: bool,
                         others1: Cache.Entries, others2: Cache.Entries,
                         middlewareFaults: seq<bool>, faults: seq<bool>)
    requires Links.ParseCode(raw).Some? && !Cache.Fault(middlewareFaults, 0)
    requires Cache.Live(m, Links.TombKey(Links.ParseCode(raw).value), now)
    ensures ResolveSpec(m, raw, token, rows, env, now, dbNow, dbDown, others1, others2, middlewareFaults, faults)
         == Resolved(Http.Status(404), m, false)
  {
    ShortUrlCache.TombstoneFirst(m, raw, env, now, middlewareFaults);
  }

  /** Along the route, the table is queried only by a request whose code is
      well formed, which the middleware passed on, and which then took the lock. */
  lemma ResolveQueriesOnlyAsLeader(m: Cache.Entries, raw: string, token: string, rows: seq<Links.Link>,
                                   env: ShortUrlCache.Env, now: int, dbNow: int, dbDown: bool,
                                   others1: Cache.Entries, others2: Cache.Entries,
                                   middlewareFaults: seq<bool>, faults: seq<bool>)
    ensures var h := ShortUrlCache.CacheShortUrlSpec(m, raw, env, now, middlewareFaults);
      ResolveSpec(m, raw, token, rows, env, now, dbNow, dbDown, others1, others2, middlewareFaults, faults).queried
      <==> (h.outcome.Next? && Links.ParseCode(raw).Some? && !Cache.Fault(faults, 0)
            && !Cache.Live(h.after, Links.LockKey(Links.ParseCode(raw).value), now))
  {
    var h := ShortUrlCache.CacheShortUrlSpec(m, raw, env, now, middlewareFaults);
    if h.outcome.Next? {
      LeaderIffLockFree(h.after, raw, token, rows, env, now, dbNow, dbDown, others1, others2, faults);
    }
  }

  // ---------------------------------------------------------------- single flight

  /** A lock command issued by some request: its set-if-absent with its token,
      or its compare-and-delete unlock, at a clock reading. */
  datatype LockOp = Acquire(token: string, at: int) | Release(token: string, at: int)

  /** One lock command on `key`: whether it succeeded, and the cache after it. */
  function ApplyLock(m: Cache.Entries, key: string, op: LockOp): (bool, Cache.Entries) {
    match op
    case Acquire(t, at) =>
      var s := Cache.SetNxPxStep(m, key, t, LockMs, at);
      (s.reply == Cache.Ok(true), s.after)
    case Release(t, at) =>
      var s := Cache.UnlockStep(m, key, t, at);
      (s.reply == Cache.Ok(1), s.after)
  }

  /** A sequence of lock commands, one after another: the successes and the final cache. */
  function RunLock(m: Cache.Entries, key: string, ops: seq<LockOp>): (r: (seq<bool>, Cache.Entries))
    ensures |r.0| == |ops|
    decreases ops
  {
    if ops == [] then ([], m)
    else
      var first := ApplyLock(m, key, ops[0]);
      var rest := RunLock(first.1, key, ops[1..]);
      ([first.0] + rest.0, rest.1)
  }

  /** Single flight: while the lock holds token `t` (until its expiry `until`),
      every other request's set-if-absent fails, no unlock but `t`'s own succeeds,
      and the lock still holds `t` afterwards. */
  lemma {:induction false} HeldLockExcludes(m: Cache.Entries, key: string, t: string, until: int, ops: seq<LockOp>)
    requires key in m && m[key] == Cache.Entry(Cache.Str(t), Some(until))
    requires forall i :: 0 <= i < |ops| ==> ops[i].at <= until
    requires forall i :: 0 <= i < |ops| ==> !(ops[i].Release? && ops[i].token == t)
    ensures var r := RunLock(m, key, ops);
      && (forall i :: 0 <= i < |ops| ==> !r.0[i])
      && key in r.1 && r.1[key] == m[key]
  {
    if ops != [] {
      var first := ApplyLock(m, key, ops[0]);
      assert !first.0 && key in first.1 && first.1[key] == m[key];
      HeldLockExcludes(first.1, key, t, until, ops[1..]);
      var r := RunLock(m, key, ops);
      var rest := RunLock(first.1, key, ops[1..]).0;
      assert r.0 == [first.0] + rest;
      forall i | 0 <= i < |ops|
        ensures !r.0[i]
      {
        if i > 0 {
          assert r.0[i] == rest[i - 1];
          assert ops[1..][i - 1] == ops[i];
        }
      }
    }
  }

  /** Once an acquire succeeds, no later acquire within the lock's lifetime
      succeeds until the holder's own unlock. */
  lemma FirstAcquireWins(m: Cache.Entries, key: string, t: string, at: int, ops: seq<LockOp>)
    requires ApplyLock(m, key, Acquire(t, at)).0
    requires forall i :: 0 <= i < |ops| ==> ops[i].at <= at + LockMs
    requires forall i :: 0 <= i < |ops| ==> !(ops[i].Release? && ops[i].token == t)
    ensures var r := RunLock(m, key, [Acquire(t, at)] + ops);
      && r.0[0]
      && (forall i :: 1 <= i < |r.0| ==> !r.0[i])
  {
    var m1 := ApplyLock(m, key, Acquire(t, at)).1;
    HeldLockExcludes(m1, key, t, at + LockMs, ops);
    var all := [Acquire(t, at)] + ops;
    assert all[1..] == ops;
    var r := RunLock(m, key, all);
    var rest := RunLock(m1, key, ops).0;
    assert r.0 == [true] + rest;
    forall i | 1 <= i < |r.0|
      ensures !r.0[i]
    {
      assert r.0[i] == rest[i - 1];
    }
  }

  /** The holder's own unlock, while the lock is live, frees the key for the next acquire. */
  lemma OwnerReleaseFrees(m: Cache.Entries, key: string, t: string, until: int, at: int, next: LockOp)
    requires key in m && m[key] == Cache.Entry(Cache.Str(t), Some(until)) && at <= until
    requires next.Acquire?
    ensures var r := RunLock(m, key, [Release(t, at), next]);
      r.0 == [true, true] && key in r.1 && r.1[key] == Cache.Entry(Cache.Str(next.token), Some(next.at + LockMs))
  {
    var first := ApplyLock(m, key, Release(t, at));
    assert first.0 && key !in first.1;
    var second := ApplyLock(first.1, key, next);
    assert second.0 && key in second.1 && second.1[key] == Cache.Entry(Cache.Str(next.token), Some(next.at + LockMs));
    assert [Release(t, at), next][1..] == [next];
    assert [next][1..] == [];
    assert [next][0] == next;
    assert RunLock(second.1, key, []) == ([], second.1);
    assert RunLock(first.1, key, [next]).0 == [second.0];
    assert RunLock(first.1, key, [next]).1 == second.1;
  }
}
