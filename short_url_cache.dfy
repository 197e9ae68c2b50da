/** The first resolver stage: code check, tombstone, then the positive cache
    entry, which is revalidated before it is used. */
module ShortUrlCache {
  import opened Wrappers
  import Cache
  import Http
  import Links
  import LongUrl
  import Text

  /** What the resolver needs from outside: the URL functions, the schema
      options, and `isForbiddenTarget` on a host name (its DNS lookup and
      address classification are not modelled; a lookup failure counts as forbidden). */
  datatype Env = Env(url: LongUrl.UrlEnv, opts: LongUrl.Options, forbidden: string -> bool)

  /** An outcome and the cache after it. */
  datatype Handled = Handled(outcome: Http.Outcome, after: Cache.Entries)

  /** The decision after a hit on `short:{code}` holding `cached`: revalidate,
      then decide on the outcome of `safeParse`. */
  function OnHit(m: Cache.Entries, code: string, cached: string, env: Env, now: int, faults: seq<bool>): Handled {
    OnParsed(m, code, LongUrl.SafeParseAsWritten(cached, env.opts, env.url), env, now, faults)
  }

  /** Delete an entry the screening rejects (command 2), refuse a forbidden
      host, else redirect to the normalised URL. A transform that throws
      escapes `safeParse` and lands in the outer catch, which passes on and
      deletes nothing. */
  function OnParsed(m: Cache.Entries, code: string, p: LongUrl.ParseOutcome, env: Env, now: int, faults: seq<bool>)
    : Handled
  {
    match p
    case Rejected(_) =>
      Handled(Http.Next, Cache.Attempt(Cache.Fault(faults, 2), m, Cache.DelStep(m, [Links.ShortKey(code)], now)).after)
    case Threw(_) => Handled(Http.Next, m)
    case Parsed(longUrl) =>
      match env.url.parse(longUrl)
      case None =>
        Handled(Http.Next, Cache.Attempt(Cache.Fault(faults, 2), m, Cache.DelStep(m, [Links.ShortKey(code)], now)).after)
      case Some(u) =>
        if env.forbidden(u.hostname) then Handled(Http.Status(400), m)
        else Handled(Http.Redirect(longUrl), m)
  }

  /** `cacheShortUrl`. Cache commands are numbered 0 (EXISTS tombstone), 1 (GET)
      and 2 (DEL); a failing one lands in the catch, which passes control on. */
  function CacheShortUrlSpec(m: Cache.Entries, raw: string, env: Env, now: int, faults: seq<bool>): Handled {
    match Links.ParseCode(raw)
    case None => Handled(Http.Status(400), m)
    case Some(code) =>
      var tomb := Cache.Attempt(Cache.Fault(faults, 0), m, Cache.ExistsStep(m, Links.TombKey(code), now));
      if tomb.reply.Err? then Handled(Http.Next, m)
      else if tomb.reply.value != 0 then Handled(Http.Status(404), m)
      else
        var got := Cache.Attempt(Cache.Fault(faults, 1), m, Cache.GetStep(m, Links.ShortKey(code), now));
        if got.reply.Err? then Handled(Http.Next, m)
        else if got.reply.value.None? || Cache.Render(got.reply.value.value) == "" then Handled(Http.Next, m)
        else OnHit(m, code, Cache.Render(got.reply.value.value), env, now, faults)
  }

  /** `cacheShortUrl` as the sequence of cache commands it issues. */
  method CacheShortUrl(redis: Cache.Redis, raw: string, env: Env, now: int, faults: seq<bool>)
    returns (o: Http.Outcome)
    modifies redis
    ensures Handled(o, redis.entries) == CacheShortUrlSpec(old(redis.entries), raw, env, now, faults)
  {
    var c := Links.ParseCode(raw);
    if c.None? {
      return Http.Status(400);
    }
    var code := c.value;
    var tomb := redis.Exists(Links.TombKey(code), now, Cache.Fault(faults, 0));
    if tomb.Err? {
      return Http.Next;
    }
    if tomb.value != 0 {
      return Http.Status(404);
    }
    var got := redis.Get(Links.ShortKey(code), now, Cache.Fault(faults, 1));
    if got.Err? || got.value.None? || Cache.Render(got.value.value) == "" {
      return Http.Next;
    }
    var cached := Cache.Render(got.value.value);
    var result := LongUrl.Parse(cached, env.opts, env.url);
    if result.Failure? && result.error.Refused? {
      return Http.Next;
    }
    if result.Failure? {
      var _ := redis.Del([Links.ShortKey(code)], now, Cache.Fault(faults, 2));
      return Http.Next;
    }
    var longUrl := result.value;
    var u := env.url.parse(longUrl);
    if u.None? {
      var _ := redis.Del([Links.ShortKey(code)], now, Cache.Fault(faults, 2));
      return Http.Next;
    }
    if env.forbidden(u.value.hostname) {
      return Http.Status(400);
    }
    return Http.Redirect(longUrl);
  }

  // ---------------------------------------------------------------- properties

  lemma WithoutOne(m: Cache.Entries, key: string)
    ensures Cache.Without(m, [key]) == m - {key}
  {
  }

  /** A malformed code gets 400 before any cache command. */
  lemma MalformedCodeRejected(m: Cache.Entries, raw: string, env: Env, now: int, faults: seq<bool>)
    requires !Links.ValidCode(Text.Trim(raw))
    ensures CacheShortUrlSpec(m, raw, env, now, faults) == Handled(Http.Status(400), m)
  {
    Links.ParseCodeMeaning(raw);
  }

  /** A live tombstone means 404, whatever `short:{code}` holds, and nothing changes. */
  lemma TombstoneFirst(m: Cache.Entries, raw: string, env: Env, now: int, faults: seq<bool>)
    requires Links.ParseCode(raw).Some? && !Cache.Fault(faults, 0)
    requires Cache.Live(m, Links.TombKey(Links.ParseCode(raw).value), now)
    ensures CacheShortUrlSpec(m, raw, env, now, faults) == Handled(Http.Status(404), m)
  {
  }

  /** Without a tombstone or a positive entry, control passes on and nothing changes. */
  lemma MissPassesOn(m: Cache.Entries, raw: string, env: Env, now: int, faults: seq<bool>)
    requires Links.ParseCode(raw).Some?
    requires !Cache.Live(m, Links.TombKey(Links.ParseCode(raw).value), now)
    requires !Cache.Live(m, Links.ShortKey(Links.ParseCode(raw).value), now)
    ensures CacheShortUrlSpec(m, raw, env, now, faults) == Handled(Http.Next, m)
  {
  }

  /** A cached string the screening rejects, or whose normalised form does not
      parse as a URL, is deleted and control passes on. */
  lemma DirtyEntryDeleted(m: Cache.Entries, raw: string, env: Env, now: int, faults: seq<bool>)
    requires Links.ParseCode(raw).Some? && !Cache.Fault(faults, 0) && !Cache.Fault(faults, 1) && !Cache.Fault(faults, 2)
    requires var c := Links.ParseCode(raw).value;
      && !Cache.Live(m, Links.TombKey(c), now) && Cache.Live(m, Links.ShortKey(c), now)
      && m[Links.ShortKey(c)].value.Str? && m[Links.ShortKey(c)].value.s != ""
      && (LongUrl.SafeParseAsWritten(m[Links.ShortKey(c)].value.s, env.opts, env.url).Rejected?
          || (LongUrl.SafeParseAsWritten(m[Links.ShortKey(c)].value.s, env.opts, env.url).Parsed?
              && env.url.parse(LongUrl.SafeParseAsWritten(m[Links.ShortKey(c)].value.s, env.opts, env.url).data).None?))
    ensures CacheShortUrlSpec(m, raw, env, now, faults)
         == Handled(Http.Next, m - {Links.ShortKey(Links.ParseCode(raw).value)})
  {
    WithoutOne(m, Links.ShortKey(Links.ParseCode(raw).value));
  }

  /** A cached string whose transform throws is kept: the throw skips the DEL and
      the catch passes control on. */
  lemma ThrowingEntryKept(m: Cache.Entries, raw: string, env: Env, now: int, faults: seq<bool>)
    requires Links.ParseCode(raw).Some? && !Cache.Fault(faults, 0) && !Cache.Fault(faults, 1)
    requires var c := Links.ParseCode(raw).value;
      && !Cache.Live(m, Links.TombKey(c), now) && Cache.Live(m, Links.ShortKey(c), now)
      && m[Links.ShortKey(c)].value.Str? && m[Links.ShortKey(c)].value.s != ""
      && LongUrl.SafeParseAsWritten(m[Links.ShortKey(c)].value.s, env.opts, env.url).Threw?
    ensures CacheShortUrlSpec(m, raw, env, now, faults) == Handled(Http.Next, m)
  {
    var c := Links.ParseCode(raw).value;
    var cached := m[Links.ShortKey(c)].value.s;
    assert Cache.Render(m[Links.ShortKey(c)].value) == cached;
    assert CacheShortUrlSpec(m, raw, env, now, faults) == OnHit(m, c, cached, env, now, faults);
  }

  /** The middleware redirects only to the normalised form of a live positive
      entry that passes the schema and whose host is not forbidden, with no
      tombstone present; it then changes nothing. */
  lemma RedirectMeaning(m: Cache.Entries, raw: string, env: Env, now: int, faults: seq<bool>)
    requires CacheShortUrlSpec(m, raw, env, now, faults).outcome.Redirect?
    ensures Links.ParseCode(raw).Some?
    ensures var c := Links.ParseCode(raw).value; var key := Links.ShortKey(c);
      var r := CacheShortUrlSpec(m, raw, env, now, faults);
      && !Cache.Live(m, Links.TombKey(c), now) && Cache.Live(m, key, now) && !m[key].value.Members?
      && LongUrl.SafeParseAsWritten(Cache.Render(m[key].value), env.opts, env.url) == LongUrl.Parsed(r.outcome.location)
      && env.url.parse(r.outcome.location).Some?
      && !env.forbidden(env.url.parse(r.outcome.location).value.hostname)
      && r.after == m
  {
    var c := Links.ParseCode(raw).value;
    var key := Links.ShortKey(c);
    assert !Cache.Fault(faults, 0) && !Cache.Live(m, Links.TombKey(c), now);
    assert !Cache.Fault(faults, 1) && Cache.Live(m, key, now) && !m[key].value.Members?;
    var cached := Cache.Render(m[key].value);
    assert CacheShortUrlSpec(m, raw, env, now, faults) == OnHit(m, c, cached, env, now, faults);
    OnHitRedirect(m, c, cached, env, now, faults);
  }

  lemma OnHitRedirect(m: Cache.Entries, code: string, cached: string, env: Env, now: int, faults: seq<bool>)
    requires OnHit(m, code, cached, env, now, faults).outcome.Redirect?
    ensures var r := OnHit(m, code, cached, env, now, faults);
      && LongUrl.SafeParseAsWritten(cached, env.opts, env.url) == LongUrl.Parsed(r.outcome.location)
      && env.url.parse(r.outcome.location).Some?
      && !env.forbidden(env.url.parse(r.outcome.location).value.hostname)
      && r.after == m
  {
    OnParsedRedirect(m, code, LongUrl.SafeParseAsWritten(cached, env.opts, env.url), env, now, faults);
  }

  lemma OnParsedRedirect(m: Cache.Entries, code: string, p: LongUrl.ParseOutcome, env: Env, now: int, faults: seq<bool>)
    requires OnParsed(m, code, p, env, now, faults).outcome.Redirect?
    ensures var r := OnParsed(m, code, p, env, now, faults);
      && p == LongUrl.Parsed(r.outcome.location)
      && env.url.parse(r.outcome.location).Some?
      && !env.forbidden(env.url.parse(r.outcome.location).value.hostname)
      && r.after == m
  {
  }

  /** The middleware fails open: it never answers 500 and never lets an error
      escape; a cache failure passes control on. It changes at most the
      positive entry of the requested code, and only by deleting it. */
  lemma FailsOpen(m: Cache.Entries, raw: string, env: Env, now: int, faults: seq<bool>)
    ensures var r := CacheShortUrlSpec(m, raw, env, now, faults);
      && r.outcome in {Http.Status(400), Http.Status(404), Http.Next} + (if r.outcome.Redirect? then {r.outcome} else {})
      && (Links.ParseCode(raw).Some? && Cache.Fault(faults, 0) ==> r == Handled(Http.Next, m))
      && (r.after == m || (Links.ParseCode(raw).Some? && r.after == m - {Links.ShortKey(Links.ParseCode(raw).value)}))
  {
    var r := CacheShortUrlSpec(m, raw, env, now, faults);
    if Links.ParseCode(raw).Some? {
      var c := Links.ParseCode(raw).value;
      var key := Links.ShortKey(c);
      WithoutOne(m, key);
      var tomb := Cache.Attempt(Cache.Fault(faults, 0), m, Cache.ExistsStep(m, Links.TombKey(c), now));
      var got := Cache.Attempt(Cache.Fault(faults, 1), m, Cache.GetStep(m, key, now));
      if tomb.reply.Ok? && tomb.reply.value == 0 && got.reply.Ok? && got.reply.value.Some?
         && Cache.Render(got.reply.value.value) != "" {
        OnHitShape(m, c, Cache.Render(got.reply.value.value), env, now, faults);
      }
    }
  }

  lemma OnHitShape(m: Cache.Entries, code: string, cached: string, env: Env, now: int, faults: seq<bool>)
    ensures var r := OnHit(m, code, cached, env, now, faults);
      && (r.outcome == Http.Status(400) || r.outcome == Http.Next || r.outcome.Redirect?)
      && (r.after == m || r.after == m - {Links.ShortKey(code)})
  {
    OnParsedShape(m, code, LongUrl.SafeParseAsWritten(cached, env.opts, env.url), env, now, faults);
  }

  lemma OnParsedShape(m: Cache.Entries, code: string, p: LongUrl.ParseOutcome, env: Env, now: int, faults: seq<bool>)
    ensures var r := OnParsed(m, code, p, env, now, faults);
      && (r.outcome == Http.Status(400) || r.outcome == Http.Next || r.outcome.Redirect?)
      && (r.after == m || r.after == m - {Links.ShortKey(code)})
  {
    WithoutOne(m, Links.ShortKey(code));
  }
}
