# Short-URL service core, modelled in Dafny

This project models the decision logic of a short-URL service written in
TypeScript:

- the base-62 code scheme;
- the read path that resolves a short code to its long URL through a Redis
  cache, with a syntax check, a tombstone (negative cache), a dirty-entry purge,
  a single-flight lock with two follower rounds, and a token-checked unlock;
- the job queue that copies links into the cache;
- the long-URL validation and normalisation schema;
- the small Redis-backed state machines: password-reset lockout, per-IP daily
  creation limit, RBAC permission sets and the permission guard, the
  refresh-token store and access-token blacklist, and the purge of disabled
  links;
- the path-containment check and the request and token payload schemas.

Two abstract stores stand for the real ones:

- **Redis** is `Cache.Entries`, a map from key to value and optional absolute
  expiry in milliseconds. Each command is one atomic function
  (`Cache.SetNxPxStep`, `Cache.UnlockStep`, ...) that returns its reply and the
  new map. The class `Cache.Redis` holds the map in a field. Its methods change
  it one command at a time.
- **Postgres** tables are a `seq<Links.Link>` (links) and a map from id to
  row (`LinkTasks.Table`, the `link_task` queue). Each SQL statement is one
  atomic step.

Transport faults are a `faults: seq<bool>` parameter: command *i* fails
exactly when `faults[i]` holds. So every error path of a handler has a
concrete input.

Each imperative handler is a `method` that acts on those objects. Its
`ensures` ties the outcome and the new state to a specification function of
the old state (`...Spec`). The lemmas say what the specification functions
mean. Pure code (schemas, `safeJoin`, the permission rule) is functions and
lemmas only.

Source facts the model parameterises:

- the clock (`now`, and `dbNow` for Postgres `now()`);
- the lock token (`crypto.randomUUID`);
- WHATWG URL parsing and serialisation, `decodeURIComponent`
  (`LongUrl.UrlEnv`);
- `localeCompare` (a total order `keyLe`);
- `isForbiddenTarget` and `z.email()` (predicates);
- SHA-256 (`hash`);
- JavaScript's `Number(...)` (`toNumber`);
- `Date` parsing (`parseDate`);
- the cache state another request leaves behind while a follower sleeps
  (`others1`, `others2`).

## Model

| member | source | states |
|---|---|---|
| Base62Codec.Base62.constructor | src/utils/base62.ts:20-25 | for an alphabet that passes the checks, the loop builds `charToVal` so that it inverts the alphabet: it maps exactly the alphabet's characters, and `alphabet[i]` to `i` |
| Base62Codec.Base62.New | src/utils/base62.ts:8-26 | construction fails exactly when the alphabet has a repeated character (reported first) or fewer than two characters; otherwise it yields a fresh, valid codec over that alphabet |
| Base62Codec.CharSetSizeIffDistinct | src/utils/base62.ts:9-13 | the size test used for duplicates (set of characters smaller than the string) holds exactly when some character repeats |
| Base62Codec.CharSetBound | src/utils/base62.ts:9-13 | a string has at most as many distinct characters as its length, and exactly as many when none repeats |
| Base62Codec.DefaultAlphabetAccepted | src/utils/base62.ts:8 | the default alphabet `a-z A-Z 0-9` has 62 distinct characters, passes both constructor checks, and has `a`, `A` and `9` at positions 0, 26 and 61 |
| Base62Codec.InvertsDistinct | src/utils/base62.ts:20-25 | only a duplicate-free alphabet has a character-to-index map that inverts it |
| Base62Codec.InverseMap | src/utils/base62.ts:20-25 | every duplicate-free alphabet has such an inverse map |
| Base62Codec.Base62.Encode | src/utils/base62.ts:30-53 | a negative input fails with `NegativeInput`; otherwise the result is the digit string of the input in the base given by the alphabet size (the loop's reversed digit list, most significant digit first) |
| Base62Codec.EncodeShape | src/utils/base62.ts:35-52 | an encoding is non-empty and uses only alphabet characters; it is `[alphabet[0]]` exactly for 0; for n > 0 it never starts with `alphabet[0]` |
| Base62Codec.EncodeLength | src/utils/base62.ts:41-52 | an encoding of length L satisfies base^(L-1) <= n < base^L (for n > 0) |
| Base62Codec.EncodeInjective | src/utils/base62.ts:41-52 | distinct numbers have distinct encodings |
| Base62Codec.ValueOfEncode | src/utils/base62.ts:41-52 | the encoding's characters are all in the inverse map, and the positional value of its digits is the encoded number |
| Base62Codec.Base62.Decode | src/utils/base62.ts:57-83 | the loop, with its overflow guard, computes the decoding specification: first error or the positional value |
| Base62Codec.DecodeCharacterization | src/utils/base62.ts:57-83 | decoding succeeds exactly for a non-empty string of alphabet characters whose value is at most 2^53-1, and then returns that value; the empty string fails with `EmptyInput` |
| Base62Codec.ReportsFirstBadCharacter | src/utils/base62.ts:66-70 | when the first unknown character comes before any overflow, decoding fails naming that character |
| Base62Codec.BadCharacterFails | src/utils/base62.ts:66-70 | any string with a character outside the alphabet fails to decode |
| Base62Codec.FailurePersists | src/utils/base62.ts:63-81 | once a prefix fails, every longer prefix fails with the same error (the loop stops at the first error) |
| Base62Codec.DecodePrefixValue | src/utils/base62.ts:72-80 | over alphabet characters, a prefix decodes exactly when its value is at most 2^53-1, and then to that value |
| Base62Codec.GuardExact | src/utils/base62.ts:72-78 | the guard `val > floor((MAX - digit) / base)` is equivalent to the next value `val * base + digit` exceeding MAX |
| Base62Codec.RoundTrip | src/utils/base62.ts:85-91 | decoding an encoding gives n back for every n <= 2^53-1; above that it fails with `ExceedsMaxSafeInteger` |
| Links.OffsetIsPower | src/controller/link.controllers.ts:27-28 | the code offset is 62^(MIN_LENGTH-1) = 62^4 |
| Links.DefaultAlphabetIsCodeAlphabet | src/controller/link.controllers.ts:73-75 | the codec that derives codes (default alphabet) has 62 distinct characters, all of them legal in a code |
| Links.DeriveCode | src/controller/link.controllers.ts:73-75 | the new code is the encoding of `id + 62^4` |
| Links.CodeLength | src/controller/link.controllers.ts:73-75 | every derived code has at least 5 characters, and at most 11 for any id a BIGINT holds |
| Links.CodesInjective | src/controller/link.controllers.ts:73-75 | distinct ids give distinct codes |
| Links.IssuedCodesResolve | src/controller/link.controllers.ts:130-140 | every derived code passes the read path's code check unchanged |
| Links.IssuedCodesDecode | src/controller/link.controllers.ts:73-75 | decoding a derived code gives back `id + 62^4` |
| Links.ParseCodeMeaning | src/controller/link.controllers.ts:130-140 | a raw code is accepted exactly when its trimmed form matches `^[A-Za-z0-9_-]{1,64}$`; the accepted code is the trimmed form, and re-checking it gives the same code |
| Links.KeyFamiliesDisjoint | src/controller/link.controllers.ts:142-145 | the keys `short:`, `short404:` and `lock:short:` never collide across codes, and within a family equal keys mean equal codes |
| Links.FractionalPageIsZero | src/controller/link.controllers.ts:287-296 | as written, page 0.5 floors to page 0 and gives a negative offset |
| Links.Page | src/controller/link.controllers.ts:287 | the page is at least 1: the floor of a finite page of at least 1, otherwise 1 |
| Links.PageSize | src/controller/link.controllers.ts:288-290 | the page size is in [1, 200]: the floor of a finite size in [1, 201), 1 for a size in (0, 1), 200 above, and 30 for a missing, non-finite or non-positive size |
| Links.Listed | src/controller/link.controllers.ts:299-309 | the listed rows are exactly the rows that pass the expiry filter (unless expired rows are included) and the active filter (unless inactive rows are included) |
| Links.PageOfWindow | src/controller/link.controllers.ts:296-338 | a page holds the rows from offset `(page-1)*pageSize` on, at most `pageSize` of them, in listing order; a non-empty page reports the full count; `hasMore` holds exactly when `page*pageSize < total` |
| Links.HasMoreIffNextPageNonEmpty | src/controller/link.controllers.ts:338 | for any query, `hasMore` holds exactly when rows exist past the current page |
| Links.ListLinks | src/controller/link.controllers.ts:280-345 | as written, the listing answers 500 exactly when the OFFSET (page - 1) * pageSize is one Postgres refuses: negative, for a page in (0, 1), or past the bigint range, for a huge page; any other request gets the listing with the page as written, which then equals the corrected page, at an OFFSET within the bigint range |
| Links.HugePageRefused | src/controller/link.controllers.ts:286-296 | page 10^18 with the default size 30 gives OFFSET 29999999999999999970, past the bigint range, and the listing answers 500 |
| Links.IndexOfId | src/controller/link.controllers.ts:435 | the lookup by id finds a row with that id, or shows that none has it |
| Links.NatToStringParses | src/controller/link.controllers.ts:412-419 | the id check accepts the decimal form of every natural number and reads it back |
| Links.DeactivateEffect | src/controller/link.controllers.ts:410-474 | 200 exactly for a valid id of an active, unexpired row with a working UPDATE; then only that row becomes inactive and `short:{code}` is gone; every refusal other than 500 changes neither the table nor the cache |
| Links.DeactivateRefusals | src/controller/link.controllers.ts:435-466 | an unknown id gets 404; an inactive row gets 409; an expired row gets 410, or 409 when it expired only by the database clock |
| Links.LinkTable.Deactivate | src/controller/link.controllers.ts:410-474 | the handler's reply and the new table and cache are those of the deactivation specification |
| ShortUrlCache.CacheShortUrl | src/middleware/cacheShortUrl.ts:18-84 | the middleware's outcome and the new cache are those of its specification on the old cache: a cached text the screening rejects is deleted, and one whose transform throws out of `safeParse` reaches the `catch`, which passes on and keeps it |
| ShortUrlCache.MalformedCodeRejected | src/middleware/cacheShortUrl.ts:19-29 | a code whose trimmed form is empty or malformed gets 400, and the cache is not touched |
| ShortUrlCache.TombstoneFirst | src/middleware/cacheShortUrl.ts:38-44 | a live `short404:{code}` gives 404 whatever `short:{code}` holds, and nothing changes |
| ShortUrlCache.MissPassesOn | src/middleware/cacheShortUrl.ts:46-48 | with neither key live, control passes on and the cache is unchanged |
| ShortUrlCache.DirtyEntryDeleted | src/middleware/cacheShortUrl.ts:51-66 | a cached value the screening rejects, or whose normalised form does not parse as a URL, is deleted, and control passes on |
| ShortUrlCache.ThrowingEntryKept | src/middleware/cacheShortUrl.ts:51-83 | a cached value whose transform throws is not deleted: the throw skips the DEL and the `catch` passes control on with the cache unchanged |
| ShortUrlCache.RedirectMeaning | src/middleware/cacheShortUrl.ts:46-80 | a redirect comes only from a live positive entry with no tombstone; its target is the normalised schema output of the cached text, parses, and has an allowed host; the cache is unchanged |
| ShortUrlCache.OnHitRedirect | src/middleware/cacheShortUrl.ts:58-80 | on a hit, the redirect target is the schema's normalised output (not the raw text), it parses and its host is not forbidden |
| ShortUrlCache.OnParsedRedirect | src/middleware/cacheShortUrl.ts:58-80 | for any outcome of `safeParse`, a redirect happens only on a parsed URL, to that URL, which then parses with an allowed host, and nothing is written |
| ShortUrlCache.OnParsedShape | src/middleware/cacheShortUrl.ts:58-83 | for any outcome of `safeParse`, the decision is 400, a redirect or passing on, and it may at most delete the positive key |
| ShortUrlCache.OnHitShape | src/middleware/cacheShortUrl.ts:51-80 | a hit ends in 400 (forbidden host), a redirect, or control passing on; the only change it may make is to delete the positive key |
| ShortUrlCache.FailsOpen | src/middleware/cacheShortUrl.ts:35-83 | the middleware ends in 400, 404, a redirect or `next`, never an error; a failed first cache command falls open to `next`; the only cache change is the deletion of `short:{code}` |
| Redirect.CacheTtl | src/controller/link.controllers.ts:252 | the TTL is at least 1 s; for a future expiry it is the remaining time rounded up to whole seconds; otherwise it is 1 |
| Redirect.FindServable | src/controller/link.controllers.ts:199 | the query's row is an active, unexpired row with the code, and none is found only when no row qualifies |
| Redirect.FindServableRow | src/controller/link.controllers.ts:199 | the scan of the table returns the row the query specification picks |
| Redirect.FollowerRound | src/controller/link.controllers.ts:158-169 | one follower round returns the probe that the round specification gives on the current cache |
| Redirect.RoundMeaning | src/controller/link.controllers.ts:158-169 | a round reports a tombstone exactly when `short404:` is live; a hit only without a tombstone and with a live, non-empty string value at `short:`, which it returns; otherwise a miss (or an error for a set value) |
| Redirect.Follower | src/controller/link.controllers.ts:154-190 | the follower's outcome and final cache are those of its specification over the two states it wakes up to |
| Redirect.FollowerMeaning | src/controller/link.controllers.ts:154-190 | a follower never queries the store and never writes; it redirects only to a value live in one of its two rounds, or gives 404 or an uncaught error; two misses give 404 |
| Redirect.LeaderServe | src/controller/link.controllers.ts:218-265 | serving a found row gives the reply and cache of the serve specification: 400 when the screening rejects the stored URL, 500 from the `catch` when its transform throws or its result does not parse, 400 for a forbidden host, otherwise SETEX and a redirect, or 500 if the write fails |
| Redirect.LeaderOnParsedMeaning | src/controller/link.controllers.ts:218-265 | for any outcome of `safeParse` and any positive TTL: rejection gives 400 and a throw 500 with nothing written; a redirect goes only to the parsed URL, which parses with an allowed host, after writing exactly `short:{code}` with that TTL |
| Redirect.LeaderServeMeaning | src/controller/link.controllers.ts:218-265 | a screening rejection gives 400 and a throwing transform 500, neither writing; serving writes nothing unless it redirects; a redirect target is the schema output of the stored URL, it parses and its host is allowed; exactly `short:{code}` is written, with the TTL from `CacheTtl` |
| Redirect.Leader | src/controller/link.controllers.ts:192-276 | the lock holder's outcome and final cache are those of the leader specification, unlock included |
| Redirect.RedirectToLongUrl | src/controller/link.controllers.ts:129-277 | the handler's outcome, final cache and whether it queried the store follow its specification |
| Redirect.Resolve | src/index.ts:48 | the chained middleware and handler behave as the middleware specification followed, on `next`, by the handler specification |
| Redirect.LeaderIffLockFree | src/controller/link.controllers.ts:150-154 | a request queries the store exactly when its code is valid and its NX set succeeds on a lock-free key; a failed NX leaves the cache unchanged; a successful one stores the request's token with a 3000 ms expiry |
| Redirect.TombstoneOnMiss | src/controller/link.controllers.ts:199-209 | with no servable row, the leader gets 404 and writes `short404:{code}` with a 60 s expiry, not touching `short:{code}` |
| Redirect.TombstoneOnlyOnMiss | src/controller/link.controllers.ts:202-209 | the tombstone is written only when the query succeeds and finds no row |
| Redirect.PositiveEntryOnlyOnRedirect | src/controller/link.controllers.ts:217-255 | the leader changes `short:{code}` only on a redirect: a 400, 500 or 404 leaves it as it was |
| Redirect.RedirectCachesCheckedUrl | src/controller/link.controllers.ts:217-258 | a leader redirect comes from a servable row whose URL passes the schema; the target parses and its host is allowed; `short:{code}` then holds the target with the `CacheTtl` expiry |
| Redirect.LeaderBodyRedirect | src/controller/link.controllers.ts:217-258 | the same facts for the leader's `try` block before the unlock |
| Redirect.UnlockTouchesOnlyLock | src/controller/link.controllers.ts:266-276 | the unlock either changes nothing or removes just the lock key |
| Redirect.LeaderReleasesLock | src/controller/link.controllers.ts:266-276 | on every leader exit path the lock it holds is gone, unless the unlock command itself fails, in which case it is left as it was |
| Redirect.ResolveTombstone | src/middleware/cacheShortUrl.ts:38-44 | along the whole chain, a live tombstone ends the request with 404, no query and no cache change |
| Redirect.ResolveQueriesOnlyAsLeader | src/controller/link.controllers.ts:150-199 | along the whole chain, the store is queried exactly when the middleware passes on and the request wins the lock |
| Redirect.HeldLockExcludes | src/controller/link.controllers.ts:150-154 | while the lock holds token T and T's owner does not release it, no acquire succeeds, no other token's release succeeds, and the lock entry is unchanged |
| Redirect.FirstAcquireWins | src/controller/link.controllers.ts:150-154 | after a successful acquire, every further acquire or foreign release within its 3000 ms fails |
| Redirect.OwnerReleaseFrees | src/controller/link.controllers.ts:266-276 | the owner's release succeeds, and the next acquire then succeeds and holds the lock with its own token |
| Cache.SetNxExclusive | src/controller/link.controllers.ts:152 | SET NX PX refuses a live key without change; on a free key it stores the value, live for `ms` milliseconds and then expired |
| Cache.UnlockOnlyByOwner | src/controller/link.controllers.ts:266-276 | the compare-and-delete script removes the key exactly when it holds the caller's token; otherwise it changes nothing and replies 0 |
| Cache.DelRemovesListed | src/task/deleteCheckForDisabledLinks.task.ts:29-43 | DEL removes every listed key and leaves every other key as it was |
| Cache.CountInWindowMeaning | src/middleware/limitCreateByIp.ts:19-34 | INCR then EXPIRE-on-1 stores the incremented count; the window's expiry is set only when the count becomes 1 and is kept afterwards; no other key changes |
| Cache.CountRunWindow | src/middleware/limitCreateByIp.ts:19-34 | requests inside one window, starting from a free key, get the counts 1, 2, ... in order, and the key ends holding the count with the first request's expiry |
| LinkTasks.ComputeTtlSeconds | src/task/linkTasksToCacheTask.ts:13-26 | no TTL for a missing, empty or unparseable expiry; 0 exactly when the expiry is not in the future; otherwise the remaining time rounded up to whole seconds |
| LinkTasks.BackoffShape | src/task/linkTasksToCacheTask.ts:103-114 | the backoff is between 120 s and the 3600 s cap; it is 120 s for attempts <= 1 and doubles per attempt until the cap, which it reaches from attempt 6 on; it never decreases |
| LinkTasks.ReclaimMeaning | src/task/linkTasksToCacheTask.ts:34 | reclaim changes exactly the stale `processing` rows: they become `pending`, available now, unlocked, with attempts and payload kept; afterwards no row is stale |
| LinkTasks.JobTable.Reclaim | src/task/linkTasksToCacheTask.ts:34 | the table after the UPDATE is the reclaim specification of the old table |
| LinkTasks.InsertSorted | src/task/linkTasksToCacheTask.ts:48 | inserting an id into an id list ordered by `(available_at, id)` keeps it ordered, with exactly one more member |
| LinkTasks.ClaimMeaning | src/task/linkTasksToCacheTask.ts:48 | a claim batch changes exactly its rows: each was `pending` and becomes `processing`, locked now by the worker, with attempts + 1 and payload and availability kept |
| LinkTasks.JobTable.Claim | src/task/linkTasksToCacheTask.ts:48 | the claimed ids are the first eligible rows, at most 100, in `(available_at, id)` order, and the table is the claim specification |
| LinkTasks.JobTable.Update | src/task/linkTasksToCacheTask.ts:85-113 | a per-job UPDATE applies only to a row still `processing` |
| LinkTasks.MissingPayloadFails | src/task/linkTasksToCacheTask.ts:64-70 | (corrected) as intended, a payload without code or long URL fails the job at once, with no backoff and no cache write |
| LinkTasks.ReachedMeaning | src/task/linkTasksToCacheTask.ts:59-70 | as written, the loop gets through exactly the jobs before the first payload without code or long URL, whose UPDATE Postgres refuses: every job before that point is usable, and the one at it is not |
| LinkTasks.ReachedFirst | src/task/linkTasksToCacheTask.ts:59-70 | the point the loop reaches is unique: any index whose prefix is usable and which is the end of the batch or an unusable job is that point |
| LinkTasks.ExhaustedJobFails | src/task/linkTasksToCacheTask.ts:73-78 | a job claimed with attempts >= 5 fails as "attempts exhausted", writes nothing to the cache and is never eligible again |
| LinkTasks.LiveLinkCached | src/task/linkTasksToCacheTask.ts:94-102 | for a link not yet expired, `short:{code}` holds the long URL, with no expiry when there is no TTL and the TTL otherwise, and the job is `done` |
| LinkTasks.ExpiredLinkDropped | src/task/linkTasksToCacheTask.ts:85-90 | for an expired link, `short:{code}` is deleted and the job is `done`; the fall-through write then fails and its catch-path update matches nothing |
| LinkTasks.CacheFailureReschedules | src/task/linkTasksToCacheTask.ts:103-114 | a failed cache command reschedules the job: `pending`, available after the backoff, error recorded, lock cleared |
| LinkTasks.ProcessJobSettles | src/task/linkTasksToCacheTask.ts:59-115 | processing a job touches only its own row and at most its own cache key, and leaves no finished row changed |
| LinkTasks.GuardedSettles | src/task/linkTasksToCacheTask.ts:85-113 | a guarded UPDATE changes at most its own row and never a finished one |
| LinkTasks.WriteThroughSettles | src/task/linkTasksToCacheTask.ts:94-114 | the cache write and its follow-up touch only their own row and their own key |
| LinkTasks.ProcessPrefixSettles | src/task/linkTasksToCacheTask.ts:59-115 | processing any prefix of the batch leaves finished rows finished and unchanged |
| LinkTasks.FinishedRowsStay | src/task/linkTasksToCacheTask.ts:34-115 | a whole run leaves every `done` or `failed` row exactly as it was |
| LinkTasks.ProcessJobFinishes | src/task/linkTasksToCacheTask.ts:61-113 | a claimed job leaves `processing` in every branch of the loop body: done, failed, or pending again |
| LinkTasks.PrefixFinishes | src/task/linkTasksToCacheTask.ts:59-115 | over a batch of distinct claimed rows, the first k jobs leave `processing` and every later job's row is exactly as claimed |
| LinkTasks.AbortLeavesRestClaimed | src/task/linkTasksToCacheTask.ts:64-70 | as written, the job with an unusable payload and every later job of the batch stay `processing`, locked by this worker |
| LinkTasks.IntendedRunFinishesBatch | src/task/linkTasksToCacheTask.ts:59-115 | (corrected) with the failing UPDATE as intended, every job of the batch leaves `processing` in one run |
| LinkTasks.WriteJob | src/task/linkTasksToCacheTask.ts:94-114 | the write-through step's table and cache are those of its specification |
| LinkTasks.ProcessOne | src/task/linkTasksToCacheTask.ts:59-113 | for a payload without code or long URL the UPDATE is refused, nothing changes and the error leaves the loop; otherwise one iteration's table and cache are those of the per-job specification |
| LinkTasks.ProcessNext | src/task/linkTasksToCacheTask.ts:59-115 | one pass of the loop from a state that is the per-job specification applied to the first `k` jobs: it aborts exactly on an unusable payload and otherwise leaves the specification applied to the first `k + 1` |
| LinkTasks.ProcessBatch | src/task/linkTasksToCacheTask.ts:59-115 | the loop applies the per-job specification job by job, in claim order, up to the first unusable payload, and aborts exactly when the batch holds one |
| LinkTasks.RunTask | src/task/linkTasksToCacheTask.ts:34-127 | a run reclaims, claims a valid batch, and processes it up to the first unusable payload; it ends in the rethrown error exactly when the batch holds one |
| LongUrl.EffectivePort | src/zod/longUrl.schema.ts:47-51 | the explicit port if any, else 443 for https and 80 otherwise |
| LongUrl.DropTrailingDot | src/zod/longUrl.schema.ts:101 | exactly one trailing dot is removed, and nothing else changes |
| LongUrl.CollapseSlashesMeaning | src/zod/longUrl.schema.ts:114 | after collapsing there is no `//`, the non-slash characters are kept in order, and a path without `//` is unchanged |
| LongUrl.WithoutKeysMembers | src/zod/longUrl.schema.ts:122 | deleting the tracking parameters keeps exactly the pairs whose key is not one of them |
| LongUrl.InsertByKeySorted | src/zod/longUrl.schema.ts:127 | inserting a pair into a key-sorted list keeps it sorted |
| LongUrl.InsertByKeyKeeps | src/zod/longUrl.schema.ts:127 | insertion adds exactly that pair and keeps all others |
| LongUrl.SortByKeyMeaning | src/zod/longUrl.schema.ts:127 | the sort yields a key-sorted permutation of the parameters |
| LongUrl.NormalizeMeaning | src/zod/longUrl.schema.ts:98-137 | normalisation keeps scheme and credentials; the hostname has no upper-case letter; a default port is removed and the effective port kept; the path is non-empty with no `//`; with stripping on, the parameters are a sorted permutation of the non-tracking ones, otherwise unchanged; the hash is kept only when allowed |
| LongUrl.UrlObject.constructor | src/zod/longUrl.schema.ts:81 | the URL object holds the parsed parts |
| LongUrl.UrlObject.NormalizeHostname | src/zod/longUrl.schema.ts:101 | the hostname field becomes the lower-cased hostname without its trailing dot; nothing else changes |
| LongUrl.UrlObject.DropDefaultPort | src/zod/longUrl.schema.ts:104-107 | the port field is cleared exactly when it is the scheme's default |
| LongUrl.UrlObject.NormalizePathname | src/zod/longUrl.schema.ts:110-114 | an empty path becomes `/`, then slash runs collapse |
| LongUrl.UrlObject.DeleteParam | src/zod/longUrl.schema.ts:122 | `searchParams.delete` removes every pair with that key, in place |
| LongUrl.UrlObject.StripTrackingParams | src/zod/longUrl.schema.ts:120-133 | the parameters become the sorted list of the non-tracking pairs |
| LongUrl.UrlObject.Normalize | src/zod/longUrl.schema.ts:98-137 | the field-by-field updates leave the object equal to the normalised URL |
| LongUrl.TransformAccepts | src/zod/longUrl.schema.ts:77-156 | the transform succeeds exactly for a parseable http(s) URL with no credentials, an allowed port, a normalised host outside the short domain, and a serialised length within `maxLength`; the result is that serialisation |
| LongUrl.Transform | src/zod/longUrl.schema.ts:77-156 | the transform's checks, in the source's order, give the transform specification |
| LongUrl.IssuesEmptyIff | src/zod/longUrl.schema.ts:63-75 | the pre-transform checks raise no issue exactly when the input has no control character, no dangerous newline, and 1 to `maxLength` UTF-16 units |
| LongUrl.SafeParseMeaning | src/zod/longUrl.schema.ts:62-156 | (corrected) parsing succeeds exactly when the screening passes and the transform of the trimmed input succeeds; the value is the transform's output, within `maxLength`; an input that makes the source throw is refused with that error |
| LongUrl.SafeParseThrowsOnBadUrl | src/zod/longUrl.schema.ts:80-84 | as written, the clean input `nope`, which is no URL, makes `safeParse` throw instead of reporting failure |
| LongUrl.ThrowsWhenUnparsable | src/zod/longUrl.schema.ts:80-84 | as written, any screened, already-trimmed input that does not parse escapes as a thrown error |
| LongUrl.NopeScreensClean | src/zod/longUrl.schema.ts:63-75 | the input `nope` passes all pre-transform checks |
| LongUrl.Parse | src/zod/longUrl.schema.ts:62-156 | the schema method returns the parse result, with a throw of the transform reported as `Refused`; its callers handle that case as the throw it is in the source |
| ResetFailure.RecordResetFailure | src/utils/handlePasswordResetFailure.ts:9-20 | the command sequence gives the record specification's reply and cache |
| ResetFailure.RecordMeaning | src/utils/handlePasswordResetFailure.ts:9-20 | the reply is the count after the increment, which the key holds; the 900 s expiry is set only when the count becomes 1; no other key changes |
| ResetFailure.CheckResetLock | src/utils/handlePasswordResetFailure.ts:23-62 | the read-only check returns the check specification's answer |
| ResetFailure.CheckMeaning | src/utils/handlePasswordResetFailure.ts:23-62 | absent, empty, non-numeric or below-5 counts are unlocked with 0 s; locked exactly when the count is >= 5 and the TTL is positive, and then the remaining seconds are the TTL |
| ResetFailure.ClearResetFailures | src/utils/handlePasswordResetFailure.ts:65-70 | the DEL gives the clear specification's reply and cache |
| ResetFailure.ClearUnlocks | src/utils/handlePasswordResetFailure.ts:65-70 | after a successful clear the check reports unlocked at any later time |
| ResetFailure.ClearOnlyItsKey | src/utils/handlePasswordResetFailure.ts:65-70 | clearing changes no key other than `reset_pwd_fail:{userId}` |
| ResetFailure.LockAfterFifthFailure | src/utils/handlePasswordResetFailure.ts:9-62 | after failures within one window, the user is locked exactly when there were at least 5 and the window still has at least 0.5 s left, and the remaining seconds are the TTL |
| CreateLimit.NormalizeIp | src/middleware/limitCreateByIp.ts:9-10 | one leading `::ffff:` is removed; any other address is kept |
| CreateLimit.LimitCreateByIp | src/middleware/limitCreateByIp.ts:8-45 | the outcome and cache are those of the limiter specification |
| CreateLimit.EveryRequestCounts | src/middleware/limitCreateByIp.ts:11-44 | every request increments `rl:create:{ip}:{day}`, the first of a day also setting the expiry; a request gets 429 exactly when the new count exceeds 100 |
| CreateLimit.HundredFirstRefused | src/middleware/limitCreateByIp.ts:5-44 | within one day's window, request i (from 0) is refused exactly when i >= 100: the 101st and later are blocked |
| Permission.CheckPermissionMeaning | src/middleware/checkPermission.ts:5-45 | no role gets 401; `admin` is allowed without the cache; any other role is allowed exactly when `{module}:{type}` is in its set, gets 500 on a store error, and a denial names the required permission |
| Rbac.Members | src/rbac/loadRbacFromDb.ts:49-51 | each permission row becomes the member string `{module}:{type}`, in order |
| Rbac.WriteRoleM | src/rbac/loadRbacFromDb.ts:45-71 | one role's DEL-then-SADD gives the role-write specification's reply and cache |
| Rbac.WriteRoleMeaning | src/rbac/loadRbacFromDb.ts:45-71 | with working commands, the role key ends holding exactly the role's permission strings (absent when it has none), and no other key changes |
| Rbac.WriteRoleOk | src/rbac/loadRbacFromDb.ts:45-71 | with working commands the role write succeeds |
| Rbac.LoadOnce | src/rbac/loadRbacFromDb.ts:27-77 | one load attempt gives the load specification's error and cache |
| Rbac.NoRolesFails | src/rbac/loadRbacFromDb.ts:31-33 | with no roles the load fails and the cache is unchanged |
| Rbac.RoleKeyInjective | src/rbac/loadRbacFromDb.ts:46 | distinct role types have distinct keys |
| Rbac.WriteRolesSucceed | src/rbac/loadRbacFromDb.ts:45-74 | with working commands, writing any number of roles reports no error |
| Rbac.WriteRolesKeepOthers | src/rbac/loadRbacFromDb.ts:45-74 | writing the roles leaves every key that is not one of their role keys as it was |
| Rbac.WriteRolesExact | src/rbac/loadRbacFromDb.ts:45-74 | for distinct role types, after the writes every written role's key holds exactly its permissions |
| Rbac.EarlierRolesKept | src/rbac/loadRbacFromDb.ts:45-74 | writing one more role keeps every earlier role's set exact |
| Rbac.LoadRebuildsSets | src/rbac/loadRbacFromDb.ts:27-77 | a fault-free load with roles succeeds, every role's set is exactly its current permissions, and other keys are untouched |
| Rbac.GuardFollowsLoadedSets | src/rbac/loadRbacFromDb.ts:27-77 | after a load, the permission guard allows a non-admin role exactly the permissions loaded for it |
| Rbac.LoadRbacFromDb | src/rbac/loadRbacFromDb.ts:5-24 | the retry loop's error, cache, attempt count and waits are those of the retry specification |
| Rbac.RetryUnfold | src/rbac/loadRbacFromDb.ts:9-23 | one attempt either stops on success, rethrows on the last attempt, or waits `1000 * attempt` ms and tries again |
| Rbac.RetryMeaning | src/rbac/loadRbacFromDb.ts:9-23 | at most `retries` attempts; no attempt when `retries` < 1; the k-th wait is `1000 * k` ms; an error is reported only after the final attempt |
| Rbac.RetryStopsAtFirstSuccess | src/rbac/loadRbacFromDb.ts:9-23 | every attempt before the last one made has failed: the loop stops at the first success |
| TokenStore.FamiliesDisjoint | src/utils/redisProvider.ts:21-49 | refresh-token and blacklist keys never collide |
| TokenStore.Provider.constructor | src/utils/redisProvider.ts:11-15 | the provider keeps its cache and hash function |
| TokenStore.Provider.SaveRefreshToken | src/utils/redisProvider.ts:18-26 | SETEX of `refresh_token:{hash}` to the user name for 604800 s |
| TokenStore.Provider.IsRefreshTokenValid | src/utils/redisProvider.ts:29-34 | true exactly when the refresh key is live |
| TokenStore.Provider.DeleteRefreshToken | src/utils/redisProvider.ts:38-42 | DEL of the refresh key |
| TokenStore.Provider.AddToBlacklist | src/utils/redisProvider.ts:46-51 | no write for a lifetime <= 0; otherwise SETEX of `blacklist:{hash}` with the millisecond lifetime passed as the seconds argument, as written |
| TokenStore.Provider.IsInBlacklist | src/utils/redisProvider.ts:54-59 | true exactly when the blacklist key is live |
| TokenStore.SavedTokenValidForSevenDays | src/utils/redisProvider.ts:18-34 | after a save, the token is valid exactly until 7 days later |
| TokenStore.DeletedTokenInvalid | src/utils/redisProvider.ts:29-42 | after a delete, the token is invalid at any time |
| TokenStore.ExpiredTokenNotListed | src/utils/redisProvider.ts:46-47 | a token with no lifetime left is not listed and nothing changes |
| TokenStore.BlacklistSeconds | src/utils/redisProvider.ts:46-51 | the seconds cover the remaining milliseconds, by less than one extra second |
| TokenStore.ListedForRemainingLifetime | src/utils/redisProvider.ts:46-59 | (corrected) a listed token is blacklisted for its whole remaining lifetime and no longer than one second past it |
| TokenStore.AsWrittenListedForMsSeconds | src/utils/redisProvider.ts:46-51 | as written, a token with n ms left is listed until n seconds have passed, and not after |
| TokenStore.AsWrittenListsThousandfold | src/utils/redisProvider.ts:46-51 | as written, a token with 1 s left is still blacklisted 999 s later |
| TokenStore.FamiliesIndependent | src/utils/redisProvider.ts:18-51 | saving or deleting refresh tokens never changes a blacklist key, and blacklisting never changes a refresh key |
| DisabledLinks.InactiveCodes | src/task/deleteCheckForDisabledLinks.task.ts:9 | the codes collected are exactly those of the inactive rows |
| DisabledLinks.ShortKeys | src/task/deleteCheckForDisabledLinks.task.ts:17-22 | the key list is `short:{code}` for each code, in order |
| DisabledLinks.CollectKeys | src/task/deleteCheckForDisabledLinks.task.ts:17-22 | the push loop builds that key list |
| DisabledLinks.ShortKeysAppend | src/task/deleteCheckForDisabledLinks.task.ts:17-22 | one more code appends its key at the end |
| DisabledLinks.DelEachInOrder | src/task/deleteCheckForDisabledLinks.task.ts:34-43 | the per-key DEL loop gives the count and cache of its specification |
| DisabledLinks.DelOneMore | src/task/deleteCheckForDisabledLinks.task.ts:34-43 | one more DEL adds 1 to the count exactly when its key was live and not already listed, and removes it |
| DisabledLinks.DelEachIsOneUnlink | src/task/deleteCheckForDisabledLinks.task.ts:29-43 | per-key deletes count and remove exactly what one bulk UNLINK does |
| DisabledLinks.DeleteCheckForDisabledLinks | src/task/deleteCheckForDisabledLinks.task.ts:7-48 | the purge job's count and cache are those of the purge specification |
| DisabledLinks.PurgeQuietCases | src/task/deleteCheckForDisabledLinks.task.ts:12-46 | with no inactive links, or when the cache fails, the count is 0 and the cache unchanged |
| DisabledLinks.PurgeClearsInactive | src/task/deleteCheckForDisabledLinks.task.ts:25-43 | after a successful run no inactive row's key exists, no other key changed, and the count is the number of listed keys that were live, for either branch |
| SafeJoin.SafeJoinMeaning | src/utils/fs.utils.ts:15-40 | the join succeeds exactly when the resolved path lies strictly below the resolved base, and then returns the resolved path |
| SafeJoin.BelowIff | src/utils/fs.utils.ts:34-36 | the string test "starts with base + `/`" on clean paths is the same as being a strictly longer segment extension of the base |
| SafeJoin.NormalizeResolves | src/utils/fs.utils.ts:18-30 | resolving the normalised join gives the same segments as resolving the raw join |
| SafeJoin.ResultIsClean | src/utils/fs.utils.ts:30-39 | a returned path is absolute and has no empty, `.` or `..` segments |
| SafeJoin.BaseItselfRefused | src/utils/fs.utils.ts:24-36 | parts that resolve back to the base are refused |
| SafeJoin.NoPartsRefused | src/utils/fs.utils.ts:24-36 | a call with no parts is refused |
| SafeJoin.EscapeRefused | src/utils/fs.utils.ts:27-36 | `../../etc/passwd` under `/app/uploads` resolves to `/etc/passwd` and is refused |
| SafeJoin.ChildAccepted | src/utils/fs.utils.ts:15-40 | a plain file name under a base is accepted as `base/name` |
| SafeJoin.SplitJoin | src/utils/fs.utils.ts:18 | splitting what was joined from slash-free segments gives the segments back |
| SafeJoin.SplitConcat | src/utils/fs.utils.ts:18 | splitting `a/b` is splitting `a` followed by splitting `b` |
| SafeJoin.WalkNames | src/utils/fs.utils.ts:30 | resolving plain names just appends them |
| AuthSchema.ScanMeaning | src/zod/auth.schema.ts:9 | the one-pass scan finds a lower-case letter, an upper-case letter, a digit or a line terminator exactly when the string has one, and counts its UTF-16 units |
| AuthSchema.PasswordRegexIff | src/zod/auth.schema.ts:9 | the anchored look-ahead regex matches exactly the strings with a lower-case letter, an upper-case letter, a digit and at least 6 units, and no line terminator |
| AuthSchema.PasswordSchemaIsRule | src/zod/auth.schema.ts:13 | the password field is accepted exactly when it is a string that follows that rule |
| AuthSchema.RegisterMeaning | src/zod/auth.schema.ts:11-15 | register parsing succeeds exactly when the email has the e-mail form, the password follows the rule and the nickname has at least 6 units; a failure lists exactly the failing fields |
| UserSchema.UserIdSchema | src/zod/user.schema.ts:12 | an id is accepted exactly when it coerces to a positive safe integer, which is returned |
| UserSchema.AsWrittenRejectsEverything | src/zod/user.schema.ts:24-27 | as written, every password-change body gets an issue |
| UserSchema.AsWrittenRefusesValidChange | src/zod/user.schema.ts:24-27 | as written, a correct change with matching new passwords is refused on `newPasswordAgain` |
| UserSchema.BodyMeaning | src/zod/user.schema.ts:16-28 | (corrected) a body is accepted exactly when all three passwords follow the rule, the new one differs from the current one and the repeat equals the new one |
| UserSchema.RefinementPaths | src/zod/user.schema.ts:20-27 | on well-formed fields, the "same as current" issue is on `newPassword` exactly when the two are equal, and the "repeat differs" issue on `newPasswordAgain` exactly when the repeat differs |
| JwtSchema.RoleOf | src/zod/jwt.schema.ts:10 | the role is exactly the string "admin" or "user" |
| JwtSchema.AccessMeaning | src/zod/jwt.schema.ts:6-11 | an access payload is accepted exactly with non-empty id and name, a non-empty e-mail of e-mail form, and role "admin" or "user"; the fields are returned |
| JwtSchema.RefreshMeaning | src/zod/jwt.schema.ts:17 | a refresh payload is any non-empty string, returned as is |
| Zod.MinOneIsNonEmpty | src/zod/jwt.schema.ts:7-8 | a `min(1)` check on UTF-16 units holds exactly for a non-empty string |

## Left out

- I/O is not modelled: HTTP requests and responses, Express routing, logging to the database, SQL text, and Redis and Postgres connections. Handler results are `Http.Outcome`.
- Real concurrency is not modelled: thread interleavings, Postgres transactions and `FOR UPDATE SKIP LOCKED`. Single-flight is stated over explicit sequences of lock steps (`Redirect.RunLock`). A sleeping follower sees cache states that are parameters.
- Floating-point `Date` and `Number` arithmetic is not modelled. Times are integer milliseconds. `Number(...)` is a parameter that returns a `Links.JsNumber`.
- Foreign calls are parameters:
  - URL parsing and serialisation, `decodeURIComponent` and `localeCompare`;
  - `isForbiddenTarget` (DNS and address ranges);
  - `z.email()`;
  - SHA-256;
  - `crypto.randomUUID` (the token);
  - the seconds-until-midnight TTL and the date string of `limitCreateByIp`.
- From `createShortUrl`, only code derivation is modelled. The insert, the transaction and the response are SQL and I/O.
- `getAllLinks` is modelled without its `ORDER BY created_at DESC`. `Links.Listed` keeps table order, and the count query is the length of the filtered list.
- `deleteLink`, `handleAccessTokenBlackList`, `jwtProvider`, `authenticateTokents`, the rate limiter, the avatar and e-mail code, and `ensureDir` are not part of this model. They are I/O or library code.
- The job table is processed in claim order, because the order of rows returned by `UPDATE ... RETURNING` is unspecified. `link_task` ids are distinct map keys.
- `Rbac.WriteRolesExact`, `Rbac.LoadRebuildsSets`, `Rbac.GuardFollowsLoadedSets`: these assume distinct role types. The role table's uniqueness of `type` is not visible here.
- The role writes run concurrently under `Promise.all` in the source. This model runs them in role order, and the error is the first one in that order.
- `Rbac.LoadRbacFromDb`: `retries` is an integer. A fractional count is not modelled.
- `SafeJoin.SafeJoinMeaning`: paths are POSIX. Windows separators and drive letters are not modelled. The working directory is an absolute-path parameter. With the base `/`, every call is refused, as in the source, because `resolve("/") + "/"` is `//`.
- Schema bodies are objects whose fields are missing, a string, or some other value (`Zod.Field`). Other kinds of non-string fields all become `NotText`.
- The base-62 alphabet characters are assumed to be single UTF-16 code units, as the default alphabet's are.
- `Base62Codec.Base62.Decode`: the decoded string is a sequence of whole characters. The source indexes UTF-16 code units, so for a character outside the Basic Multilingual Plane it names the lone high surrogate as the bad character, where the model names the whole character. Whether decoding fails, and its value when it succeeds, are the same.
- `Links.ListLinks`: the OFFSET is computed exactly. The source computes it in floating point, so an exact product just below the bigint limit may round up past it. Within a few hundred of the limit, the two may disagree on the 500.
- `Base62Codec.Base62.Decode`: the guard's floating-point `Math.floor((MAX - digit) / base)` is modelled as integer division. The two agree for every digit and base the decoder can meet.
- `Rbac.WriteRoleM`: the call `redis.sadd` (src/rbac/loadRbacFromDb.ts:65) is taken to be the Redis SADD command. The client is a node-redis client, whose other calls here are camel-cased (`sIsMember`, `setEx`). Whether it has a method spelled `sadd` is not visible here. If it has none, every role with permissions fails right after its DEL.
- Points where the model follows the code as written, which a reader might not expect:
  - the leader answers 400 when the screening rejects the stored URL, and 500 when the transform throws;
  - a follower redirects to the raw cached text, without revalidating it;
  - the rounded-up cache TTL lets an entry outlive its link by less than a second (`Redirect.CacheTtl` states the exact bound);
  - the attempt counter is checked after the claim increments it, so a job gets at most 4 cache-write attempts;
  - `toLowerCase` is modelled for ASCII letters only (`Text.ToLower`), which is what host names are after URL parsing.

## Findings

| source | as written | input that shows it | evidently intended | confidence | as-written member | corrected member |
|---|---|---|---|---|---|---|
| src/zod/longUrl.schema.ts:80-84 | a `throw` inside the `transform` escapes `safeParse` instead of becoming a failed result | the text `nope` | an invalid URL is reported as a failed parse (`result.success == false`) | not executed | LongUrl.SafeParseThrowsOnBadUrl | LongUrl.SafeParseMeaning |
| src/controller/link.controllers.ts:287-296 | a page between 0 and 1 floors to 0, so the OFFSET is negative, Postgres refuses it and the listing answers 500 | `page=0.5` | the page is clamped to at least 1, as the page size is (a page whose OFFSET passes the bigint range still answers 500, which `Links.ListLinks` states) | not executed | Links.FractionalPageIsZero | Links.Page |
| src/zod/user.schema.ts:24-27 | the second refinement compares `newPasswordAgain` with itself, so it always fails | any body, e.g. current `Abc123`, new and repeat `Xyz789` | the repeat must equal `newPassword` | not executed | UserSchema.AsWrittenRefusesValidChange | UserSchema.BodyMeaning |
| src/task/linkTasksToCacheTask.ts:67 | the UPDATE for an unusable payload passes four values but references `$1, $3, $4, $5`, so Postgres refuses it and the error ends the run | a batch whose first job's payload has no `code` | the job is marked failed and the loop goes on | not executed | LinkTasks.AbortLeavesRestClaimed | LinkTasks.IntendedRunFinishesBatch |
| src/utils/redisProvider.ts:46-51 | the remaining lifetime in milliseconds is passed to SETEX, which counts seconds | a token with 1000 ms left | the token is listed for its remaining lifetime, in seconds | not executed | TokenStore.AsWrittenListsThousandfold | TokenStore.ListedForRemainingLifetime |
