/** The cache-population job queue (`linkTasksToCacheTask`). Rows of the
    `link_task` table move through the states pending, processing, done and
    failed; one run of the worker reclaims stale claims, claims a batch, and
    writes each claimed link into the cache. Every SQL statement is one atomic
    step on the table, a map from row id to row. */
module LinkTasks {
  import opened Wrappers
  import Cache
  import Clock
  import Links

  const BatchSize: nat := 100
  /** How long a claim may stay unfinished before it is reclaimed, in milliseconds. */
  const VisibilityTimeoutMs: int := 5 * 60 * 1000
  /** A claim whose attempt count reaches this fails without a cache write. */
  const MaxAttempts: nat := 5
  const BackoffCapSeconds: int := 3600

  datatype Status = Pending | Processing | Done | Failed

  /** The JSON payload of a job; `None` is a missing or null field. */
  datatype Payload = Payload(code: Option<string>, longUrl: Option<string>, expireAt: Option<string>)

  /** What `last_error` records: the payload text, "attempts exhausted", or the
      message of a cache error. */
  datatype TaskError = PayloadMissing | AttemptsExhausted | CacheError(failure: Cache.Failure)

  datatype LinkTask = LinkTask(status: Status, payload: Payload, attempts: nat, availableAt: int,
                               lockedAt: Option<int>, lockedBy: Option<string>,
                               lastError: Option<TaskError>, lastErrorAt: Option<int>,
                               processedAt: Option<int>)

  type Table = map<nat, LinkTask>

  /** A JSON string field that JavaScript treats as true: present and non-empty. */
  predicate Truthy(s: Option<string>) {
    s.Some? && s.value != ""
  }

  // ---------------------------------------------------------------- TTL and backoff

  /** `computeTtlSeconds`: no TTL for a missing, empty or unparseable expiry
      (`parseDate` stands for `new Date(...).getTime()`, `None` for NaN), 0 for
      an expiry that is not in the future, else the remaining seconds rounded up. */
  function ComputeTtlSeconds(expireAt: Option<string>, parseDate: string -> Option<int>, now: int): (r: Option<int>)
    ensures r.None? <==> !Truthy(expireAt) || parseDate(expireAt.value).None?
    ensures r.Some? ==> r.value >= 0 && (r.value == 0 <==> parseDate(expireAt.value).value <= now)
    ensures r.Some? && r.value > 0 ==>
      (r.value - 1) * 1000 < parseDate(expireAt.value).value - now <= r.value * 1000
  {
    if !Truthy(expireAt) then None
    else match parseDate(expireAt.value)
      case None => None
      case Some(t) =>
        var sec := Clock.CeilDiv(t - now, 1000);
        if sec <= 0 then Some(0) else Some(sec)
  }

  function Pow2(n: nat): (r: nat)
    ensures r >= 1
  {
    if n == 0 then 1 else 2 * Pow2(n - 1)
  }

  lemma {:induction false} Pow2Monotone(a: nat, b: nat)
    requires a <= b
    ensures Pow2(a) <= Pow2(b)
  {
    if a < b {
      Pow2Monotone(a, b - 1);
    }
  }

  /** `LEAST(3600, 60 * power(2, GREATEST(attempts, 1)))`, in seconds. */
  function BackoffSeconds(attempts: nat): int {
    var e := if attempts < 1 then 1 else attempts;
    var d := 60 * Pow2(e);
    if d < BackoffCapSeconds then d else BackoffCapSeconds
  }

  /** The retry delay starts at 120 s for the first attempt, doubles with each
      further attempt and is capped at one hour from the sixth attempt on. */
  lemma BackoffShape(attempts: nat)
    ensures 120 <= BackoffSeconds(attempts) <= BackoffCapSeconds
    ensures attempts <= 1 ==> BackoffSeconds(attempts) == 120
    ensures 1 <= attempts && 2 * BackoffSeconds(attempts) <= BackoffCapSeconds ==>
      BackoffSeconds(attempts + 1) == 2 * BackoffSeconds(attempts)
    ensures attempts >= 6 ==> BackoffSeconds(attempts) == BackoffCapSeconds
    ensures BackoffSeconds(attempts) <= BackoffSeconds(attempts + 1)
  {
    var e := if attempts < 1 then 1 else attempts;
    Pow2Monotone(1, e);
    Pow2Monotone(e, e + 1);
    if attempts >= 6 {
      Pow2Monotone(6, attempts);
      assert Pow2(6) == 64;
    }
  }

  // ---------------------------------------------------------------- reclaim

  /** A claim older than the visibility timeout. */
  predicate Stale(t: LinkTask, now: int) {
    t.status == Processing && t.lockedAt.Some? && t.lockedAt.value < now - VisibilityTimeoutMs
  }

  function Reclaimed(t: LinkTask, now: int): LinkTask {
    t.(status := Pending, availableAt := now, lockedAt := None, lockedBy := None)
  }

  /** The reclaim UPDATE: every stale claim goes back to pending, available now. */
  function ReclaimSpec(rows: Table, now: int): Table {
    map id | id in rows :: if Stale(rows[id], now) then Reclaimed(rows[id], now) else rows[id]
  }

  /** Reclaim changes exactly the stale claims: they become pending, available
      now, with their lock cleared; afterwards no claim is stale. */
  lemma ReclaimMeaning(rows: Table, now: int)
    ensures var r := ReclaimSpec(rows, now);
      && r.Keys == rows.Keys
      && (forall id :: id in rows ==> (r[id] != rows[id] <==> Stale(rows[id], now)))
      && (forall id :: id in rows && Stale(rows[id], now) ==>
            && r[id].status == Pending && r[id].availableAt == now
            && r[id].lockedAt.None? && r[id].lockedBy.None?
            && r[id].attempts == rows[id].attempts && r[id].payload == rows[id].payload)
      && (forall id :: id in r ==> !Stale(r[id], now))
  {
  }

  // ---------------------------------------------------------------- claim

  predicate Eligible(t: LinkTask, now: int) {
    t.status == Pending && t.availableAt <= now
  }

  /** The claim order: by `available_at`, then by id. */
  predicate Precedes(rows: Table, i: nat, j: nat)
    requires i in rows && j in rows
  {
    rows[i].availableAt < rows[j].availableAt || (rows[i].availableAt == rows[j].availableAt && i < j)
  }

  /** Ids of rows, strictly increasing in the claim order (hence distinct). */
  predicate SortedBy(rows: Table, s: seq<nat>) {
    && (forall k :: 0 <= k < |s| ==> s[k] in rows)
    && (forall a, b :: 0 <= a < b < |s| ==> Precedes(rows, s[a], s[b]))
  }

  /** What the claim's `SELECT ... WHERE status = 'pending' AND available_at <= now()
      ORDER BY available_at, id LIMIT 100` selects: eligible rows in claim order,
      at most 100 of them, and no eligible row left out precedes one taken; when
      fewer than 100 are taken, every eligible row is taken. */
  predicate IsClaimBatch(rows: Table, now: int, batch: seq<nat>) {
    && SortedBy(rows, batch)
    && (forall k :: 0 <= k < |batch| ==> Eligible(rows[batch[k]], now))
    && |batch| <= BatchSize
    && (forall id :: id in rows && Eligible(rows[id], now) && id !in batch ==>
          |batch| == BatchSize && forall k :: 0 <= k < |batch| ==> Precedes(rows, batch[k], id))
  }

  function ClaimedTask(t: LinkTask, now: int, worker: string): LinkTask {
    t.(status := Processing, lockedAt := Some(now), lockedBy := Some(worker), attempts := t.attempts + 1)
  }

  /** The claim UPDATE on the selected rows. */
  function ClaimSpec(rows: Table, batch: seq<nat>, now: int, worker: string): Table {
    map id | id in rows :: if id in batch then ClaimedTask(rows[id], now, worker) else rows[id]
  }

  lemma PrecedesTotal(rows: Table, i: nat, j: nat)
    requires i in rows && j in rows && i != j
    ensures Precedes(rows, i, j) != Precedes(rows, j, i)
  {
  }

  /** Places `x` in a sorted id list. */
  function InsertSorted(rows: Table, s: seq<nat>, x: nat): (r: seq<nat>)
    requires x in rows && SortedBy(rows, s) && x !in s
    ensures SortedBy(rows, r)
    ensures |r| == |s| + 1
    ensures forall y :: y in r <==> y in s || y == x
  {
    if s == [] then [x]
    else if Precedes(rows, x, s[0]) then [x] + s
    else
      PrecedesTotal(rows, x, s[0]);
      var tail := InsertSorted(rows, s[1..], x);
      assert forall y :: y in s[1..] ==> Precedes(rows, s[0], y);
      [s[0]] + tail
  }

  // ---------------------------------------------------------------- per-job processing

  /** The table and the cache together. */
  datatype World = World(rows: Table, entries: Cache.Entries)

  /** The per-job UPDATEs. */
  datatype Update = MarkFailed(error: TaskError, processed: bool) | MarkDone | Retry(attempts: nat, error: TaskError)

  function Applied(t: LinkTask, u: Update, now: int): LinkTask {
    match u
    case MarkFailed(e, processed) =>
      t.(status := Failed, processedAt := if processed then Some(now) else t.processedAt,
         lastError := Some(e), lastErrorAt := Some(now), lockedAt := None, lockedBy := None)
    case MarkDone =>
      t.(status := Done, processedAt := Some(now), lockedAt := None, lockedBy := None)
    case Retry(a, e) =>
      t.(status := Pending, availableAt := now + BackoffSeconds(a) * 1000,
         lastError := Some(e), lastErrorAt := Some(now), lockedAt := None, lockedBy := None)
  }

  /** `UPDATE ... WHERE id = $id AND status = 'processing'`. */
  function Guarded(rows: Table, id: nat, u: Update, now: int): Table {
    if id in rows && rows[id].status == Processing then rows[id := Applied(rows[id], u, now)] else rows
  }

  /** The cache write of a job (command `setFault`): SET without expiry for no
      TTL, SETEX otherwise (which Redis rejects for a TTL of 0), then `done`; a
      cache error lands in the catch, which reschedules the job. */
  function WriteThrough(w: World, id: nat, attempts: nat, key: string, url: string, ttl: Option<int>,
                        now: int, setFault: bool): World
  {
    var s := if ttl.None? then Cache.Attempt(setFault, w.entries, Cache.SetStep(w.entries, key, Cache.Str(url), None))
             else Cache.Attempt(setFault, w.entries, Cache.SetExStep(w.entries, key, ttl.value, Cache.Str(url), now));
    if s.reply.Err? then World(Guarded(w.rows, id, Retry(attempts, CacheError(s.reply.failure)), now), s.after)
    else World(Guarded(w.rows, id, MarkDone, now), s.after)
  }

  /** A payload the worker cannot use: `code` or `long_url` is missing or empty. */
  predicate Unusable(p: Payload) {
    !Truthy(p.code) || !Truthy(p.longUrl)
  }

  /** One iteration of the worker loop for claimed row `id`, whose claimed
      state (`RETURNING`) is `snap`, as it is meant to run: an unusable payload
      marks the job failed. (The UPDATE written for that case is refused by
      Postgres; `ProcessOne` models what the code then does.) Its cache
      commands are `delFault` (the DEL of an expired link) and `setFault` (the write). */
  function ProcessJob(w: World, id: nat, snap: LinkTask, now: int, parseDate: string -> Option<int>,
                      delFault: bool, setFault: bool): World
  {
    var p := snap.payload;
    if Unusable(p) then
      World(Guarded(w.rows, id, MarkFailed(PayloadMissing, false), now), w.entries)
    else if snap.attempts >= MaxAttempts then
      World(Guarded(w.rows, id, MarkFailed(AttemptsExhausted, true), now), w.entries)
    else
      var key := Links.ShortKey(p.code.value);
      var ttl := ComputeTtlSeconds(p.expireAt, parseDate, now);
      if ttl == Some(0) then
        var d := Cache.Attempt(delFault, w.entries, Cache.DelStep(w.entries, [key], now));
        if d.reply.Err? then World(Guarded(w.rows, id, Retry(snap.attempts, CacheError(d.reply.failure)), now), d.after)
        else WriteThrough(World(Guarded(w.rows, id, MarkDone, now), d.after), id, snap.attempts, key, p.longUrl.value, ttl, now, setFault)
      else WriteThrough(w, id, snap.attempts, key, p.longUrl.value, ttl, now, setFault)
  }

  /** The first `k` iterations of the worker loop; job `i` uses cache commands
      `2 i` and `2 i + 1`. */
  function ProcessPrefix(w: World, snap: Table, batch: seq<nat>, k: nat, now: int,
                         parseDate: string -> Option<int>, faults: seq<bool>): World
    requires k <= |batch| && forall i :: 0 <= i < |batch| ==> batch[i] in snap
  {
    if k == 0 then w
    else
      var before := ProcessPrefix(w, snap, batch, k - 1, now, parseDate, faults);
      ProcessJob(before, batch[k - 1], snap[batch[k - 1]], now, parseDate,
                 Cache.Fault(faults, 2 * (k - 1)), Cache.Fault(faults, 2 * (k - 1) + 1))
  }

  /** How many jobs the loop as written gets through: the UPDATE for an unusable
      payload binds four values to `$1, $3, $4, $5`, so Postgres refuses it and
      the error leaves the loop at the first such job. */
  function Reached(snap: Table, batch: seq<nat>): (n: nat)
    requires forall i :: 0 <= i < |batch| ==> batch[i] in snap
    ensures n <= |batch|
  {
    if |batch| == 0 || Unusable(snap[batch[0]].payload) then 0
    else 1 + Reached(snap, batch[1..])
  }

  /** The loop gets through only usable payloads, and stops early only at an
      unusable one. */
  lemma {:induction false} ReachedMeaning(snap: Table, batch: seq<nat>)
    requires forall i :: 0 <= i < |batch| ==> batch[i] in snap
    ensures forall i :: 0 <= i < Reached(snap, batch) ==> !Unusable(snap[batch[i]].payload)
    ensures Reached(snap, batch) < |batch| ==> Unusable(snap[batch[Reached(snap, batch)]].payload)
  {
    if |batch| > 0 && !Unusable(snap[batch[0]].payload) {
      var rest := batch[1..];
      ReachedMeaning(snap, rest);
      assert forall i :: 1 <= i < |batch| ==> batch[i] == rest[i - 1];
    }
  }

  /** `Reached` is the index of the first unusable payload, or the batch length
      when there is none. */
  lemma {:induction false} ReachedFirst(snap: Table, batch: seq<nat>, k: nat)
    requires forall i :: 0 <= i < |batch| ==> batch[i] in snap
    requires k <= |batch| && forall i :: 0 <= i < k ==> !Unusable(snap[batch[i]].payload)
    requires k == |batch| || Unusable(snap[batch[k]].payload)
    ensures Reached(snap, batch) == k
  {
    if k > 0 {
      var rest := batch[1..];
      assert forall i :: 0 <= i < k - 1 ==> rest[i] == batch[i + 1];
      ReachedFirst(snap, rest, k - 1);
    }
  }

  lemma UsableStep(snap: Table, batch: seq<nat>, k: nat)
    requires k < |batch| && forall i :: 0 <= i < |batch| ==> batch[i] in snap
    requires forall i :: 0 <= i < k ==> !Unusable(snap[batch[i]].payload)
    requires !Unusable(snap[batch[k]].payload)
    ensures forall i :: 0 <= i < k + 1 ==> !Unusable(snap[batch[i]].payload)
  {
  }

  lemma PrefixStep(w: World, snap: Table, batch: seq<nat>, k: nat, now: int,
                   parseDate: string -> Option<int>, faults: seq<bool>)
    requires k < |batch| && forall i :: 0 <= i < |batch| ==> batch[i] in snap
    ensures ProcessPrefix(w, snap, batch, k + 1, now, parseDate, faults)
         == ProcessJob(ProcessPrefix(w, snap, batch, k, now, parseDate, faults), batch[k], snap[batch[k]],
                       now, parseDate, Cache.Fault(faults, 2 * k), Cache.Fault(faults, 2 * k + 1))
  {
  }

  // ---------------------------------------------------------------- properties of a job

  /** The row `id` as the per-job UPDATEs find it: still claimed. */
  predicate Claimed(w: World, id: nat) {
    id in w.rows && w.rows[id].status == Processing
  }

  /** The row after `Applied` keeps what no per-job UPDATE touches. */
  predicate KeepsClaim(before: LinkTask, after: LinkTask) {
    after.payload == before.payload && after.attempts == before.attempts
  }

  /** As meant, a payload without `code` or `long_url` fails the job at once: no
      backoff, no cache command, and only that row changes. */
  lemma MissingPayloadFails(w: World, id: nat, snap: LinkTask, now: int, parseDate: string -> Option<int>,
                            delFault: bool, setFault: bool)
    requires Claimed(w, id)
    requires Unusable(snap.payload)
    ensures var r := ProcessJob(w, id, snap, now, parseDate, delFault, setFault);
      && r.entries == w.entries
      && r.rows == w.rows[id := r.rows[id]]
      && r.rows[id].status == Failed && r.rows[id].lastError == Some(PayloadMissing)
      && r.rows[id].availableAt == w.rows[id].availableAt
      && r.rows[id].lockedAt.None? && r.rows[id].lockedBy.None?
  {
  }

  /** A claim that has reached 5 attempts fails with "attempts exhausted" and
      writes nothing to the cache; being failed, it is never claimed again. */
  lemma ExhaustedJobFails(w: World, id: nat, snap: LinkTask, now: int, parseDate: string -> Option<int>,
                          delFault: bool, setFault: bool)
    requires Claimed(w, id)
    requires Truthy(snap.payload.code) && Truthy(snap.payload.longUrl) && snap.attempts >= MaxAttempts
    ensures var r := ProcessJob(w, id, snap, now, parseDate, delFault, setFault);
      && r.entries == w.entries
      && r.rows == w.rows[id := r.rows[id]]
      && r.rows[id].status == Failed && r.rows[id].lastError == Some(AttemptsExhausted)
      && r.rows[id].processedAt == Some(now)
      && forall later: int :: !Eligible(r.rows[id], later)
  {
  }

  /** A link with no TTL is cached without expiry, one with a positive TTL
      expires after that many seconds; the job is then done. */
  lemma LiveLinkCached(w: World, id: nat, snap: LinkTask, now: int, parseDate: string -> Option<int>,
                       delFault: bool, setFault: bool)
    requires Claimed(w, id) && !setFault
    requires Truthy(snap.payload.code) && Truthy(snap.payload.longUrl) && snap.attempts < MaxAttempts
    requires ComputeTtlSeconds(snap.payload.expireAt, parseDate, now) != Some(0)
    ensures var r := ProcessJob(w, id, snap, now, parseDate, delFault, setFault);
      var ttl := ComputeTtlSeconds(snap.payload.expireAt, parseDate, now);
      && r.entries == w.entries[Links.ShortKey(snap.payload.code.value) :=
           Cache.Entry(Cache.Str(snap.payload.longUrl.value), if ttl.None? then None else Some(now + ttl.value * 1000))]
      && r.rows == w.rows[id := r.rows[id]]
      && r.rows[id].status == Done && r.rows[id].processedAt == Some(now)
      && r.rows[id].lockedAt.None? && r.rows[id].lockedBy.None?
  {
  }

  /** An expired link: its cache entry is deleted and the job is done. The
      write that follows (SETEX with 0 seconds) is refused and its catch
      reschedules nothing, because the row is no longer processing. */
  lemma ExpiredLinkDropped(w: World, id: nat, snap: LinkTask, now: int, parseDate: string -> Option<int>,
                           delFault: bool, setFault: bool)
    requires Claimed(w, id) && !delFault
    requires Truthy(snap.payload.code) && Truthy(snap.payload.longUrl) && snap.attempts < MaxAttempts
    requires ComputeTtlSeconds(snap.payload.expireAt, parseDate, now) == Some(0)
    ensures var r := ProcessJob(w, id, snap, now, parseDate, delFault, setFault);
      && r.entries == w.entries - {Links.ShortKey(snap.payload.code.value)}
      && r.rows == w.rows[id := r.rows[id]]
      && r.rows[id].status == Done && r.rows[id].processedAt == Some(now)
      && r.rows[id].lastError == w.rows[id].lastError
  {
    assert Cache.Without(w.entries, [Links.ShortKey(snap.payload.code.value)])
        == w.entries - {Links.ShortKey(snap.payload.code.value)};
  }

  /** A cache command that fails reschedules the job: pending again after the
      backoff for its attempt count, with the error recorded and the lock
      cleared; the cache is unchanged. */
  lemma CacheFailureReschedules(w: World, id: nat, snap: LinkTask, now: int, parseDate: string -> Option<int>,
                                delFault: bool, setFault: bool)
    requires Claimed(w, id)
    requires Truthy(snap.payload.code) && Truthy(snap.payload.longUrl) && snap.attempts < MaxAttempts
    requires var ttl := ComputeTtlSeconds(snap.payload.expireAt, parseDate, now);
      if ttl == Some(0) then delFault else setFault
    ensures var r := ProcessJob(w, id, snap, now, parseDate, delFault, setFault);
      && r.entries == w.entries
      && r.rows == w.rows[id := r.rows[id]]
      && r.rows[id].status == Pending
      && r.rows[id].availableAt == now + BackoffSeconds(snap.attempts) * 1000
      && r.rows[id].lastError == Some(CacheError(Cache.Unavailable)) && r.rows[id].lastErrorAt == Some(now)
      && r.rows[id].lockedAt.None? && r.rows[id].lockedBy.None?
      && KeepsClaim(w.rows[id], r.rows[id])
  {
  }

  /** What the worker loop may do to the table: a row either stays as it was,
      or it was processing and leaves that state, keeping its payload and
      attempt count. */
  predicate Settles(before: Table, after: Table) {
    && after.Keys == before.Keys
    && forall id :: id in before ==>
         || after[id] == before[id]
         || (before[id].status == Processing && after[id].status != Processing && KeepsClaim(before[id], after[id]))
  }

  /** A job touches only its own row and, in the cache, only `short:{code}`. */
  lemma ProcessJobSettles(w: World, id: nat, snap: LinkTask, now: int, parseDate: string -> Option<int>,
                          delFault: bool, setFault: bool)
    ensures var r := ProcessJob(w, id, snap, now, parseDate, delFault, setFault);
      && Settles(w.rows, r.rows)
      && (forall other :: other in w.rows && other != id ==> r.rows[other] == w.rows[other])
      && (Truthy(snap.payload.code) ==> forall k :: k != Links.ShortKey(snap.payload.code.value) ==>
            (k in r.entries <==> k in w.entries) && (k in w.entries ==> r.entries[k] == w.entries[k]))
      && (Unusable(snap.payload) || snap.attempts >= MaxAttempts ==>
            r.entries == w.entries)
  {
    var p := snap.payload;
    if Unusable(p) {
      GuardedSettles(w.rows, id, MarkFailed(PayloadMissing, false), now);
    } else if snap.attempts >= MaxAttempts {
      GuardedSettles(w.rows, id, MarkFailed(AttemptsExhausted, true), now);
    } else {
      var key := Links.ShortKey(p.code.value);
      var ttl := ComputeTtlSeconds(p.expireAt, parseDate, now);
      if ttl == Some(0) {
        var d := Cache.Attempt(delFault, w.entries, Cache.DelStep(w.entries, [key], now));
        assert Cache.Without(w.entries, [key]) == w.entries - {key};
        assert AsideFrom(w.entries, d.after, key);
        if d.reply.Err? {
          GuardedSettles(w.rows, id, Retry(snap.attempts, CacheError(d.reply.failure)), now);
        } else {
          var done := Guarded(w.rows, id, MarkDone, now);
          GuardedSettles(w.rows, id, MarkDone, now);
          WriteThroughSettles(World(done, d.after), id, snap.attempts, key, p.longUrl.value, ttl, now, setFault);
          var r := WriteThrough(World(done, d.after), id, snap.attempts, key, p.longUrl.value, ttl, now, setFault);
          SettlesTrans(w.rows, done, r.rows);
        }
      } else {
        WriteThroughSettles(w, id, snap.attempts, key, p.longUrl.value, ttl, now, setFault);
      }
    }
  }

  /** `m'` agrees with `m` on every key but `key`. */
  ghost predicate AsideFrom(m: Cache.Entries, m': Cache.Entries, key: string) {
    forall k :: k != key ==> (k in m' <==> k in m) && (k in m ==> m'[k] == m[k])
  }

  /** A per-job UPDATE settles the table and touches only its own row. */
  lemma GuardedSettles(rows: Table, id: nat, u: Update, now: int)
    ensures Settles(rows, Guarded(rows, id, u, now))
    ensures forall other :: other in rows && other != id ==> Guarded(rows, id, u, now)[other] == rows[other]
  {
  }

  /** The cache write settles the table, touches only its own row and, in the
      cache, only `key`. */
  lemma WriteThroughSettles(w: World, id: nat, attempts: nat, key: string, url: string, ttl: Option<int>,
                            now: int, setFault: bool)
    ensures var r := WriteThrough(w, id, attempts, key, url, ttl, now, setFault);
      && Settles(w.rows, r.rows)
      && (forall other :: other in w.rows && other != id ==> r.rows[other] == w.rows[other])
      && AsideFrom(w.entries, r.entries, key)
  {
    var s := if ttl.None? then Cache.Attempt(setFault, w.entries, Cache.SetStep(w.entries, key, Cache.Str(url), None))
             else Cache.Attempt(setFault, w.entries, Cache.SetExStep(w.entries, key, ttl.value, Cache.Str(url), now));
    assert AsideFrom(w.entries, s.after, key);
    if s.reply.Err? {
      GuardedSettles(w.rows, id, Retry(attempts, CacheError(s.reply.failure)), now);
    } else {
      GuardedSettles(w.rows, id, MarkDone, now);
    }
  }

  /** Settling twice is settling: a row that left `processing` stays as it is. */
  lemma SettlesTrans(a: Table, b: Table, c: Table)
    requires Settles(a, b) && Settles(b, c)
    ensures Settles(a, c)
  {
  }

  /** The worker loop settles the table: no row finishes twice, and a row that
      was pending, done or failed when the loop began is left as it was. */
  lemma {:induction false} ProcessPrefixSettles(w: World, snap: Table, batch: seq<nat>, k: nat, now: int,
                                                parseDate: string -> Option<int>, faults: seq<bool>)
    requires k <= |batch| && forall i :: 0 <= i < |batch| ==> batch[i] in snap
    ensures Settles(w.rows, ProcessPrefix(w, snap, batch, k, now, parseDate, faults).rows)
  {
    if k > 0 {
      ProcessPrefixSettles(w, snap, batch, k - 1, now, parseDate, faults);
      var before := ProcessPrefix(w, snap, batch, k - 1, now, parseDate, faults);
      ProcessJobSettles(before, batch[k - 1], snap[batch[k - 1]], now, parseDate,
                        Cache.Fault(faults, 2 * (k - 1)), Cache.Fault(faults, 2 * (k - 1) + 1));
    }
  }

  /** The claim moves exactly the batch from pending to processing, counting
      one more attempt and recording the worker; other rows are untouched. */
  lemma ClaimMeaning(rows: Table, now: int, batch: seq<nat>, worker: string)
    requires IsClaimBatch(rows, now, batch)
    ensures var r := ClaimSpec(rows, batch, now, worker);
      && r.Keys == rows.Keys
      && (forall id :: id in rows && id !in batch ==> r[id] == rows[id])
      && (forall id :: id in batch ==>
            && rows[id].status == Pending && r[id].status == Processing
            && r[id].attempts == rows[id].attempts + 1
            && r[id].lockedAt == Some(now) && r[id].lockedBy == Some(worker)
            && r[id].payload == rows[id].payload && r[id].availableAt == rows[id].availableAt)
  {
  }

  /** A done or failed row is final: one whole run of the job leaves it as it was. */
  lemma FinishedRowsStay(rows: Table, now: int, batch: seq<nat>, worker: string, m: Cache.Entries,
                         parseDate: string -> Option<int>, faults: seq<bool>, id: nat)
    requires IsClaimBatch(ReclaimSpec(rows, now), now, batch)
    requires id in rows && (rows[id].status == Done || rows[id].status == Failed)
    ensures var claimed := ClaimSpec(ReclaimSpec(rows, now), batch, now, worker);
      var r := ProcessPrefix(World(claimed, m), claimed, batch, Reached(claimed, batch), now, parseDate, faults);
      id in r.rows && r.rows[id] == rows[id]
  {
    var reclaimed := ReclaimSpec(rows, now);
    assert reclaimed[id] == rows[id];
    var claimed := ClaimSpec(reclaimed, batch, now, worker);
    ClaimMeaning(reclaimed, now, batch, worker);
    assert id !in batch;
    assert claimed[id] == rows[id];
    ProcessPrefixSettles(World(claimed, m), claimed, batch, Reached(claimed, batch), now, parseDate, faults);
  }

  /** A claimed job always leaves `processing`: done, failed, or pending again. */
  lemma ProcessJobFinishes(w: World, id: nat, snap: LinkTask, now: int, parseDate: string -> Option<int>,
                           delFault: bool, setFault: bool)
    requires Claimed(w, id)
    ensures var r := ProcessJob(w, id, snap, now, parseDate, delFault, setFault);
      id in r.rows && r.rows[id].status != Processing
  {
    var p := snap.payload;
    if !Unusable(p) && snap.attempts < MaxAttempts {
      var key := Links.ShortKey(p.code.value);
      var ttl := ComputeTtlSeconds(p.expireAt, parseDate, now);
      if ttl == Some(0) {
        var d := Cache.Attempt(delFault, w.entries, Cache.DelStep(w.entries, [key], now));
        if d.reply.Ok? {
          var done := Guarded(w.rows, id, MarkDone, now);
          assert done[id].status == Done;
          var r := WriteThrough(World(done, d.after), id, snap.attempts, key, p.longUrl.value, ttl, now, setFault);
          assert r.rows == done;
        }
      }
    }
  }

  predicate Distinct(batch: seq<nat>) {
    forall a, b :: 0 <= a < b < |batch| ==> batch[a] != batch[b]
  }

  lemma ClaimBatchDistinct(rows: Table, now: int, batch: seq<nat>)
    requires IsClaimBatch(rows, now, batch)
    ensures Distinct(batch)
  {
    forall a, b | 0 <= a < b < |batch|
      ensures batch[a] != batch[b]
    {
      assert Precedes(rows, batch[a], batch[b]);
    }
  }

  /** The first `k` jobs of a batch of distinct claimed rows leave `processing`;
      every later job's row is still exactly as claimed. */
  lemma {:induction false} PrefixFinishes(w: World, snap: Table, batch: seq<nat>, k: nat, now: int,
                                          parseDate: string -> Option<int>, faults: seq<bool>)
    requires k <= |batch| && forall i :: 0 <= i < |batch| ==> batch[i] in snap
    requires Distinct(batch)
    requires forall i :: 0 <= i < |batch| ==> batch[i] in w.rows && w.rows[batch[i]].status == Processing
    ensures var r := ProcessPrefix(w, snap, batch, k, now, parseDate, faults);
      && (forall i :: 0 <= i < k ==> batch[i] in r.rows && r.rows[batch[i]].status != Processing)
      && (forall i :: k <= i < |batch| ==> batch[i] in r.rows && r.rows[batch[i]] == w.rows[batch[i]])
  {
    if k > 0 {
      PrefixFinishes(w, snap, batch, k - 1, now, parseDate, faults);
      var before := ProcessPrefix(w, snap, batch, k - 1, now, parseDate, faults);
      var id := batch[k - 1];
      var df, sf := Cache.Fault(faults, 2 * (k - 1)), Cache.Fault(faults, 2 * (k - 1) + 1);
      assert Claimed(before, id);
      ProcessJobFinishes(before, id, snap[id], now, parseDate, df, sf);
      ProcessJobSettles(before, id, snap[id], now, parseDate, df, sf);
    }
  }

  /** As written, a run that meets an unusable payload stops there: that job and
      every later one of the batch stay `processing`, still locked by this
      worker, until a later run's reclaim finds them stale. */
  lemma AbortLeavesRestClaimed(rows: Table, now: int, batch: seq<nat>, worker: string, m: Cache.Entries,
                               parseDate: string -> Option<int>, faults: seq<bool>, i: nat)
    requires IsClaimBatch(ReclaimSpec(rows, now), now, batch)
    requires var claimed := ClaimSpec(ReclaimSpec(rows, now), batch, now, worker);
      Reached(claimed, batch) <= i < |batch|
    ensures var claimed := ClaimSpec(ReclaimSpec(rows, now), batch, now, worker);
      var r := ProcessPrefix(World(claimed, m), claimed, batch, Reached(claimed, batch), now, parseDate, faults);
      && batch[i] in r.rows && r.rows[batch[i]] == claimed[batch[i]]
      && r.rows[batch[i]].status == Processing && r.rows[batch[i]].lockedBy == Some(worker)
  {
    var reclaimed := ReclaimSpec(rows, now);
    var claimed := ClaimSpec(reclaimed, batch, now, worker);
    ClaimMeaning(reclaimed, now, batch, worker);
    ClaimBatchDistinct(reclaimed, now, batch);
    assert forall j :: 0 <= j < |batch| ==> batch[j] in batch;
    PrefixFinishes(World(claimed, m), claimed, batch, Reached(claimed, batch), now, parseDate, faults);
  }

  /** As meant, every job of the batch leaves `processing` in one run. */
  lemma IntendedRunFinishesBatch(rows: Table, now: int, batch: seq<nat>, worker: string, m: Cache.Entries,
                                 parseDate: string -> Option<int>, faults: seq<bool>, i: nat)
    requires IsClaimBatch(ReclaimSpec(rows, now), now, batch)
    requires i < |batch|
    ensures var claimed := ClaimSpec(ReclaimSpec(rows, now), batch, now, worker);
      var r := ProcessPrefix(World(claimed, m), claimed, batch, |batch|, now, parseDate, faults);
      batch[i] in r.rows && r.rows[batch[i]].status != Processing
  {
    var reclaimed := ReclaimSpec(rows, now);
    var claimed := ClaimSpec(reclaimed, batch, now, worker);
    ClaimMeaning(reclaimed, now, batch, worker);
    ClaimBatchDistinct(reclaimed, now, batch);
    assert forall j :: 0 <= j < |batch| ==> batch[j] in batch;
    PrefixFinishes(World(claimed, m), claimed, batch, |batch|, now, parseDate, faults);
  }

  // ---------------------------------------------------------------- the table and the worker

  class JobTable {
    var rows: Table

    constructor (rows: Table)
      ensures this.rows == rows
    {
      this.rows := rows;
    }

    method Reclaim(now: int)
      modifies this
      ensures rows == ReclaimSpec(old(rows), now)
    {
      rows := ReclaimSpec(rows, now);
    }

    /** Selects the batch in claim order by insertion, then claims it. */
    method Claim(now: int, worker: string) returns (batch: seq<nat>)
      modifies this
      ensures IsClaimBatch(old(rows), now, batch)
      ensures rows == ClaimSpec(old(rows), batch, now, worker)
    {
      var eligible := set id | id in rows && Eligible(rows[id], now);
      var sorted: seq<nat> := [];
      var rest := eligible;
      while rest != {}
        invariant rest <= eligible
        invariant SortedBy(rows, sorted)
        invariant forall y :: y in sorted <==> y in eligible && y !in rest
        decreases |rest|
      {
        var x :| x in rest;
        sorted := InsertSorted(rows, sorted, x);
        rest := rest - {x};
      }
      batch := if |sorted| <= BatchSize then sorted else sorted[..BatchSize];
      assert forall k :: 0 <= k < |batch| ==> batch[k] == sorted[k] && sorted[k] in sorted;
      forall id | id in rows && Eligible(rows[id], now) && id !in batch
        ensures |batch| == BatchSize && forall k :: 0 <= k < |batch| ==> Precedes(rows, batch[k], id)
      {
        assert id in eligible && id in sorted;
        var j :| 0 <= j < |sorted| && sorted[j] == id;
      }
      rows := ClaimSpec(rows, batch, now, worker);
    }

    method Update(id: nat, u: Update, now: int)
      modifies this
      ensures rows == Guarded(old(rows), id, u, now)
    {
      rows := Guarded(rows, id, u, now);
    }
  }

  method WriteJob(jobs: JobTable, redis: Cache.Redis, id: nat, attempts: nat, key: string, url: string,
                  ttl: Option<int>, now: int, setFault: bool)
    modifies jobs, redis
    ensures World(jobs.rows, redis.entries)
         == WriteThrough(World(old(jobs.rows), old(redis.entries)), id, attempts, key, url, ttl, now, setFault)
  {
    var s: Cache.Reply<()>;
    if ttl.None? {
      s := redis.Set(key, Cache.Str(url), setFault);
    } else {
      s := redis.SetEx(key, ttl.value, Cache.Str(url), now, setFault);
    }
    if s.Err? {
      jobs.Update(id, Retry(attempts, CacheError(s.failure)), now);
    } else {
      jobs.Update(id, MarkDone, now);
    }
  }

  /** One iteration of the loop. For an unusable payload the UPDATE is refused,
      nothing changes and `aborted` reports the error that leaves the loop. */
  method ProcessOne(jobs: JobTable, redis: Cache.Redis, id: nat, snap: LinkTask, now: int,
                    parseDate: string -> Option<int>, delFault: bool, setFault: bool)
    returns (aborted: bool)
    modifies jobs, redis
    ensures aborted <==> Unusable(snap.payload)
    ensures aborted ==> jobs.rows == old(jobs.rows) && redis.entries == old(redis.entries)
    ensures !aborted ==>
      World(jobs.rows, redis.entries)
      == ProcessJob(World(old(jobs.rows), old(redis.entries)), id, snap, now, parseDate, delFault, setFault)
  {
    var p := snap.payload;
    if Unusable(p) {
      return true;
    }
    aborted := false;
    if snap.attempts >= MaxAttempts {
      jobs.Update(id, MarkFailed(AttemptsExhausted, true), now);
      return;
    }
    var key := Links.ShortKey(p.code.value);
    var ttl := ComputeTtlSeconds(p.expireAt, parseDate, now);
    if ttl == Some(0) {
      var d := redis.Del([key], now, delFault);
      if d.Err? {
        jobs.Update(id, Retry(snap.attempts, CacheError(d.failure)), now);
        return;
      }
      jobs.Update(id, MarkDone, now);
    }
    WriteJob(jobs, redis, id, snap.attempts, key, p.longUrl.value, ttl, now, setFault);
  }

  /** Job `k` of the batch after the first `k`: either the prefix grows by one
      job, or its payload is unusable and nothing changes. */
  method ProcessNext(jobs: JobTable, redis: Cache.Redis, start: World, snap: Table, batch: seq<nat>, k: nat,
                     now: int, parseDate: string -> Option<int>, faults: seq<bool>)
    returns (aborted: bool)
    requires k < |batch| && forall i :: 0 <= i < |batch| ==> batch[i] in snap
    requires World(jobs.rows, redis.entries) == ProcessPrefix(start, snap, batch, k, now, parseDate, faults)
    modifies jobs, redis
    ensures aborted <==> Unusable(snap[batch[k]].payload)
    ensures World(jobs.rows, redis.entries)
         == ProcessPrefix(start, snap, batch, if aborted then k else k + 1, now, parseDate, faults)
  {
    aborted := ProcessOne(jobs, redis, batch[k], snap[batch[k]], now, parseDate,
                          Cache.Fault(faults, 2 * k), Cache.Fault(faults, 2 * k + 1));
    if !aborted {
      PrefixStep(start, snap, batch, k, now, parseDate, faults);
    }
  }

  /** The worker loop over the claimed batch, up to the first unusable payload,
      whose error leaves the loop (`aborted`). */
  method ProcessBatch(jobs: JobTable, redis: Cache.Redis, batch: seq<nat>, now: int,
                      parseDate: string -> Option<int>, faults: seq<bool>)
    returns (aborted: bool)
    requires forall i :: 0 <= i < |batch| ==> batch[i] in jobs.rows
    modifies jobs, redis
    ensures aborted <==> Reached(old(jobs.rows), batch) < |batch|
    ensures World(jobs.rows, redis.entries)
         == ProcessPrefix(World(old(jobs.rows), old(redis.entries)), old(jobs.rows), batch,
                          Reached(old(jobs.rows), batch), now, parseDate, faults)
  {
    var snap := jobs.rows;
    var start := World(snap, redis.entries);
    var k := 0;
    aborted := false;
    while k < |batch| && !aborted
      invariant k <= |batch|
      invariant World(jobs.rows, redis.entries) == ProcessPrefix(start, snap, batch, k, now, parseDate, faults)
      invariant forall i :: 0 <= i < k ==> !Unusable(snap[batch[i]].payload)
      invariant aborted ==> k < |batch| && Unusable(snap[batch[k]].payload)
      decreases |batch| - k, !aborted
    {
      aborted := ProcessNext(jobs, redis, start, snap, batch, k, now, parseDate, faults);
      if !aborted {
        UsableStep(snap, batch, k);
        k := k + 1;
      }
    }
    ReachedFirst(snap, batch, k);
  }

  /** One run of `linkTasksToCacheTask`: reclaim, claim, then each claimed job
      in claim order, from the claimed rows as the claim returned them. The run
      rethrows (`aborted`) when the loop meets an unusable payload. */
  method RunTask(jobs: JobTable, redis: Cache.Redis, now: int, worker: string,
                 parseDate: string -> Option<int>, faults: seq<bool>)
    returns (batch: seq<nat>, aborted: bool)
    modifies jobs, redis
    ensures IsClaimBatch(ReclaimSpec(old(jobs.rows), now), now, batch)
    ensures var claimed := ClaimSpec(ReclaimSpec(old(jobs.rows), now), batch, now, worker);
      && (aborted <==> Reached(claimed, batch) < |batch|)
      && World(jobs.rows, redis.entries)
         == ProcessPrefix(World(claimed, old(redis.entries)), claimed, batch, Reached(claimed, batch),
                          now, parseDate, faults)
  {
    jobs.Reclaim(now);
    batch := jobs.Claim(now, worker);
    if |batch| == 0 {
      return batch, false;
    }
    aborted := ProcessBatch(jobs, redis, batch, now, parseDate, faults);
  }
}
