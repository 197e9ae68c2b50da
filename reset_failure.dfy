/** The password-reset lockout: a failure counter per user that locks further
    attempts for the rest of a 15-minute window once it reaches 5. */
module ResetFailure {
  import opened Wrappers
  import Cache
  import Links
  import Text

  const ResetLimit: int := 5
  const ResetLockSeconds: int := 15 * 60

  function FailKey(userId: int): string {
    "reset_pwd_fail:" + Text.IntToString(userId)
  }

  /** `recordResetFailure`: the counter step, commands 0 (INCR) and 1 (EXPIRE). */
  function RecordSpec(m: Cache.Entries, userId: int, now: int, faults: seq<bool>): Cache.Step<int> {
    Cache.CountInWindow(m, FailKey(userId), ResetLockSeconds, now, Cache.Fault(faults, 0), Cache.Fault(faults, 1))
  }

  datatype LockState = LockState(locked: bool, remainingSeconds: int)

  const Unlocked := LockState(false, 0)

  /** `Number(countStr)`: exact on the decimal text INCR writes; `toNumber`
      stands for `Number` on any other string. */
  function NumberOf(v: Cache.Value, toNumber: string -> Links.JsNumber): Links.JsNumber
    requires !v.Members?
  {
    match v
    case Int(n) => Links.Finite(n as real)
    case Str(s) => toNumber(s)
  }

  /** `count < RESET_LIMIT` on a JavaScript number; NaN compares false. */
  predicate BelowLimit(x: Links.JsNumber) {
    match x
    case NaN => false
    case Infinite(positive) => !positive
    case Finite(r) => r < ResetLimit as real
  }

  /** `checkResetLock`: GET (command 0), then TTL (command 1) once the count
      has reached the limit. */
  function CheckSpec(m: Cache.Entries, userId: int, now: int, toNumber: string -> Links.JsNumber,
                     faults: seq<bool>): Cache.Reply<LockState>
  {
    var key := FailKey(userId);
    var got := Cache.Attempt(Cache.Fault(faults, 0), m, Cache.GetStep(m, key, now));
    if got.reply.Err? then Cache.Err(got.reply.failure)
    else if got.reply.value.None? || Cache.Render(got.reply.value.value) == "" then Cache.Ok(Unlocked)
    else
      var count := NumberOf(got.reply.value.value, toNumber);
      if count.NaN? || BelowLimit(count) then Cache.Ok(Unlocked)
      else
        var ttl := Cache.Attempt(Cache.Fault(faults, 1), m, Cache.TtlStep(m, key, now));
        if ttl.reply.Err? then Cache.Err(ttl.reply.failure)
        else if ttl.reply.value > 0 then Cache.Ok(LockState(true, ttl.reply.value))
        else Cache.Ok(Unlocked)
  }

  /** `clearResetFailures`: one DEL. */
  function ClearSpec(m: Cache.Entries, userId: int, now: int, fault: bool): Cache.Step<nat> {
    Cache.Attempt(fault, m, Cache.DelStep(m, [FailKey(userId)], now))
  }

  method RecordResetFailure(redis: Cache.Redis, userId: int, now: int, faults: seq<bool>)
    returns (r: Cache.Reply<int>)
    modifies redis
    ensures Cache.Step(r, redis.entries) == RecordSpec(old(redis.entries), userId, now, faults)
  {
    var key := FailKey(userId);
    r := redis.Incr(key, now, Cache.Fault(faults, 0));
    if r.Ok? && r.value == 1 {
      var e := redis.Expire(key, ResetLockSeconds, now, Cache.Fault(faults, 1));
      if e.Err? {
        r := Cache.Err(e.failure);
      }
    }
  }

  method CheckResetLock(redis: Cache.Redis, userId: int, now: int, toNumber: string -> Links.JsNumber,
                        faults: seq<bool>)
    returns (r: Cache.Reply<LockState>)
    ensures r == CheckSpec(redis.entries, userId, now, toNumber, faults)
  {
    var key := FailKey(userId);
    var got := redis.Get(key, now, Cache.Fault(faults, 0));
    if got.Err? {
      return Cache.Err(got.failure);
    }
    if got.value.None? || Cache.Render(got.value.value) == "" {
      return Cache.Ok(Unlocked);
    }
    var count := NumberOf(got.value.value, toNumber);
    if count.NaN? || BelowLimit(count) {
      return Cache.Ok(Unlocked);
    }
    var ttl := redis.Ttl(key, now, Cache.Fault(faults, 1));
    if ttl.Err? {
      return Cache.Err(ttl.failure);
    }
    if ttl.value > 0 {
      return Cache.Ok(LockState(true, ttl.value));
    }
    return Cache.Ok(Unlocked);
  }

  method ClearResetFailures(redis: Cache.Redis, userId: int, now: int, fault: bool)
    returns (r: Cache.Reply<nat>)
    modifies redis
    ensures Cache.Step(r, redis.entries) == ClearSpec(old(redis.entries), userId, now, fault)
  {
    r := redis.Del([FailKey(userId)], now, fault);
  }

  // ---------------------------------------------------------------- properties

  /** A failure returns the count after it; the 15-minute window starts at the
      first failure only, and no other key changes. */
  lemma RecordMeaning(m: Cache.Entries, userId: int, now: int, faults: seq<bool>)
    ensures var s := RecordSpec(m, userId, now, faults); var key := FailKey(userId);
      && (s.reply.Ok? ==> s.after[key].value == Cache.Int(s.reply.value))
      && (s.reply == Cache.Ok(1) ==> s.after[key].expiresAt == Some(now + ResetLockSeconds * 1000))
      && (s.reply.Ok? && s.reply.value != 1 ==> s.after[key].expiresAt == m[key].expiresAt)
      && (forall k :: k != key ==> (k in s.after <==> k in m) && (k in m ==> s.after[k] == m[k]))
  {
    Cache.CountInWindowMeaning(m, FailKey(userId), ResetLockSeconds, now, Cache.Fault(faults, 0), Cache.Fault(faults, 1));
  }

  /** The check is unlocked, with 0 seconds, when no count is stored or the
      count is not a number or is below 5; it is locked exactly when the count
      is at least 5 and the key's TTL is positive, and then reports that TTL. */
  lemma CheckMeaning(m: Cache.Entries, userId: int, now: int, toNumber: string -> Links.JsNumber)
    ensures var key := FailKey(userId);
      var r := CheckSpec(m, userId, now, toNumber, []);
      && (!Cache.Live(m, key, now) ==> r == Cache.Ok(Unlocked))
      && (Cache.Live(m, key, now) && m[key].value.Members? ==> r == Cache.Err(Cache.WrongType))
      && (Cache.Live(m, key, now) && !m[key].value.Members? ==>
            var count := NumberOf(m[key].value, toNumber);
            && (Cache.Render(m[key].value) == "" || count.NaN? || BelowLimit(count) ==> r == Cache.Ok(Unlocked))
            && (r.Ok? && r.value.locked <==>
                  && Cache.Render(m[key].value) != "" && !count.NaN? && !BelowLimit(count)
                  && Cache.TtlStep(m, key, now).reply.value > 0)
            && (r.Ok? && r.value.locked ==> Cache.TtlStep(m, key, now).reply == Cache.Ok(r.value.remainingSeconds)))
      && (r.Ok? && !r.value.locked ==> r.value.remainingSeconds == 0)
  {
  }

  /** After a successful clear, the check reports unlocked. */
  lemma ClearUnlocks(m: Cache.Entries, userId: int, now: int, later: int, toNumber: string -> Links.JsNumber)
    ensures var c := ClearSpec(m, userId, now, false);
      CheckSpec(c.after, userId, later, toNumber, []) == Cache.Ok(Unlocked)
  {
    assert FailKey(userId) !in ClearSpec(m, userId, now, false).after;
  }

  /** Clearing touches no other key. */
  lemma ClearOnlyItsKey(m: Cache.Entries, userId: int, now: int, fault: bool)
    ensures var c := ClearSpec(m, userId, now, fault);
      forall k :: k != FailKey(userId) ==> (k in c.after <==> k in m) && (k in m ==> c.after[k] == m[k])
  {
  }

  /** Failures at `times` from a clean start, all within the first failure's
      15-minute window, and a check at `at` after the last of them: the check
      is locked exactly when there were at least 5 failures and at least half a
      second of the window is left. */
  lemma LockAfterFifthFailure(m: Cache.Entries, userId: int, times: seq<int>, at: int,
                              toNumber: string -> Links.JsNumber)
    requires times != [] && !Cache.Live(m, FailKey(userId), times[0])
    requires |times| <= Cache.MaxInt64
    requires forall i, j :: 0 <= i <= j < |times| ==> times[i] <= times[j]
    requires forall i :: 0 <= i < |times| ==> times[i] <= times[0] + ResetLockSeconds * 1000
    requires times[|times| - 1] <= at <= times[0] + ResetLockSeconds * 1000
    ensures var after := Cache.CountRun(m, FailKey(userId), ResetLockSeconds, times).1;
      var r := CheckSpec(after, userId, at, toNumber, []);
      && r.Ok?
      && (r.value.locked <==> |times| >= ResetLimit && at + 500 <= times[0] + ResetLockSeconds * 1000)
      && (r.value.locked ==> r.value.remainingSeconds == (times[0] + ResetLockSeconds * 1000 - at + 500) / 1000)
  {
    Cache.CountRunWindow(m, FailKey(userId), ResetLockSeconds, times);
  }
}
