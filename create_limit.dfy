/** The per-IP daily limit on link creation: a counter per address and UTC day,
    incremented by every request; requests beyond the 100th of a day are refused. */
module CreateLimit {
  import opened Wrappers
  import Cache
  import Http
  import Text

  const Limit: int := 100
  const MappedPrefix: string := "::ffff:"

  /** Removes one leading IPv4-mapped prefix and nothing else. */
  function NormalizeIp(raw: string): (ip: string)
    ensures Text.StartsWith(raw, MappedPrefix) ==> raw == MappedPrefix + ip
    ensures !Text.StartsWith(raw, MappedPrefix) ==> ip == raw
  {
    if Text.StartsWith(raw, MappedPrefix) then raw[|MappedPrefix|..] else raw
  }

  /** `rl:create:{ip}:{day}`; `day` is the `YYYY-MM-DD` of the UTC date. */
  function CounterKey(ip: string, day: string): string {
    "rl:create:" + ip + ":" + day
  }

  /** The decision on the count after the increment. */
  function Decide(count: Cache.Reply<int>): Http.Outcome {
    if count.Err? then Http.Uncaught
    else if count.value > Limit then Http.Status(429)
    else Http.Next
  }

  /** `limitCreateByIp`: the counter step on the day's key (commands 0 and 1),
      with `ttl` the seconds until the end of the UTC day; a cache error escapes
      the middleware. */
  function LimitSpec(m: Cache.Entries, rawIp: Option<string>, day: string, ttl: int, now: int,
                     faults: seq<bool>): (Http.Outcome, Cache.Entries)
  {
    var key := CounterKey(NormalizeIp(rawIp.GetOr("")), day);
    var s := Cache.CountInWindow(m, key, ttl, now, Cache.Fault(faults, 0), Cache.Fault(faults, 1));
    (Decide(s.reply), s.after)
  }

  method LimitCreateByIp(redis: Cache.Redis, rawIp: Option<string>, day: string, ttl: int, now: int,
                         faults: seq<bool>)
    returns (o: Http.Outcome)
    modifies redis
    ensures (o, redis.entries) == LimitSpec(old(redis.entries), rawIp, day, ttl, now, faults)
  {
    var ip := NormalizeIp(rawIp.GetOr(""));
    var key := CounterKey(ip, day);
    var count := redis.Incr(key, now, Cache.Fault(faults, 0));
    if count.Ok? && count.value == 1 {
      var e := redis.Expire(key, ttl, now, Cache.Fault(faults, 1));
      if e.Err? {
        count := Cache.Err(e.failure);
      }
    }
    o := Decide(count);
  }

  // ---------------------------------------------------------------- properties

  /** Every request increments the day's counter, refused ones included, and a
      request is refused exactly when the count after its increment exceeds 100. */
  lemma EveryRequestCounts(m: Cache.Entries, rawIp: Option<string>, day: string, ttl: int, now: int)
    requires ttl > 0
    ensures var key := CounterKey(NormalizeIp(rawIp.GetOr("")), day);
      var r := LimitSpec(m, rawIp, day, ttl, now, []);
      && (!Cache.Live(m, key, now) ==> r.1[key] == Cache.Entry(Cache.Int(1), Some(now + ttl * 1000)) && r.0 == Http.Next)
      && (Cache.Live(m, key, now) && m[key].value.Int? && 1 <= m[key].value.n < Cache.MaxInt64 ==>
            && r.1[key] == m[key].(value := Cache.Int(m[key].value.n + 1))
            && (r.0 == Http.Status(429) <==> m[key].value.n + 1 > Limit))
  {
  }

  /** Requests from one address at `times` within one day's window, from a
      clean start: the first 100 pass and every later one is refused. */
  lemma HundredFirstRefused(m: Cache.Entries, ip: string, day: string, ttl: int, times: seq<int>)
    requires times != [] && !Cache.Live(m, CounterKey(ip, day), times[0]) && ttl > 0
    requires |times| <= Cache.MaxInt64
    requires forall i, j :: 0 <= i <= j < |times| ==> times[i] <= times[j]
    requires forall i :: 0 <= i < |times| ==> times[i] <= times[0] + ttl * 1000
    ensures var replies := Cache.CountRun(m, CounterKey(ip, day), ttl, times).0;
      forall i :: 0 <= i < |times| ==> (Decide(replies[i]) == Http.Status(429) <==> i >= Limit)
  {
    Cache.CountRunWindow(m, CounterKey(ip, day), ttl, times);
  }
}
