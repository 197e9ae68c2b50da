/** The shared key/value cache (Redis) as the handlers see it: a map from key to
    an entry with an optional absolute expiry in milliseconds. Every command is
    one atomic step. The pure `...Step` functions give each command's meaning;
    the class `Redis` is the store the handlers change in place. */
module Cache {
  import opened Wrappers
  import Text

  /** A stored value. `Int` is a string that holds an integer (what INCR writes
      and reads); `Str` is any other string; `Members` is a set. */
  datatype Value = Str(s: string) | Int(n: int) | Members(m: set<string>)

  datatype Entry = Entry(value: Value, expiresAt: Option<int>)

  type Entries = map<string, Entry>

  /** Why a command failed: the server could not be reached, or Redis answered
      with an error (WRONGTYPE, "not an integer", "invalid expire time",
      "increment would overflow"). */
  datatype Failure = Unavailable | WrongType | NotAnInteger | InvalidExpire | IncrOverflow

  datatype Reply<+T> = Ok(value: T) | Err(failure: Failure)

  /** The reply of one command and the entries after it. */
  datatype Step<+T> = Step(reply: Reply<T>, after: Entries)

  const MaxInt64: int := 0x7fff_ffff_ffff_ffff

  /** Redis treats a key as expired once the clock has passed its expiry. */
  predicate Live(m: Entries, key: string, now: int) {
    key in m && (m[key].expiresAt.None? || now <= m[key].expiresAt.value)
  }

  /** The text GET returns for a string value. */
  function Render(v: Value): string
    requires !v.Members?
  {
    match v
    case Str(s) => s
    case Int(n) => Text.IntToString(n)
  }

  /** Whether the environment makes the `i`-th command of a handler fail. */
  predicate Fault(faults: seq<bool>, i: nat) {
    i < |faults| && faults[i]
  }

  /** A command that cannot reach the server fails and changes nothing. */
  function Attempt<T>(fault: bool, m: Entries, s: Step<T>): (r: Step<T>)
    ensures fault ==> r == Step(Err(Unavailable), m)
    ensures !fault ==> r == s
  {
    if fault then Step(Err(Unavailable), m) else s
  }

  // ---- command semantics ----

  function ExistsStep(m: Entries, key: string, now: int): Step<nat> {
    Step(Ok(if Live(m, key, now) then 1 else 0), m)
  }

  function GetStep(m: Entries, key: string, now: int): Step<Option<Value>> {
    if !Live(m, key, now) then Step(Ok(None), m)
    else if m[key].value.Members? then Step(Err(WrongType), m)
    else Step(Ok(Some(m[key].value)), m)
  }

  /** SET without options: overwrites the value and drops any expiry. */
  function SetStep(m: Entries, key: string, v: Value, expiresAt: Option<int>): Step<()> {
    Step(Ok(()), m[key := Entry(v, expiresAt)])
  }

  /** SETEX / SET ... EX: Redis rejects a non-positive number of seconds. */
  function SetExStep(m: Entries, key: string, seconds: int, v: Value, now: int): Step<()> {
    if seconds <= 0 then Step(Err(InvalidExpire), m)
    else SetStep(m, key, v, Some(now + seconds * 1000))
  }

  /** SET ... NX PX: writes only when the key is absent. */
  function SetNxPxStep(m: Entries, key: string, v: string, ms: int, now: int): Step<bool> {
    if ms <= 0 then Step(Err(InvalidExpire), m)
    else if Live(m, key, now) then Step(Ok(false), m)
    else Step(Ok(true), m[key := Entry(Str(v), Some(now + ms))])
  }

  /** The removal DEL and UNLINK perform. */
  function Without(m: Entries, keys: seq<string>): Entries {
    map k | k in m && k !in keys :: m[k]
  }

  /** DEL / UNLINK of several keys: the reply counts the distinct keys that existed. */
  function DelStep(m: Entries, keys: seq<string>, now: int): Step<nat> {
    Step(Ok(|set k | k in keys && Live(m, k, now)|), Without(m, keys))
  }

  /** INCR: an absent key counts from 0 and gets no expiry; an existing counter keeps its expiry. */
  function IncrStep(m: Entries, key: string, now: int): Step<int> {
    if !Live(m, key, now) then Step(Ok(1), m[key := Entry(Int(1), None)])
    else match m[key].value
      case Int(n) =>
        if n + 1 > MaxInt64 then Step(Err(IncrOverflow), m)
        else Step(Ok(n + 1), m[key := m[key].(value := Int(n + 1))])
      case Str(_) => Step(Err(NotAnInteger), m)
      case Members(_) => Step(Err(WrongType), m)
  }

  /** EXPIRE: 0 for an absent key; a time that is not in the future deletes the key. */
  function ExpireStep(m: Entries, key: string, seconds: int, now: int): Step<nat> {
    if !Live(m, key, now) then Step(Ok(0), m)
    else if seconds <= 0 then Step(Ok(1), m - {key})
    else Step(Ok(1), m[key := m[key].(expiresAt := Some(now + seconds * 1000))])
  }

  /** TTL: -2 for an absent key, -1 for a key without expiry, else the remaining
      seconds rounded to the nearest second. */
  function TtlStep(m: Entries, key: string, now: int): Step<int> {
    if !Live(m, key, now) then Step(Ok(-2), m)
    else match m[key].expiresAt
      case None => Step(Ok(-1), m)
      case Some(w) => Step(Ok((w - now + 500) / 1000), m)
  }

  function SIsMemberStep(m: Entries, key: string, member: string, now: int): Step<bool> {
    if !Live(m, key, now) then Step(Ok(false), m)
    else match m[key].value
      case Members(s) => Step(Ok(member in s), m)
      case _ => Step(Err(WrongType), m)
  }

  /** SADD: creates the set when the key is absent; the reply counts new members. */
  function SAddStep(m: Entries, key: string, members: seq<string>, now: int): Step<nat> {
    var added := set x | x in members;
    if !Live(m, key, now) then Step(Ok(|added|), m[key := Entry(Members(added), None)])
    else match m[key].value
      case Members(s) => Step(Ok(|added - s|), m[key := m[key].(value := Members(s + added))])
      case _ => Step(Err(WrongType), m)
  }

  /** The compare-and-delete script: `if GET(key) == token then DEL(key) else 0`. */
  function UnlockStep(m: Entries, key: string, token: string, now: int): Step<nat> {
    if !Live(m, key, now) then Step(Ok(0), m)
    else if m[key].value.Members? then Step(Err(WrongType), m)
    else if Render(m[key].value) == token then Step(Ok(1), m - {key})
    else Step(Ok(0), m)
  }

  // ---- properties of the commands ----

  /** A set-if-absent on a live key fails and changes nothing; on an absent key
      it succeeds and stores the value with the requested lifetime. */
  lemma SetNxExclusive(m: Entries, key: string, v: string, ms: int, now: int)
    requires ms > 0
    ensures var s := SetNxPxStep(m, key, v, ms, now);
      && (Live(m, key, now) ==> s == Step(Ok(false), m))
      && (!Live(m, key, now) ==> s.reply == Ok(true) && Live(s.after, key, now + ms - 1)
                                 && s.after[key].value == Str(v) && !Live(s.after, key, now + ms + 1))
  {
  }

  /** Only the holder of the stored token can remove a key with the unlock script. */
  lemma UnlockOnlyByOwner(m: Entries, key: string, token: string, now: int)
    ensures var s := UnlockStep(m, key, token, now);
      && (Live(m, key, now) && m[key].value == Str(token) ==> s == Step(Ok(1), m - {key}))
      && (Live(m, key, now) && m[key].value.Str? && m[key].value.s != token ==> s == Step(Ok(0), m))
  {
  }

  /** Meaning of DEL: every listed key is gone, no other key changes, and the
      reply counts the listed keys that were live. */
  lemma DelRemovesListed(m: Entries, keys: seq<string>, now: int)
    ensures var s := DelStep(m, keys, now);
      && (forall k :: k in keys ==> k !in s.after)
      && (forall k :: k !in keys ==> (k in s.after <==> k in m) && (k in m ==> s.after[k] == m[k]))
  {
  }

  // ---- a fixed-window counter ----

  /** INCR, then EXPIRE with `seconds` when the count has just become 1: the
      counter both rate limits of the service use. A failing command's error
      is the result; a failing EXPIRE leaves the increment in place. */
  function CountInWindow(m: Entries, key: string, seconds: int, now: int,
                         incrFault: bool, expireFault: bool): Step<int>
  {
    var i := Attempt(incrFault, m, IncrStep(m, key, now));
    if i.reply.Err? || i.reply.value != 1 then i
    else
      var e := Attempt(expireFault, i.after, ExpireStep(i.after, key, seconds, now));
      if e.reply.Err? then Step(Err(e.reply.failure), e.after) else Step(i.reply, e.after)
  }

  /** The counter step: on success the key holds the new count; the expiry is
      set exactly when the count has just become 1, and otherwise the key keeps
      the expiry it had. No other key changes. */
  lemma CountInWindowMeaning(m: Entries, key: string, seconds: int, now: int, incrFault: bool, expireFault: bool)
    requires seconds > 0
    ensures var s := CountInWindow(m, key, seconds, now, incrFault, expireFault);
      && (s.reply.Ok? ==> key in s.after && s.after[key].value == Int(s.reply.value))
      && (s.reply == Ok(1) ==> s.after[key].expiresAt == Some(now + seconds * 1000))
      && (s.reply.Ok? && s.reply.value != 1 ==> key in m && s.after[key].expiresAt == m[key].expiresAt)
      && (s.reply.Ok? ==> s.reply.value == (if Live(m, key, now) then m[key].value.n + 1 else 1))
      && (forall k :: k != key ==> (k in s.after <==> k in m) && (k in m ==> s.after[k] == m[k]))
  {
  }

  /** Fault-free counter steps at the clock readings `times`, one after another:
      the replies and the entries afterwards. */
  function CountRun(m: Entries, key: string, seconds: int, times: seq<int>): (r: (seq<Reply<int>>, Entries))
    ensures |r.0| == |times|
  {
    if times == [] then ([], m)
    else
      var before := CountRun(m, key, seconds, times[..|times| - 1]);
      var s := CountInWindow(before.1, key, seconds, times[|times| - 1], false, false);
      (before.0 + [s.reply], s.after)
  }

  /** Within one window: from a key that is absent at the first request, the
      `i`-th request of the window sees the count `i + 1`, the window closes
      `seconds` after the first request, and no other key changes. */
  lemma {:induction false} CountRunWindow(m: Entries, key: string, seconds: int, times: seq<int>)
    requires times != [] && !Live(m, key, times[0]) && seconds > 0
    requires |times| <= MaxInt64
    requires forall i, j :: 0 <= i <= j < |times| ==> times[i] <= times[j]
    requires forall i :: 0 <= i < |times| ==> times[i] <= times[0] + seconds * 1000
    ensures var r := CountRun(m, key, seconds, times);
      && (forall i :: 0 <= i < |times| ==> r.0[i] == Ok(i + 1))
      && key in r.1 && r.1[key] == Entry(Int(|times|), Some(times[0] + seconds * 1000))
      && (forall k :: k != key ==> (k in r.1 <==> k in m) && (k in m ==> r.1[k] == m[k]))
  {
    var n := |times|;
    var prefix := times[..n - 1];
    if n == 1 {
      assert prefix == [];
      CountFirst(m, key, seconds, times[0]);
    } else {
      WindowPrefix(times, seconds);
      CountRunWindow(m, key, seconds, prefix);
      var before := CountRun(m, key, seconds, prefix);
      var s := CountInWindow(before.1, key, seconds, times[n - 1], false, false);
      assert CountRun(m, key, seconds, times) == (before.0 + [s.reply], s.after);
      CountWindowStep(m, before.0, before.1, key, seconds, times[0] + seconds * 1000, n, times[n - 1]);
    }
  }

  /** The requests of a window but the last are a window too. */
  lemma WindowPrefix(times: seq<int>, seconds: int)
    requires |times| >= 2
    requires forall i, j :: 0 <= i <= j < |times| ==> times[i] <= times[j]
    requires forall i :: 0 <= i < |times| ==> times[i] <= times[0] + seconds * 1000
    ensures var prefix := times[..|times| - 1];
      && prefix != [] && prefix[0] == times[0]
      && (forall i, j :: 0 <= i <= j < |prefix| ==> prefix[i] <= prefix[j])
      && (forall i :: 0 <= i < |prefix| ==> prefix[i] <= prefix[0] + seconds * 1000)
  {
  }

  /** Request `n` of a window, after `n - 1` requests that counted 1 to `n - 1`. */
  lemma CountWindowStep(m: Entries, replies: seq<Reply<int>>, before: Entries, key: string, seconds: int,
                        closes: int, n: nat, t: int)
    requires 2 <= n <= MaxInt64 && |replies| == n - 1 && t <= closes
    requires forall i :: 0 <= i < n - 1 ==> replies[i] == Ok(i + 1)
    requires key in before && before[key] == Entry(Int(n - 1), Some(closes))
    requires forall k :: k != key ==> (k in before <==> k in m) && (k in m ==> before[k] == m[k])
    ensures var s := CountInWindow(before, key, seconds, t, false, false);
      && (forall i :: 0 <= i < n ==> (replies + [s.reply])[i] == Ok(i + 1))
      && key in s.after && s.after[key] == Entry(Int(n), Some(closes))
      && (forall k :: k != key ==> (k in s.after <==> k in m) && (k in m ==> s.after[k] == m[k]))
  {
    CountNext(before, key, seconds, closes, n - 1, t);
  }

  lemma CountFirst(m: Entries, key: string, seconds: int, t: int)
    requires !Live(m, key, t) && seconds > 0
    ensures CountInWindow(m, key, seconds, t, false, false)
         == Step(Ok(1), m[key := Entry(Int(1), Some(t + seconds * 1000))])
  {
  }

  lemma CountNext(m: Entries, key: string, seconds: int, closes: int, n: int, t: int)
    requires key in m && m[key] == Entry(Int(n), Some(closes)) && t <= closes
    requires 1 <= n < MaxInt64
    ensures CountInWindow(m, key, seconds, t, false, false) == Step(Ok(n + 1), m[key := Entry(Int(n + 1), Some(closes))])
  {
  }

  class Redis {
    var entries: Entries

    constructor (initial: Entries)
      ensures entries == initial
    {
      entries := initial;
    }

    function Exists(key: string, now: int, fault: bool): Reply<nat>
      reads this
    {
      Attempt(fault, entries, ExistsStep(entries, key, now)).reply
    }

    function Get(key: string, now: int, fault: bool): Reply<Option<Value>>
      reads this
    {
      Attempt(fault, entries, GetStep(entries, key, now)).reply
    }

    function Ttl(key: string, now: int, fault: bool): Reply<int>
      reads this
    {
      Attempt(fault, entries, TtlStep(entries, key, now)).reply
    }

    function SIsMember(key: string, member: string, now: int, fault: bool): Reply<bool>
      reads this
    {
      Attempt(fault, entries, SIsMemberStep(entries, key, member, now)).reply
    }

    /** Performs one write command: the reply and the new entries are those of `s`. */
    method Perform<T>(s: Step<T>) returns (r: Reply<T>)
      modifies this
      ensures r == s.reply && entries == s.after
    {
      entries := s.after;
      r := s.reply;
    }

    method Set(key: string, v: Value, fault: bool) returns (r: Reply<()>)
      modifies this
      ensures Step(r, entries) == Attempt(fault, old(entries), SetStep(old(entries), key, v, None))
    {
      r := Perform(Attempt(fault, entries, SetStep(entries, key, v, None)));
    }

    method SetEx(key: string, seconds: int, v: Value, now: int, fault: bool) returns (r: Reply<()>)
      modifies this
      ensures Step(r, entries) == Attempt(fault, old(entries), SetExStep(old(entries), key, seconds, v, now))
    {
      r := Perform(Attempt(fault, entries, SetExStep(entries, key, seconds, v, now)));
    }

    method SetNxPx(key: string, v: string, ms: int, now: int, fault: bool) returns (r: Reply<bool>)
      modifies this
      ensures Step(r, entries) == Attempt(fault, old(entries), SetNxPxStep(old(entries), key, v, ms, now))
    {
      r := Perform(Attempt(fault, entries, SetNxPxStep(entries, key, v, ms, now)));
    }

    method Del(keys: seq<string>, now: int, fault: bool) returns (r: Reply<nat>)
      modifies this
      ensures Step(r, entries) == Attempt(fault, old(entries), DelStep(old(entries), keys, now))
    {
      r := Perform(Attempt(fault, entries, DelStep(entries, keys, now)));
    }

    method Incr(key: string, now: int, fault: bool) returns (r: Reply<int>)
      modifies this
      ensures Step(r, entries) == Attempt(fault, old(entries), IncrStep(old(entries), key, now))
    {
      r := Perform(Attempt(fault, entries, IncrStep(entries, key, now)));
    }

    method Expire(key: string, seconds: int, now: int, fault: bool) returns (r: Reply<nat>)
      modifies this
      ensures Step(r, entries) == Attempt(fault, old(entries), ExpireStep(old(entries), key, seconds, now))
    {
      r := Perform(Attempt(fault, entries, ExpireStep(entries, key, seconds, now)));
    }

    method SAdd(key: string, members: seq<string>, now: int, fault: bool) returns (r: Reply<nat>)
      modifies this
      ensures Step(r, entries) == Attempt(fault, old(entries), SAddStep(old(entries), key, members, now))
    {
      r := Perform(Attempt(fault, entries, SAddStep(entries, key, members, now)));
    }

    method Unlock(key: string, token: string, now: int, fault: bool) returns (r: Reply<nat>)
      modifies this
      ensures Step(r, entries) == Attempt(fault, old(entries), UnlockStep(old(entries), key, token, now))
    {
      r := Perform(Attempt(fault, entries, UnlockStep(entries, key, token, now)));
    }
  }
}
