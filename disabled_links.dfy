/** `deleteCheckForDisabledLinks`: the periodic purge of the cached redirect
    entries of deactivated links. */
module DisabledLinks {
  import Cache
  import Links

  /** `SELECT code FROM links WHERE is_active = FALSE`, in table order. */
  function InactiveCodes(rows: seq<Links.Link>): (r: seq<string>)
    ensures forall c :: c in r <==> exists i :: 0 <= i < |rows| && !rows[i].isActive && Links.CodeText(rows[i].code) == c
    ensures |r| <= |rows|
  {
    if rows == [] then []
    else
      var rest := InactiveCodes(rows[1..]);
      assert forall i :: 1 <= i < |rows| ==> rows[i] == rows[1..][i - 1];
      if rows[0].isActive then rest else [Links.CodeText(rows[0].code)] + rest
  }

  /** The cache key of each code, in the same order. */
  function ShortKeys(codes: seq<string>): (r: seq<string>)
    ensures |r| == |codes| && forall i :: 0 <= i < |codes| ==> r[i] == Links.ShortKey(codes[i])
  {
    if codes == [] then [] else [Links.ShortKey(codes[0])] + ShortKeys(codes[1..])
  }

  /** The keys among `keys` that hold a live entry. */
  function LiveKeys(m: Cache.Entries, keys: seq<string>, now: int): set<string> {
    set k | k in keys && Cache.Live(m, k, now)
  }

  /** One DEL per key, in order, and the sum of their replies: what MULTI/EXEC
      runs when the client has no UNLINK. */
  function DelEach(m: Cache.Entries, keys: seq<string>, now: int): (nat, Cache.Entries) {
    if keys == [] then (0, m)
    else
      var p := DelEach(m, keys[..|keys| - 1], now);
      var s := Cache.DelStep(p.1, [keys[|keys| - 1]], now);
      (p.0 + s.reply.value, s.after)
  }

  /** The purge: nothing when no link is inactive; otherwise one UNLINK of all
      the keys, or one MULTI/EXEC of a DEL per key; a cache error is logged and
      the count stays 0. */
  function PurgeSpec(m: Cache.Entries, rows: seq<Links.Link>, now: int, hasUnlink: bool, fault: bool): (nat, Cache.Entries) {
    var codes := InactiveCodes(rows);
    if codes == [] then (0, m)
    else
      var keys := ShortKeys(codes);
      if hasUnlink then
        var s := Cache.Attempt(fault, m, Cache.DelStep(m, keys, now));
        if s.reply.Err? then (0, m) else (s.reply.value, s.after)
      else if fault then (0, m)
      else DelEach(m, keys, now)
  }

  method CollectKeys(codes: seq<string>) returns (keys: seq<string>)
    ensures keys == ShortKeys(codes)
  {
    keys := [];
    for k := 0 to |codes|
      invariant keys == ShortKeys(codes[..k])
    {
      assert codes[..k + 1][..k] == codes[..k];
      ShortKeysAppend(codes[..k], codes[k]);
      assert codes[..k + 1] == codes[..k] + [codes[k]];
      keys := keys + [Links.ShortKey(codes[k])];
    }
    assert codes[..|codes|] == codes;
  }

  lemma ShortKeysAppend(codes: seq<string>, c: string)
    ensures ShortKeys(codes + [c]) == ShortKeys(codes) + [Links.ShortKey(c)]
  {
  }

  /** The commands queued between MULTI and EXEC, applied in order. */
  method DelEachInOrder(redis: Cache.Redis, keys: seq<string>, now: int) returns (removed: nat)
    modifies redis
    ensures (removed, redis.entries) == DelEach(old(redis.entries), keys, now)
  {
    removed := 0;
    ghost var start := redis.entries;
    for k := 0 to |keys|
      invariant (removed, redis.entries) == DelEach(start, keys[..k], now)
    {
      assert keys[..k + 1][..k] == keys[..k];
      var r := redis.Del([keys[k]], now, false);
      removed := removed + r.value;
    }
    assert keys[..|keys|] == keys;
  }

  method DeleteCheckForDisabledLinks(table: Links.LinkTable, redis: Cache.Redis, now: int, hasUnlink: bool, fault: bool)
    returns (removed: nat)
    modifies redis
    ensures (removed, redis.entries) == PurgeSpec(old(redis.entries), table.rows, now, hasUnlink, fault)
  {
    var codes := InactiveCodes(table.rows);
    if codes == [] {
      return 0;
    }
    var keys := CollectKeys(codes);
    removed := 0;
    if hasUnlink {
      var r := redis.Del(keys, now, fault);
      if r.Ok? {
        removed := r.value;
      }
    } else if !fault {
      removed := DelEachInOrder(redis, keys, now);
    }
  }

  // ---------------------------------------------------------------- properties

  /** Deleting one more key after the first ones: it counts when it is live
      and not among them. */
  lemma DelOneMore(m: Cache.Entries, init: seq<string>, x: string, now: int)
    ensures var s := Cache.DelStep(Cache.Without(m, init), [x], now);
      && |LiveKeys(m, init + [x], now)| == |LiveKeys(m, init, now)| + s.reply.value
      && s.after == Cache.Without(m, init + [x])
  {
    var mid := Cache.Without(m, init);
    var keys := init + [x];
    if x in init {
      assert LiveKeys(m, keys, now) == LiveKeys(m, init, now);
      assert (set k | k in [x] && Cache.Live(mid, k, now)) == {};
    } else {
      assert x in mid <==> x in m;
      assert Cache.Live(mid, x, now) <==> Cache.Live(m, x, now);
      if Cache.Live(m, x, now) {
        assert x !in LiveKeys(m, init, now);
        assert LiveKeys(m, keys, now) == LiveKeys(m, init, now) + {x};
        assert (set k | k in [x] && Cache.Live(mid, k, now)) == {x};
      } else {
        assert LiveKeys(m, keys, now) == LiveKeys(m, init, now);
        assert (set k | k in [x] && Cache.Live(mid, k, now)) == {};
      }
    }
  }

  /** A DEL per key counts and removes what one UNLINK of all keys does. */
  lemma {:induction false} DelEachIsOneUnlink(m: Cache.Entries, keys: seq<string>, now: int)
    ensures DelEach(m, keys, now) == (|LiveKeys(m, keys, now)|, Cache.Without(m, keys))
  {
    if keys == [] {
      assert Cache.Without(m, keys) == m;
    } else {
      var init, x := keys[..|keys| - 1], keys[|keys| - 1];
      assert keys == init + [x];
      DelEachIsOneUnlink(m, init, now);
      DelOneMore(m, init, x, now);
    }
  }

  /** With no inactive link the purge sends no command; a cache error changes
      nothing and reports 0. */
  lemma PurgeQuietCases(m: Cache.Entries, rows: seq<Links.Link>, now: int, hasUnlink: bool, fault: bool)
    ensures InactiveCodes(rows) == [] ==> PurgeSpec(m, rows, now, hasUnlink, fault) == (0, m)
    ensures fault ==> PurgeSpec(m, rows, now, hasUnlink, fault) == (0, m)
  {
  }

  /** A purge that reaches the cache removes the entry of every inactive link,
      keeps every other key, and reports how many of those entries were live,
      whichever way the client deletes. */
  lemma PurgeClearsInactive(m: Cache.Entries, rows: seq<Links.Link>, now: int, hasUnlink: bool)
    ensures var r := PurgeSpec(m, rows, now, hasUnlink, false);
      var keys := ShortKeys(InactiveCodes(rows));
      && r.0 == |LiveKeys(m, keys, now)|
      && (forall i :: 0 <= i < |rows| && !rows[i].isActive ==> Links.ShortKey(Links.CodeText(rows[i].code)) !in r.1)
      && (forall k :: k !in keys ==> (k in r.1 <==> k in m) && (k in m ==> r.1[k] == m[k]))
  {
    var codes := InactiveCodes(rows);
    var keys := ShortKeys(codes);
    DelEachIsOneUnlink(m, keys, now);
    forall i | 0 <= i < |rows| && !rows[i].isActive
      ensures Links.ShortKey(Links.CodeText(rows[i].code)) in keys
    {
      var c := Links.CodeText(rows[i].code);
      assert c in codes;
      var j :| 0 <= j < |codes| && codes[j] == c;
      assert keys[j] == Links.ShortKey(c);
    }
  }
}
