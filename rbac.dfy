/** `loadRbacFromDb`: rebuilds each role's permission set in the cache from the
    role tables, inside a retry loop. */
module Rbac {
  import opened Wrappers
  import Cache
  import Permission

  datatype Role = Role(id: int, roleType: string)
  datatype Perm = Perm(module_: string, permType: string)

  /** What one attempt reads from the database: whether it answered, the
      roles, and each role id's permissions. */
  datatype Snapshot = Snapshot(reachable: bool, roles: seq<Role>, permsOf: int -> seq<Perm>)

  /** The environment of one attempt: the database's answer, the clock and the
      cache command faults (role `i` uses commands `2 i` and `2 i + 1`). */
  datatype AttemptEnv = AttemptEnv(snap: Snapshot, now: int, faults: seq<bool>)

  datatype LoadError = DbUnavailable | NoRoles | CacheFailed(failure: Cache.Failure)

  function Members(perms: seq<Perm>): (r: seq<string>)
    ensures |r| == |perms|
    ensures forall i :: 0 <= i < |perms| ==> r[i] == Permission.PermissionName(perms[i].module_, perms[i].permType)
  {
    if perms == [] then [] else [Permission.PermissionName(perms[0].module_, perms[0].permType)] + Members(perms[1..])
  }

  /** One role: DEL of its key, then SADD of its permissions unless it has none. */
  function WriteRole(m: Cache.Entries, role: Role, perms: seq<Perm>, now: int, delFault: bool, addFault: bool)
    : Cache.Step<()>
  {
    var key := Permission.RoleKey(role.roleType);
    var d := Cache.Attempt(delFault, m, Cache.DelStep(m, [key], now));
    if d.reply.Err? then Cache.Step(Cache.Err(d.reply.failure), m)
    else if perms == [] then Cache.Step(Cache.Ok(()), d.after)
    else
      var a := Cache.Attempt(addFault, d.after, Cache.SAddStep(d.after, key, Members(perms), now));
      Cache.Step(if a.reply.Err? then Cache.Err(a.reply.failure) else Cache.Ok(()), a.after)
  }

  /** The writes of the first `k` roles; every role is written even after an
      error, and the first error is the result. */
  function WriteRoles(m: Cache.Entries, snap: Snapshot, now: int, faults: seq<bool>, k: nat)
    : (Option<Cache.Failure>, Cache.Entries)
    requires k <= |snap.roles|
  {
    if k == 0 then (None, m)
    else
      var before := WriteRoles(m, snap, now, faults, k - 1);
      var role := snap.roles[k - 1];
      var s := WriteRole(before.1, role, snap.permsOf(role.id), now,
                         Cache.Fault(faults, 2 * (k - 1)), Cache.Fault(faults, 2 * (k - 1) + 1));
      (if before.0.Some? then before.0 else if s.reply.Err? then Some(s.reply.failure) else None, s.after)
  }

  /** `_loadRbacFromDb`. */
  function LoadOnceSpec(m: Cache.Entries, e: AttemptEnv): (Option<LoadError>, Cache.Entries) {
    if !e.snap.reachable then (Some(DbUnavailable), m)
    else if e.snap.roles == [] then (Some(NoRoles), m)
    else
      var w := WriteRoles(m, e.snap, e.now, e.faults, |e.snap.roles|);
      (if w.0.Some? then Some(CacheFailed(w.0.value)) else None, w.1)
  }

  /** A run of the retry loop: the error it rethrows, the cache afterwards,
      how many attempts it made and the pauses between them, in milliseconds. */
  datatype RetryRun = RetryRun(error: Option<LoadError>, after: Cache.Entries, attempts: nat, waits: seq<int>)

  /** `loadRbacFromDb(retries)` from attempt number `attempt` on. */
  function RetrySpec(m: Cache.Entries, retries: int, envOf: nat -> AttemptEnv, attempt: nat): RetryRun
    requires attempt >= 1
    decreases retries - attempt
  {
    if attempt > retries then RetryRun(None, m, attempt - 1, [])
    else
      var r := LoadOnceSpec(m, envOf(attempt));
      if r.0.None? then RetryRun(None, r.1, attempt, [])
      else if attempt == retries then RetryRun(r.0, r.1, attempt, [])
      else
        var rest := RetrySpec(r.1, retries, envOf, attempt + 1);
        RetryRun(rest.error, rest.after, rest.attempts, [1000 * attempt] + rest.waits)
  }

  // ---------------------------------------------------------------- the loader as commands

  method WriteRoleM(redis: Cache.Redis, role: Role, perms: seq<Perm>, now: int, delFault: bool, addFault: bool)
    returns (r: Cache.Reply<()>)
    modifies redis
    ensures Cache.Step(r, redis.entries) == WriteRole(old(redis.entries), role, perms, now, delFault, addFault)
  {
    var key := Permission.RoleKey(role.roleType);
    var d := redis.Del([key], now, delFault);
    if d.Err? {
      return Cache.Err(d.failure);
    }
    if perms == [] {
      return Cache.Ok(());
    }
    var a := redis.SAdd(key, Members(perms), now, addFault);
    r := if a.Err? then Cache.Err(a.failure) else Cache.Ok(());
  }

  method LoadOnce(redis: Cache.Redis, e: AttemptEnv) returns (err: Option<LoadError>)
    modifies redis
    ensures (err, redis.entries) == LoadOnceSpec(old(redis.entries), e)
  {
    if !e.snap.reachable {
      return Some(DbUnavailable);
    }
    if e.snap.roles == [] {
      return Some(NoRoles);
    }
    var first: Option<Cache.Failure> := None;
    ghost var start := redis.entries;
    for k := 0 to |e.snap.roles|
      invariant (first, redis.entries) == WriteRoles(start, e.snap, e.now, e.faults, k)
    {
      var role := e.snap.roles[k];
      ghost var mid := redis.entries;
      var s := WriteRoleM(redis, role, e.snap.permsOf(role.id), e.now,
                          Cache.Fault(e.faults, 2 * k), Cache.Fault(e.faults, 2 * k + 1));
      WriteRolesNext(start, e.snap, e.now, e.faults, k, first, mid, s, redis.entries);
      if first.None? && s.Err? {
        first := Some(s.failure);
      }
    }
    err := if first.Some? then Some(CacheFailed(first.value)) else None;
  }

  /** One more role written onto the writes of the first `k`. */
  lemma WriteRolesNext(m: Cache.Entries, snap: Snapshot, now: int, faults: seq<bool>, k: nat,
                       first: Option<Cache.Failure>, mid: Cache.Entries, r: Cache.Reply<()>, after: Cache.Entries)
    requires k < |snap.roles|
    requires (first, mid) == WriteRoles(m, snap, now, faults, k)
    requires Cache.Step(r, after) == WriteRole(mid, snap.roles[k], snap.permsOf(snap.roles[k].id), now,
                                                Cache.Fault(faults, 2 * k), Cache.Fault(faults, 2 * k + 1))
    ensures WriteRoles(m, snap, now, faults, k + 1)
         == (if first.Some? then first else if r.Err? then Some(r.failure) else None, after)
  {
  }

  method LoadRbacFromDb(redis: Cache.Redis, retries: int, envOf: nat -> AttemptEnv)
    returns (error: Option<LoadError>, attempts: nat, waits: seq<int>)
    modifies redis
    ensures RetryRun(error, redis.entries, attempts, waits) == RetrySpec(old(redis.entries), retries, envOf, 1)
  {
    var attempt: nat := 1;
    waits := [];
    ghost var start := redis.entries;
    while attempt <= retries
      invariant attempt >= 1
      invariant |waits| == attempt - 1
      invariant var rest := RetrySpec(redis.entries, retries, envOf, attempt);
        RetrySpec(start, retries, envOf, 1) == RetryRun(rest.error, rest.after, rest.attempts, waits + rest.waits)
      decreases retries - attempt
    {
      ghost var before := redis.entries;
      var err := LoadOnce(redis, envOf(attempt));
      RetryUnfold(before, retries, envOf, attempt, err, redis.entries);
      if err.None? {
        return None, attempt, waits;
      }
      if attempt == retries {
        return err, attempt, waits;
      }
      ghost var rest := RetrySpec(redis.entries, retries, envOf, attempt + 1);
      assert waits + ([1000 * attempt] + rest.waits) == (waits + [1000 * attempt]) + rest.waits;
      waits := waits + [1000 * attempt];
      attempt := attempt + 1;
    }
    assert waits + [] == waits;
    return None, attempt - 1, waits;
  }

  /** One attempt of the retry loop, given what it returned. */
  lemma RetryUnfold(m: Cache.Entries, retries: int, envOf: nat -> AttemptEnv, attempt: nat,
                    err: Option<LoadError>, after: Cache.Entries)
    requires 1 <= attempt <= retries
    requires (err, after) == LoadOnceSpec(m, envOf(attempt))
    ensures RetrySpec(m, retries, envOf, attempt)
         == if err.None? then RetryRun(None, after, attempt, [])
            else if attempt == retries then RetryRun(err, after, attempt, [])
            else var rest := RetrySpec(after, retries, envOf, attempt + 1);
              RetryRun(rest.error, rest.after, rest.attempts, [1000 * attempt] + rest.waits)
  {
  }

  // ---------------------------------------------------------------- properties

  /** Loading fails when the role table is empty, and then writes nothing. */
  lemma NoRolesFails(m: Cache.Entries, e: AttemptEnv)
    requires e.snap.reachable && e.snap.roles == []
    ensures LoadOnceSpec(m, e) == (Some(NoRoles), m)
  {
  }

  /** The roles' keys are distinct when their types are. */
  predicate DistinctTypes(roles: seq<Role>) {
    forall i, j :: 0 <= i < j < |roles| ==> roles[i].roleType != roles[j].roleType
  }

  /** What a role's key holds after a load: exactly the role's permissions, or
      nothing when it has none. */
  predicate HoldsExactly(m: Cache.Entries, role: Role, perms: seq<Perm>) {
    var key := Permission.RoleKey(role.roleType);
    if perms == [] then key !in m
    else key in m && m[key] == Cache.Entry(Cache.Members(set p | p in Members(perms)), None)
  }

  lemma RoleKeyInjective(a: string, b: string)
    requires a != b
    ensures Permission.RoleKey(a) != Permission.RoleKey(b)
  {
    var ka, kb := Permission.RoleKey(a), Permission.RoleKey(b);
    assert ka[5..|ka| - 12] == a;
    assert kb[5..|kb| - 12] == b;
  }

  lemma WriteRoleMeaning(m: Cache.Entries, role: Role, perms: seq<Perm>, now: int)
    ensures var s := WriteRole(m, role, perms, now, false, false);
      && s.reply == Cache.Ok(())
      && HoldsExactly(s.after, role, perms)
      && forall k :: k != Permission.RoleKey(role.roleType) ==> SameAt(m, s.after, k)
  {
    var key := Permission.RoleKey(role.roleType);
    assert Cache.Without(m, [key]) == m - {key};
  }

  /** A fault-free write of one role succeeds. */
  lemma WriteRoleOk(m: Cache.Entries, role: Role, perms: seq<Perm>, now: int)
    ensures WriteRole(m, role, perms, now, false, false).reply == Cache.Ok(())
  {
  }

  /** `key` is the key of none of the first `k` roles. */
  predicate OtherKey(snap: Snapshot, k: nat, key: string)
    requires k <= |snap.roles|
  {
    forall i :: 0 <= i < k ==> key != Permission.RoleKey(snap.roles[i].roleType)
  }

  predicate SameAt(m: Cache.Entries, m': Cache.Entries, key: string) {
    (key in m' <==> key in m) && (key in m ==> m'[key] == m[key])
  }

  /** A fault-free write of role `k - 1` succeeds, keeps every other key and
      leaves that role's key holding exactly its permissions. */
  lemma WriteRolesStep(m: Cache.Entries, snap: Snapshot, now: int, k: nat)
    requires 0 < k <= |snap.roles|
    ensures var before := WriteRoles(m, snap, now, [], k - 1);
      var w := WriteRoles(m, snap, now, [], k);
      var role := snap.roles[k - 1];
      && w.0 == before.0
      && HoldsExactly(w.1, role, snap.permsOf(role.id))
      && forall key :: key != Permission.RoleKey(role.roleType) ==> SameAt(before.1, w.1, key)
  {
    var before := WriteRoles(m, snap, now, [], k - 1);
    var role := snap.roles[k - 1];
    WriteRoleMeaning(before.1, role, snap.permsOf(role.id), now);
  }

  /** Fault-free writes report no error. */
  lemma {:induction false} WriteRolesSucceed(m: Cache.Entries, snap: Snapshot, now: int, k: nat)
    requires k <= |snap.roles|
    ensures WriteRoles(m, snap, now, [], k).0.None?
  {
    if k > 0 {
      WriteRolesSucceed(m, snap, now, k - 1);
      var before := WriteRoles(m, snap, now, [], k - 1);
      var role := snap.roles[k - 1];
      WriteRoleOk(before.1, role, snap.permsOf(role.id), now);
      var s := WriteRole(before.1, role, snap.permsOf(role.id), now, false, false);
      assert !Cache.Fault([], 2 * (k - 1)) && !Cache.Fault([], 2 * (k - 1) + 1);
      assert WriteRoles(m, snap, now, [], k) == (None, s.after);
    }
  }

  /** Fault-free writes of the first `k` roles change no key but theirs. */
  lemma {:induction false} WriteRolesKeepOthers(m: Cache.Entries, snap: Snapshot, now: int, k: nat)
    requires k <= |snap.roles|
    ensures forall key :: OtherKey(snap, k, key) ==> SameAt(m, WriteRoles(m, snap, now, [], k).1, key)
  {
    if k > 0 {
      WriteRolesKeepOthers(m, snap, now, k - 1);
      WriteRolesStep(m, snap, now, k);
      OthersChain(m, WriteRoles(m, snap, now, [], k - 1).1, WriteRoles(m, snap, now, [], k).1, snap, k);
    }
  }

  lemma OthersChain(m: Cache.Entries, before: Cache.Entries, after: Cache.Entries, snap: Snapshot, k: nat)
    requires 0 < k <= |snap.roles|
    requires forall key :: OtherKey(snap, k - 1, key) ==> SameAt(m, before, key)
    requires forall key :: key != Permission.RoleKey(snap.roles[k - 1].roleType) ==> SameAt(before, after, key)
    ensures forall key :: OtherKey(snap, k, key) ==> SameAt(m, after, key)
  {
    forall key | OtherKey(snap, k, key)
      ensures SameAt(m, after, key)
    {
      assert OtherKey(snap, k - 1, key);
      assert key != Permission.RoleKey(snap.roles[k - 1].roleType);
      assert SameAt(m, before, key) && SameAt(before, after, key);
    }
  }

  /** After fault-free writes of the first `k` roles with distinct types, each
      of those roles' keys holds exactly its permissions. */
  lemma {:induction false} WriteRolesExact(m: Cache.Entries, snap: Snapshot, now: int, k: nat)
    requires k <= |snap.roles| && DistinctTypes(snap.roles)
    ensures forall i :: 0 <= i < k ==> HoldsExactly(WriteRoles(m, snap, now, [], k).1, snap.roles[i], snap.permsOf(snap.roles[i].id))
  {
    if k > 0 {
      WriteRolesExact(m, snap, now, k - 1);
      WriteRolesStep(m, snap, now, k);
      var before, after := WriteRoles(m, snap, now, [], k - 1).1, WriteRoles(m, snap, now, [], k).1;
      EarlierRolesKept(before, after, snap, k);
    }
  }

  /** Writing role `k - 1` keeps what the earlier roles' keys hold. */
  lemma EarlierRolesKept(before: Cache.Entries, after: Cache.Entries, snap: Snapshot, k: nat)
    requires 0 < k <= |snap.roles| && DistinctTypes(snap.roles)
    requires forall i :: 0 <= i < k - 1 ==> HoldsExactly(before, snap.roles[i], snap.permsOf(snap.roles[i].id))
    requires HoldsExactly(after, snap.roles[k - 1], snap.permsOf(snap.roles[k - 1].id))
    requires forall key :: key != Permission.RoleKey(snap.roles[k - 1].roleType) ==> SameAt(before, after, key)
    ensures forall i :: 0 <= i < k ==> HoldsExactly(after, snap.roles[i], snap.permsOf(snap.roles[i].id))
  {
    forall i | 0 <= i < k - 1
      ensures HoldsExactly(after, snap.roles[i], snap.permsOf(snap.roles[i].id))
    {
      RoleKeyInjective(snap.roles[i].roleType, snap.roles[k - 1].roleType);
      assert SameAt(before, after, Permission.RoleKey(snap.roles[i].roleType));
    }
  }

  /** A fault-free load over distinct role types leaves every role's key holding
      exactly its current permissions, a role without permissions with no key
      at all, and every other key as it was. */
  lemma LoadRebuildsSets(m: Cache.Entries, e: AttemptEnv)
    requires e.snap.reachable && e.snap.roles != [] && e.faults == [] && DistinctTypes(e.snap.roles)
    ensures var r := LoadOnceSpec(m, e);
      && r.0.None?
      && (forall i :: 0 <= i < |e.snap.roles| ==> HoldsExactly(r.1, e.snap.roles[i], e.snap.permsOf(e.snap.roles[i].id)))
      && forall key :: OtherKey(e.snap, |e.snap.roles|, key) ==> SameAt(m, r.1, key)
  {
    WriteRolesSucceed(m, e.snap, e.now, |e.snap.roles|);
    WriteRolesKeepOthers(m, e.snap, e.now, |e.snap.roles|);
    WriteRolesExact(m, e.snap, e.now, |e.snap.roles|);
  }

  /** After such a load, the route guard passes a non-admin role exactly for
      the permissions the tables give it. */
  lemma GuardFollowsLoadedSets(m: Cache.Entries, e: AttemptEnv, i: nat, module_: string, permType: string, later: int)
    requires e.snap.reachable && e.snap.roles != [] && e.faults == [] && DistinctTypes(e.snap.roles)
    requires i < |e.snap.roles| && e.snap.roles[i].roleType != "" && e.snap.roles[i].roleType != "admin"
    ensures var after := LoadOnceSpec(m, e).1;
      var role := e.snap.roles[i];
      (Permission.CheckPermissionSpec(after, Some(role.roleType), module_, permType, later, false) == Permission.Allow
       <==> Permission.PermissionName(module_, permType) in Members(e.snap.permsOf(role.id)))
  {
    LoadRebuildsSets(m, e);
    Permission.CheckPermissionMeaning(LoadOnceSpec(m, e).1, Some(e.snap.roles[i].roleType), module_, permType, later, false);
  }

  /** The retry loop: at most `retries` attempts (none when `retries <= 0`),
      stopping at the first success; when every attempt fails, the last
      attempt's error is rethrown after exactly `retries` attempts; the pause
      after failed attempt `k` is `1000 k` ms. */
  lemma {:induction false} RetryMeaning(m: Cache.Entries, retries: int, envOf: nat -> AttemptEnv, attempt: nat)
    requires attempt >= 1
    ensures var r := RetrySpec(m, retries, envOf, attempt);
      && (attempt > retries ==> r == RetryRun(None, m, attempt - 1, []))
      && (attempt <= retries ==> attempt <= r.attempts <= retries)
      && |r.waits| == (if attempt > retries then 0 else r.attempts - attempt)
      && (forall k :: 0 <= k < |r.waits| ==> r.waits[k] == 1000 * (attempt + k))
      && (r.error.Some? ==> r.attempts == retries)
    decreases retries - attempt
  {
    if attempt <= retries {
      var r1 := LoadOnceSpec(m, envOf(attempt));
      if r1.0.Some? && attempt < retries {
        RetryMeaning(r1.1, retries, envOf, attempt + 1);
        var rest := RetrySpec(r1.1, retries, envOf, attempt + 1);
        var r := RetrySpec(m, retries, envOf, attempt);
        assert r.waits == [1000 * attempt] + rest.waits;
        forall k | 0 <= k < |r.waits|
          ensures r.waits[k] == 1000 * (attempt + k)
        {
          if k > 0 {
            assert r.waits[k] == rest.waits[k - 1];
          }
        }
      }
    }
  }

  /** A run that ends without error made its last attempt succeed, unless no
      attempt was allowed; a run that ends with an error made its last attempt
      fail with that error. */
  lemma {:induction false} RetryStopsAtFirstSuccess(m: Cache.Entries, retries: int, envOf: nat -> AttemptEnv, attempt: nat)
    requires 1 <= attempt <= retries
    ensures var r := RetrySpec(m, retries, envOf, attempt);
      && attempt <= r.attempts
      && (forall j :: attempt <= j < r.attempts ==> LoadFails(m, retries, envOf, attempt, j))
    decreases retries - attempt
  {
    var r1 := LoadOnceSpec(m, envOf(attempt));
    if r1.0.Some? && attempt < retries {
      RetryStopsAtFirstSuccess(r1.1, retries, envOf, attempt + 1);
    }
  }

  /** Attempt `j` of a run that started at attempt `attempt` failed. */
  predicate LoadFails(m: Cache.Entries, retries: int, envOf: nat -> AttemptEnv, attempt: nat, j: nat)
    requires attempt >= 1
    decreases j - attempt
  {
    var r1 := LoadOnceSpec(m, envOf(attempt));
    r1.0.Some? && (j > attempt ==> LoadFails(r1.1, retries, envOf, attempt + 1, j))
  }
}
