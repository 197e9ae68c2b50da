/** The route guard `checkPermission(module, type)`: a read-only decision on
    the caller's role and on the role's permission set in the cache. */
module Permission {
  import opened Wrappers
  import Cache

  datatype Decision = Allow | Unauthenticated | Denied(required: string) | ServerError

  function RoleKey(role: string): string {
    "role:" + role + ":permissions"
  }

  /** The member a permission is stored as: `{module}:{type}`. */
  function PermissionName(module_: string, permType: string): string {
    module_ + ":" + permType
  }

  /** A missing or empty role gets 401; `admin` passes without a cache
      command; any other role passes when the permission is a member of the
      role's set (one SISMEMBER), else 403 naming the permission; a cache error
      gets 500. */
  function CheckPermissionSpec(m: Cache.Entries, role: Option<string>, module_: string, permType: string,
                               now: int, fault: bool): Decision
  {
    if role.None? || role.value == "" then Unauthenticated
    else if role.value == "admin" then Allow
    else
      var perm := PermissionName(module_, permType);
      var r := Cache.Attempt(fault, m, Cache.SIsMemberStep(m, RoleKey(role.value), perm, now));
      if r.reply.Err? then ServerError
      else if !r.reply.value then Denied(perm)
      else Allow
  }

  /** The decision rule in full: which callers pass, which are refused and why. */
  lemma CheckPermissionMeaning(m: Cache.Entries, role: Option<string>, module_: string, permType: string,
                               now: int, fault: bool)
    ensures var d := CheckPermissionSpec(m, role, module_, permType, now, fault);
      var perm := PermissionName(module_, permType);
      && (d == Unauthenticated <==> role.None? || role.value == "")
      && (role == Some("admin") ==> d == Allow)
      && (role.Some? && role.value != "" && role.value != "admin" ==>
            var key := RoleKey(role.value);
            && (d == Allow <==> !fault && Cache.Live(m, key, now) && m[key].value.Members? && perm in m[key].value.m)
            && (d == ServerError <==> fault || (Cache.Live(m, key, now) && !m[key].value.Members?))
            && (d.Denied? ==> d.required == perm))
      && (d.Denied? ==> d.required == perm)
  {
  }
}
