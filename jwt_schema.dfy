/** `AccessPayloadSchema` and `RefreshPayloadSchema`: the shapes a verified
    token's payload must have. */
module JwtSchema {
  import opened Wrappers
  import Zod

  datatype Role = Admin | User

  datatype AccessPayload = AccessPayload(id: string, name: string, email: string, role: Role)

  /** `z.enum(["admin", "user"])`. */
  function RoleOf(f: Zod.Field): (r: Option<Role>)
    ensures r == Some(Admin) <==> f == Zod.Text("admin")
    ensures r == Some(User) <==> f == Zod.Text("user")
    ensures r.None? <==> !(f.Text? && (f.s == "admin" || f.s == "user"))
  {
    if f == Zod.Text("admin") then Some(Admin)
    else if f == Zod.Text("user") then Some(User)
    else None
  }

  function RoleName(r: Role): string {
    match r
    case Admin => "admin"
    case User => "user"
  }

  /** `AccessPayloadSchema.parse`: `id` and `name` non-empty strings, `email`
      a non-empty address (the format check is the parameter `isEmail`), `role`
      one of the two role names. */
  function ParseAccess(id: Zod.Field, name: Zod.Field, email: Zod.Field, role: Zod.Field, isEmail: string -> bool)
    : Option<AccessPayload>
  {
    if id.Text? && Zod.MinLength(id.s, 1) && name.Text? && Zod.MinLength(name.s, 1)
       && email.Text? && isEmail(email.s) && Zod.MinLength(email.s, 1) && RoleOf(role).Some?
    then Some(AccessPayload(id.s, name.s, email.s, RoleOf(role).value))
    else None
  }

  /** `RefreshPayloadSchema.parse`: any non-empty string. */
  function ParseRefresh(f: Zod.Field): Option<string> {
    if f.Text? && Zod.MinLength(f.s, 1) then Some(f.s) else None
  }

  /** An access payload parses exactly when its fields are present and
      non-empty, the e-mail has the address format and the role is named
      exactly; the parsed payload keeps the strings, and its role renders back
      to the input. */
  lemma AccessMeaning(id: Zod.Field, name: Zod.Field, email: Zod.Field, role: Zod.Field, isEmail: string -> bool)
    ensures var r := ParseAccess(id, name, email, role, isEmail);
      && (r.Some? <==>
            && id.Text? && id.s != [] && name.Text? && name.s != []
            && email.Text? && email.s != [] && isEmail(email.s)
            && role.Text? && (role.s == "admin" || role.s == "user"))
      && (r.Some? ==> r.value.id == id.s && r.value.name == name.s && r.value.email == email.s
                      && Zod.Text(RoleName(r.value.role)) == role)
  {
    if id.Text? { Zod.MinOneIsNonEmpty(id.s); }
    if name.Text? { Zod.MinOneIsNonEmpty(name.s); }
    if email.Text? { Zod.MinOneIsNonEmpty(email.s); }
  }

  /** A refresh payload is exactly a non-empty string, returned unchanged. */
  lemma RefreshMeaning(f: Zod.Field)
    ensures ParseRefresh(f).Some? <==> f.Text? && f.s != []
    ensures ParseRefresh(f).Some? ==> ParseRefresh(f).value == f.s
  {
    if f.Text? { Zod.MinOneIsNonEmpty(f.s); }
  }
}
