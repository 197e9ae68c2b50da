/** `userIdSchema` and the password-change body `bodySchema`. */
module UserSchema {
  import opened Wrappers
  import Zod
  import AuthSchema
  import Links
  import B = Base62Codec

  /** `z.coerce.number().int().positive()`: the input goes through `Number(...)`
      (the parameter `toNumber`); an integer must be finite and a safe
      integer, and positive. */
  function UserIdSchema<T>(raw: T, toNumber: T -> Links.JsNumber): (r: Option<nat>)
    ensures var n := toNumber(raw);
      r.Some? <==> n.Finite? && n.x == n.x.Floor as real && 1 <= n.x.Floor <= B.MaxSafeInteger
    ensures r.Some? ==> r.value >= 1 && r.value as real == toNumber(raw).x
  {
    var n := toNumber(raw);
    if n.Finite? && n.x == n.x.Floor as real && -(B.MaxSafeInteger as int) <= n.x.Floor <= B.MaxSafeInteger && n.x > 0.0
    then Some(n.x.Floor)
    else None
  }

  datatype BodyField = CurrentPassword | NewPassword | NewPasswordAgain

  /** An issue and the field it is reported on. */
  datatype Issue = Issue(path: BodyField, kind: IssueKind)
  datatype IssueKind = BadPassword | SameAsCurrent | AgainDiffers

  datatype PasswordChange = PasswordChange(currentPassword: string, newPassword: string, newPasswordAgain: string)

  function FieldIssues(current: Zod.Field, new_: Zod.Field, again: Zod.Field): set<Issue> {
    (if AuthSchema.PasswordSchema(current) then {} else {Issue(CurrentPassword, BadPassword)})
    + (if AuthSchema.PasswordSchema(new_) then {} else {Issue(NewPassword, BadPassword)})
    + (if AuthSchema.PasswordSchema(again) then {} else {Issue(NewPasswordAgain, BadPassword)})
  }

  /** The refinements run once the body has its shape: all three fields are
      strings (a failed pattern or length check does not stop them). */
  predicate Shaped(current: Zod.Field, new_: Zod.Field, again: Zod.Field) {
    current.Text? && new_.Text? && again.Text?
  }

  /** `bodySchema` as written: the second refinement compares
      `newPasswordAgain` with itself. */
  function BodyIssuesAsWritten(current: Zod.Field, new_: Zod.Field, again: Zod.Field): set<Issue> {
    FieldIssues(current, new_, again)
    + (if Shaped(current, new_, again) && current.s == new_.s then {Issue(NewPassword, SameAsCurrent)} else {})
    + (if Shaped(current, new_, again) && !(again.s != again.s) then {Issue(NewPasswordAgain, AgainDiffers)} else {})
  }

  /** `bodySchema` with the second refinement comparing the two new passwords. */
  function BodyIssues(current: Zod.Field, new_: Zod.Field, again: Zod.Field): set<Issue> {
    FieldIssues(current, new_, again)
    + (if Shaped(current, new_, again) && current.s == new_.s then {Issue(NewPassword, SameAsCurrent)} else {})
    + (if Shaped(current, new_, again) && new_.s != again.s then {Issue(NewPasswordAgain, AgainDiffers)} else {})
  }

  function BodyParse(current: Zod.Field, new_: Zod.Field, again: Zod.Field): Result<PasswordChange, set<Issue>> {
    var issues := BodyIssues(current, new_, again);
    if issues == {} then Success(PasswordChange(current.s, new_.s, again.s)) else Failure(issues)
  }

  /** As written the schema accepts nothing: every body has an issue. */
  lemma AsWrittenRejectsEverything(current: Zod.Field, new_: Zod.Field, again: Zod.Field)
    ensures BodyIssuesAsWritten(current, new_, again) != {}
  {
    if !Shaped(current, new_, again) {
      assert !AuthSchema.PasswordSchema(current) || !AuthSchema.PasswordSchema(new_) || !AuthSchema.PasswordSchema(again);
    } else {
      assert Issue(NewPasswordAgain, AgainDiffers) in BodyIssuesAsWritten(current, new_, again);
    }
  }

  /** A well-formed change ("Abc123" to "Xyz789", confirmed) is refused as written. */
  lemma AsWrittenRefusesValidChange()
    ensures Issue(NewPasswordAgain, AgainDiffers)
            in BodyIssuesAsWritten(Zod.Text("Abc123"), Zod.Text("Xyz789"), Zod.Text("Xyz789"))
  {
  }

  /** The corrected schema accepts exactly a change between valid passwords to
      a different password, confirmed identically; then it returns the three
      strings unchanged. */
  lemma BodyMeaning(current: Zod.Field, new_: Zod.Field, again: Zod.Field)
    ensures var r := BodyParse(current, new_, again);
      && (r.Success? <==>
            && current.Text? && AuthSchema.PasswordRule(current.s)
            && new_.Text? && AuthSchema.PasswordRule(new_.s)
            && again.Text? && AuthSchema.PasswordRule(again.s)
            && current.s != new_.s && new_.s == again.s)
      && (r.Success? ==> r.value == PasswordChange(current.s, new_.s, again.s))
  {
    AuthSchema.PasswordSchemaIsRule(current);
    AuthSchema.PasswordSchemaIsRule(new_);
    AuthSchema.PasswordSchemaIsRule(again);
    var issues := BodyIssues(current, new_, again);
    if !AuthSchema.PasswordSchema(current) {
      assert Issue(CurrentPassword, BadPassword) in issues;
    } else if !AuthSchema.PasswordSchema(new_) {
      assert Issue(NewPassword, BadPassword) in issues;
    } else if !AuthSchema.PasswordSchema(again) {
      assert Issue(NewPasswordAgain, BadPassword) in issues;
    } else if current.s == new_.s {
      assert Issue(NewPassword, SameAsCurrent) in issues;
    } else if new_.s != again.s {
      assert Issue(NewPasswordAgain, AgainDiffers) in issues;
    }
  }

  /** Reusing the current password is reported on `newPassword`, and a
      mismatched confirmation on `newPasswordAgain`, whenever the body has its
      shape. */
  lemma RefinementPaths(current: Zod.Field, new_: Zod.Field, again: Zod.Field)
    requires Shaped(current, new_, again)
    ensures Issue(NewPassword, SameAsCurrent) in BodyIssues(current, new_, again) <==> current.s == new_.s
    ensures Issue(NewPasswordAgain, AgainDiffers) in BodyIssues(current, new_, again) <==> new_.s != again.s
    ensures forall i :: i in BodyIssues(current, new_, again) && i.kind == SameAsCurrent ==> i.path == NewPassword
  {
  }
}
