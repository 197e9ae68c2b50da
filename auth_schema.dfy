/** `registerSchema` and the password rule `passwordRegex`,
    `/^(?=.*[a-z])(?=.*[A-Z])(?=.*\d).{6,}$/`. */
module AuthSchema {
  import opened Wrappers
  import Text
  import Zod

  /** What the regular expression demands, stated directly: a lower-case and
      an upper-case ASCII letter, an ASCII digit, no line terminator (`.` does
      not match one and the pattern is anchored at both ends), and at least
      six UTF-16 code units. */
  predicate PasswordRule(s: string) {
    && (exists i :: 0 <= i < |s| && Text.IsAsciiLower(s[i]))
    && (exists i :: 0 <= i < |s| && Text.IsAsciiUpper(s[i]))
    && (exists i :: 0 <= i < |s| && Text.IsAsciiDigit(s[i]))
    && (forall i :: 0 <= i < |s| ==> !Text.IsLineTerminator(s[i]))
    && Text.Utf16Length(s) >= 6
  }

  /** What one left-to-right pass over the input has seen. */
  datatype Seen = Seen(lower: bool, upper: bool, digit: bool, terminator: bool, units: nat)

  function Scan(s: string): Seen {
    if s == [] then Seen(false, false, false, false, 0)
    else
      var k := Scan(s[..|s| - 1]);
      var c := s[|s| - 1];
      Seen(k.lower || Text.IsAsciiLower(c), k.upper || Text.IsAsciiUpper(c), k.digit || Text.IsAsciiDigit(c),
           k.terminator || Text.IsLineTerminator(c), k.units + (if c as int > 0xFFFF then 2 else 1))
  }

  /** The anchored match: every lookahead found its character before the end
      of the line, and the whole input is one line of six or more units. */
  predicate PasswordRegexMatches(s: string) {
    var k := Scan(s);
    k.lower && k.upper && k.digit && !k.terminator && k.units >= 6
  }

  lemma {:induction false} ScanMeaning(s: string)
    ensures Scan(s).lower <==> exists i :: 0 <= i < |s| && Text.IsAsciiLower(s[i])
    ensures Scan(s).upper <==> exists i :: 0 <= i < |s| && Text.IsAsciiUpper(s[i])
    ensures Scan(s).digit <==> exists i :: 0 <= i < |s| && Text.IsAsciiDigit(s[i])
    ensures Scan(s).terminator <==> exists i :: 0 <= i < |s| && Text.IsLineTerminator(s[i])
    ensures Scan(s).units == Text.Utf16Length(s)
  {
    if s != [] {
      var init := s[..|s| - 1];
      ScanMeaning(init);
      assert forall i :: 0 <= i < |init| ==> init[i] == s[i];
    }
  }

  /** The scan accepts exactly the strings of the rule. */
  lemma PasswordRegexIff(s: string)
    ensures PasswordRegexMatches(s) <==> PasswordRule(s)
  {
    ScanMeaning(s);
  }

  /** `z.string().regex(passwordRegex).min(6)`. */
  predicate PasswordSchema(f: Zod.Field) {
    f.Text? && PasswordRegexMatches(f.s) && Zod.MinLength(f.s, 6)
  }

  /** The `min(6)` check never rejects a string the pattern accepted. */
  lemma PasswordSchemaIsRule(f: Zod.Field)
    ensures PasswordSchema(f) <==> f.Text? && PasswordRule(f.s)
  {
    if f.Text? {
      PasswordRegexIff(f.s);
      ScanMeaning(f.s);
    }
  }

  datatype RegisterField = Email | Password | Nickname

  datatype Register = Register(email: string, password: string, nickname: string)

  predicate EmailOk(f: Zod.Field, isEmail: string -> bool) { f.Text? && isEmail(f.s) }
  predicate NicknameOk(f: Zod.Field) { f.Text? && Zod.MinLength(f.s, 6) }

  /** `registerSchema.safeParse`: the fields that fail, or the parsed body.
      The e-mail format check is the parameter `isEmail`. */
  function RegisterParse(email: Zod.Field, password: Zod.Field, nickname: Zod.Field, isEmail: string -> bool)
    : Result<Register, set<RegisterField>>
  {
    var issues := (if EmailOk(email, isEmail) then {} else {Email})
                + (if PasswordSchema(password) then {} else {Password})
                + (if NicknameOk(nickname) then {} else {Nickname});
    if issues == {} then Success(Register(email.s, password.s, nickname.s)) else Failure(issues)
  }

  /** Registration accepts a body exactly when all three fields are present
      strings meeting their rules, returns them unchanged, and otherwise names
      every field that fails. */
  lemma RegisterMeaning(email: Zod.Field, password: Zod.Field, nickname: Zod.Field, isEmail: string -> bool)
    ensures var r := RegisterParse(email, password, nickname, isEmail);
      && (r.Success? <==> EmailOk(email, isEmail) && password.Text? && PasswordRule(password.s) && NicknameOk(nickname))
      && (r.Success? ==> r.value == Register(email.s, password.s, nickname.s))
      && (r.Failure? ==>
            && (Email in r.error <==> !EmailOk(email, isEmail))
            && (Password in r.error <==> !(password.Text? && PasswordRule(password.s)))
            && (Nickname in r.error <==> !NicknameOk(nickname)))
  {
    PasswordSchemaIsRule(password);
    var issues := (if EmailOk(email, isEmail) then {} else {Email})
                + (if PasswordSchema(password) then {} else {Password})
                + (if NicknameOk(nickname) then {} else {Nickname});
    assert Email in issues <==> !EmailOk(email, isEmail);
    assert Password in issues <==> !PasswordSchema(password);
    assert Nickname in issues <==> !NicknameOk(nickname);
  }
}
