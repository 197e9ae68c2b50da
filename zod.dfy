/** The pieces of the validation library that the schemas use: what a field
    of the parsed object can be, and the string length a `min` check counts. */
module Zod {
  import Text

  /** A property of the input object: absent, a string, or any other value. */
  datatype Field = Missing | Text(s: string) | NotText

  /** `z.string().min(n)`: counts UTF-16 code units. */
  predicate MinLength(s: string, n: nat) {
    Text.Utf16Length(s) >= n
  }

  /** A string has at least one code unit exactly when it is not empty. */
  lemma MinOneIsNonEmpty(s: string)
    ensures MinLength(s, 1) <==> s != []
  {
  }
}
