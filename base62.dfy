/** Positional base-N encoding of non-negative integers over an alphabet of
    distinct characters, as used to derive short codes from record ids. */
module Base62Codec {
  import opened Wrappers

  /** The `n` consecutive characters from `first` on. */
  function Run(first: char, n: nat): (r: string)
    requires first as int + n <= 0xD800
    ensures |r| == n && forall i :: 0 <= i < n ==> r[i] as int == first as int + i
  {
    if n == 0 then [] else Run(first, n - 1) + [(first as int + n - 1) as char]
  }

  /** "a".."z", then "A".."Z", then "0".."9": the default alphabet, 62 characters. */
  const DefaultAlphabet: string := Run('a', 26) + Run('A', 26) + Run('0', 10)

  /** `Number.MAX_SAFE_INTEGER`, 2^53 - 1. */
  const MaxSafeInteger: nat := 0x1F_FFFF_FFFF_FFFF

  datatype AlphabetError = DuplicateCharacters | TooFewCharacters
  datatype EncodeError = NegativeInput
  datatype DecodeError = EmptyInput | InvalidCharacter(c: char) | ExceedsMaxSafeInteger

  // ---------------------------------------------------------------- arithmetic

  /** Whole division by a base of at least 2. */
  lemma DivStep(n: nat, b: nat)
    requires b >= 2
    ensures n >= b ==> 1 <= n / b < n
    ensures n < b ==> n / b == 0 && n % b == n
    ensures n % b < b && n == (n / b) * b + n % b
  {
  }

  lemma MulGrows(v: nat, b: nat)
    requires b >= 1
    ensures v * b >= v
  {
  }

  function Pow(b: nat, e: nat): nat {
    if e == 0 then 1 else b * Pow(b, e - 1)
  }

  lemma {:induction false} PowMonotone(b: nat, e1: nat, e2: nat)
    requires b >= 1 && e1 <= e2
    ensures Pow(b, e1) <= Pow(b, e2)
    decreases e2
  {
    if e1 < e2 {
      PowMonotone(b, e1, e2 - 1);
      MulLe(1, b, Pow(b, e2 - 1));
      assert Pow(b, e2) == b * Pow(b, e2 - 1);
    }
  }

  /** The per-character guard `val > floor((MAX - digit) / base)` holds exactly when
      the next accumulated value `val * base + digit` would exceed MAX. */
  lemma GuardExact(val: nat, digit: nat, b: nat)
    requires b >= 1
    ensures val > (MaxSafeInteger - digit) / b <==> val * b + digit > MaxSafeInteger
  {
    var a := MaxSafeInteger - digit;
    var q := a / b;
    assert q * b <= a < (q + 1) * b;
    if val > q {
      assert val * b >= (q + 1) * b;
    } else {
      assert val * b <= q * b;
    }
  }

  // ---------------------------------------------------------------- alphabet

  predicate Distinct(s: string) {
    forall i, j :: 0 <= i < j < |s| ==> s[i] != s[j]
  }

  function CharSet(s: string): set<char> {
    set c | c in s
  }

  /** The constructor's checks, in its order: duplicates (the set of characters is
      smaller than the string), then fewer than two characters. */
  function CheckAlphabet(alphabet: string): Option<AlphabetError> {
    if |CharSet(alphabet)| != |alphabet| then Some(DuplicateCharacters)
    else if |alphabet| < 2 then Some(TooFewCharacters)
    else None
  }

  lemma {:induction false} CharSetBound(s: string)
    ensures |CharSet(s)| <= |s|
    ensures Distinct(s) ==> |CharSet(s)| == |s|
  {
    if s != [] {
      CharSetBound(s[1..]);
      assert CharSet(s) == {s[0]} + CharSet(s[1..]);
      if Distinct(s) {
        forall j | 0 <= j < |s[1..]| ensures s[1..][j] != s[0] {
          assert s[1..][j] == s[j + 1];
        }
      }
    }
  }

  /** The duplicate test (set size against length) detects exactly a repeated character. */
  lemma CharSetSizeIffDistinct(s: string)
    ensures |CharSet(s)| == |s| <==> Distinct(s)
  {
    CharSetBound(s);
    if !Distinct(s) {
      var i, j :| 0 <= i < j < |s| && s[i] == s[j];
      var t := s[..j] + s[j + 1..];
      assert CharSet(s) == CharSet(t) by {
        forall c | c in CharSet(s) ensures c in CharSet(t) {
          var k :| 0 <= k < |s| && s[k] == c;
          if k < j { assert t[k] == c; }
          else if k == j { assert t[i] == c; }
          else { assert t[k - 1] == c; }
        }
        forall c | c in CharSet(t) ensures c in CharSet(s) {
          var k :| 0 <= k < |t| && t[k] == c;
          if k < j { assert s[k] == c; } else { assert s[k + 1] == c; }
        }
      }
      CharSetBound(t);
    }
  }

  lemma DefaultAlphabetAccepted()
    ensures |DefaultAlphabet| == 62 && Distinct(DefaultAlphabet)
    ensures CheckAlphabet(DefaultAlphabet) == None
    ensures DefaultAlphabet[0] == 'a' && DefaultAlphabet[26] == 'A' && DefaultAlphabet[61] == '9'
  {
    assert forall i :: 0 <= i < 26 ==> DefaultAlphabet[i] as int == 'a' as int + i;
    assert forall i :: 26 <= i < 52 ==> DefaultAlphabet[i] as int == 'A' as int + i - 26;
    assert forall i :: 52 <= i < 62 ==> DefaultAlphabet[i] as int == '0' as int + i - 52;
    CharSetSizeIffDistinct(DefaultAlphabet);
  }

  /** `charToVal` maps each alphabet character to its position, and nothing else. */
  predicate Inverts(alphabet: string, charToVal: map<char, nat>) {
    && (forall c :: c in charToVal <==> c in alphabet)
    && (forall i :: 0 <= i < |alphabet| ==> charToVal[alphabet[i]] == i)
  }

  lemma InvertsDistinct(alphabet: string, charToVal: map<char, nat>)
    requires Inverts(alphabet, charToVal)
    ensures Distinct(alphabet)
  {
  }

  // ---------------------------------------------------------------- encoding

  /** The base-|alphabet| digits of `n`, most significant first; 0 is one digit. */
  function EncodeSpec(alphabet: string, n: nat): string
    requires |alphabet| >= 2
    decreases n
  {
    var b := |alphabet|;
    if n < b then [alphabet[n]]
    else DivStep(n, b); EncodeSpec(alphabet, n / b) + [alphabet[n % b]]
  }

  function Reversed(s: string): (r: string)
    ensures |r| == |s|
  {
    if s == [] then [] else Reversed(s[1..]) + [s[0]]
  }

  lemma {:induction false} ReversedAppend(s: string, c: char)
    ensures Reversed(s + [c]) == [c] + Reversed(s)
  {
    if s != [] {
      assert (s + [c])[1..] == s[1..] + [c];
      ReversedAppend(s[1..], c);
    } else {
      assert Reversed([c]) == Reversed([]) + [c];
    }
  }

  /** Encoding 0 gives the first alphabet character alone; a longer code never
      starts with it; the code is made of alphabet characters. */
  lemma {:induction false} EncodeShape(alphabet: string, n: nat)
    requires |alphabet| >= 2 && Distinct(alphabet)
    ensures EncodeSpec(alphabet, n) != []
    ensures forall k :: 0 <= k < |EncodeSpec(alphabet, n)| ==> EncodeSpec(alphabet, n)[k] in alphabet
    ensures n == 0 <==> EncodeSpec(alphabet, n) == [alphabet[0]]
    ensures n > 0 ==> EncodeSpec(alphabet, n)[0] != alphabet[0]
    decreases n
  {
    var b := |alphabet|;
    var e := EncodeSpec(alphabet, n);
    DivStep(n, b);
    if n >= b {
      EncodeShape(alphabet, n / b);
      var p := EncodeSpec(alphabet, n / b);
      assert e == p + [alphabet[n % b]];
      assert e[0] == p[0];
      assert |e| >= 2;
      forall k | 0 <= k < |e| ensures e[k] in alphabet {
        if k < |p| { assert e[k] == p[k]; }
      }
    } else if n > 0 {
      assert alphabet[n] != alphabet[0];
    }
  }

  /** A code of `k` characters encodes a number below base^k, and at least
      base^(k-1) when the number is positive. */
  lemma {:induction false} EncodeLength(alphabet: string, n: nat)
    requires |alphabet| >= 2
    ensures n < Pow(|alphabet|, |EncodeSpec(alphabet, n)|)
    ensures n > 0 ==> Pow(|alphabet|, |EncodeSpec(alphabet, n)| - 1) <= n
    decreases n
  {
    var b := |alphabet|;
    DivStep(n, b);
    if n >= b {
      var q := n / b;
      EncodeLength(alphabet, q);
      var k := |EncodeSpec(alphabet, q)|;
      assert |EncodeSpec(alphabet, n)| == k + 1;
      LengthStep(n, b, q, Pow(b, k - 1), Pow(b, k));
    } else {
      assert Pow(b, 1) == b;
    }
  }

  lemma LengthStep(n: nat, b: nat, q: nat, lo: nat, hi: nat)
    requires b >= 2 && n >= b && q == n / b && n == q * b + n % b && n % b < b
    requires lo <= q < hi
    ensures lo * b <= n < hi * b
  {
    MulLe(lo, q, b);
    MulLe(q + 1, hi, b);
    assert (q + 1) * b == q * b + b;
  }

  lemma MulLe(x: nat, y: nat, b: nat)
    requires x <= y
    ensures x * b <= y * b
  {
    var d := y - x;
    assert y * b == x * b + d * b;
  }

  // ---------------------------------------------------------------- decoding

  predicate AllIn(charToVal: map<char, nat>, s: string) {
    forall k :: 0 <= k < |s| ==> s[k] in charToVal
  }

  /** The positional value of a string of alphabet characters. */
  function Value(charToVal: map<char, nat>, b: nat, s: string): nat
    requires AllIn(charToVal, s)
  {
    if s == [] then 0
    else
      var p := s[..|s| - 1];
      assert AllIn(charToVal, p) by {
        forall k | 0 <= k < |p| ensures p[k] in charToVal { assert p[k] == s[k]; }
      }
      Value(charToVal, b, p) * b + charToVal[s[|s| - 1]]
  }

  /** The decoding loop after its first `i` characters. */
  function DecodePrefix(charToVal: map<char, nat>, b: nat, s: string, i: nat): Result<nat, DecodeError>
    requires b >= 1 && i <= |s|
  {
    if i == 0 then Success(0)
    else match DecodePrefix(charToVal, b, s, i - 1)
      case Failure(e) => Failure(e)
      case Success(val) =>
        var ch := s[i - 1];
        if ch !in charToVal then Failure(InvalidCharacter(ch))
        else
          var digit := charToVal[ch];
          var limit := (MaxSafeInteger - digit) / b;
          if val > limit then Failure(ExceedsMaxSafeInteger) else Success(val * b + digit)
  }

  function DecodeSpec(charToVal: map<char, nat>, b: nat, s: string): Result<nat, DecodeError>
    requires b >= 1
  {
    if |s| == 0 then Failure(EmptyInput) else DecodePrefix(charToVal, b, s, |s|)
  }

  lemma {:induction false} FailurePersists(charToVal: map<char, nat>, b: nat, s: string, i: nat, j: nat)
    requires b >= 1 && i <= j <= |s| && DecodePrefix(charToVal, b, s, i).Failure?
    ensures DecodePrefix(charToVal, b, s, j) == DecodePrefix(charToVal, b, s, i)
    decreases j
  {
    if i < j {
      FailurePersists(charToVal, b, s, i, j - 1);
    }
  }

  /** After `i` alphabet characters the loop holds their value, or has failed with
      the overflow error once that value exceeds MAX. */
  lemma {:induction false} DecodePrefixValue(charToVal: map<char, nat>, b: nat, s: string, i: nat)
    requires b >= 1 && i <= |s| && AllIn(charToVal, s[..i])
    ensures DecodePrefix(charToVal, b, s, i) ==
      if Value(charToVal, b, s[..i]) <= MaxSafeInteger then Success(Value(charToVal, b, s[..i]))
      else Failure(ExceedsMaxSafeInteger)
  {
    if i > 0 {
      var p := s[..i - 1];
      assert s[..i][..i - 1] == p;
      assert AllIn(charToVal, p) by {
        forall k | 0 <= k < |p| ensures p[k] in charToVal { assert p[k] == s[..i][k]; }
      }
      DecodePrefixValue(charToVal, b, s, i - 1);
      var v := Value(charToVal, b, p);
      var d := charToVal[s[i - 1]];
      assert Value(charToVal, b, s[..i]) == v * b + d;
      GuardExact(v, d, b);
      MulGrows(v, b);
    }
  }

  /** A character outside the alphabet makes decoding fail. */
  lemma {:induction false} BadCharacterFails(charToVal: map<char, nat>, b: nat, s: string, k: nat)
    requires b >= 1 && k < |s| && s[k] !in charToVal
    ensures DecodePrefix(charToVal, b, s, |s|).Failure?
    decreases k
  {
    if AllIn(charToVal, s[..k]) {
      DecodePrefixValue(charToVal, b, s, k);
      assert DecodePrefix(charToVal, b, s, k + 1).Failure?;
      FailurePersists(charToVal, b, s, k + 1, |s|);
    } else {
      var j :| 0 <= j < k && s[..k][j] !in charToVal;
      BadCharacterFails(charToVal, b, s, j);
    }
  }

  /** The first character outside the alphabet is the one reported, unless the
      value before it already exceeds MAX. */
  lemma ReportsFirstBadCharacter(charToVal: map<char, nat>, b: nat, s: string, k: nat)
    requires b >= 1 && k < |s| && s[k] !in charToVal && AllIn(charToVal, s[..k])
    requires Value(charToVal, b, s[..k]) <= MaxSafeInteger
    ensures DecodeSpec(charToVal, b, s) == Failure(InvalidCharacter(s[k]))
  {
    DecodePrefixValue(charToVal, b, s, k);
    FailurePersists(charToVal, b, s, k + 1, |s|);
  }

  /** Decoding succeeds exactly on non-empty strings of alphabet characters whose
      value is at most MAX, and then returns that value. */
  lemma DecodeCharacterization(charToVal: map<char, nat>, b: nat, s: string)
    requires b >= 1
    ensures DecodeSpec(charToVal, b, s).Success? <==>
      s != [] && AllIn(charToVal, s) && Value(charToVal, b, s) <= MaxSafeInteger
    ensures DecodeSpec(charToVal, b, s).Success? ==>
      AllIn(charToVal, s) && DecodeSpec(charToVal, b, s).value == Value(charToVal, b, s)
    ensures s == [] ==> DecodeSpec(charToVal, b, s) == Failure(EmptyInput)
  {
    if s != [] {
      assert s[..|s|] == s;
      if AllIn(charToVal, s) {
        DecodePrefixValue(charToVal, b, s, |s|);
      } else {
        var k :| 0 <= k < |s| && s[k] !in charToVal;
        BadCharacterFails(charToVal, b, s, k);
      }
    }
  }

  /** The digits of `n` have positional value `n`. */
  lemma {:induction false} ValueOfEncode(alphabet: string, charToVal: map<char, nat>, n: nat)
    requires |alphabet| >= 2 && Inverts(alphabet, charToVal)
    ensures AllIn(charToVal, EncodeSpec(alphabet, n))
    ensures Value(charToVal, |alphabet|, EncodeSpec(alphabet, n)) == n
    decreases n
  {
    var b := |alphabet|;
    var e := EncodeSpec(alphabet, n);
    InvertsDistinct(alphabet, charToVal);
    EncodeShape(alphabet, n);
    DivStep(n, b);
    if n < b {
      assert e[..0] == [];
    } else {
      ValueOfEncode(alphabet, charToVal, n / b);
      assert e[..|e| - 1] == EncodeSpec(alphabet, n / b);
      assert charToVal[e[|e| - 1]] == n % b;
    }
  }

  /** Distinct numbers have distinct encodings. */
  lemma EncodeInjective(alphabet: string, n1: nat, n2: nat)
    requires |alphabet| >= 2 && Distinct(alphabet)
    requires EncodeSpec(alphabet, n1) == EncodeSpec(alphabet, n2)
    ensures n1 == n2
  {
    var m := InverseMap(alphabet);
    ValueOfEncode(alphabet, m, n1);
    ValueOfEncode(alphabet, m, n2);
  }

  /** The map the constructor builds. */
  function InverseMap(alphabet: string): (m: map<char, nat>)
    requires Distinct(alphabet)
    ensures Inverts(alphabet, m)
  {
    map i | 0 <= i < |alphabet| :: alphabet[i] := i
  }

  /** decode(encode(n)) == n for every n up to MAX; above MAX decoding reports the overflow. */
  lemma RoundTrip(alphabet: string, charToVal: map<char, nat>, n: nat)
    requires |alphabet| >= 2 && Inverts(alphabet, charToVal)
    ensures n <= MaxSafeInteger ==> DecodeSpec(charToVal, |alphabet|, EncodeSpec(alphabet, n)) == Success(n)
    ensures n > MaxSafeInteger ==>
      DecodeSpec(charToVal, |alphabet|, EncodeSpec(alphabet, n)) == Failure(ExceedsMaxSafeInteger)
  {
    var e := EncodeSpec(alphabet, n);
    ValueOfEncode(alphabet, charToVal, n);
    assert e[..|e|] == e;
    DecodePrefixValue(charToVal, |alphabet|, e, |e|);
  }

  // ---------------------------------------------------------------- the class

  class Base62 {
    const alphabet: string
    const base: nat
    /** Character to digit value. */
    const charToVal: map<char, nat>

    ghost predicate Valid() {
      |alphabet| >= 2 && base == |alphabet| && Inverts(alphabet, charToVal)
    }

    /** The constructor proper, once the alphabet has passed `CheckAlphabet`:
        its loop builds the inverse map. */
    constructor (alphabet: string)
      requires CheckAlphabet(alphabet) == None
      ensures Valid() && this.alphabet == alphabet
    {
      CharSetSizeIffDistinct(alphabet);
      var m: map<char, nat> := map[];
      for i := 0 to |alphabet|
        invariant forall c :: c in m <==> c in alphabet[..i]
        invariant forall k :: 0 <= k < i ==> m[alphabet[k]] == k
      {
        assert alphabet[..i + 1] == alphabet[..i] + [alphabet[i]];
        m := m[alphabet[i] := i];
      }
      assert alphabet[..|alphabet|] == alphabet;
      this.alphabet := alphabet;
      base := |alphabet|;
      charToVal := m;
    }

    /** `new Base62(alphabet)`: throws on a repeated character, then on fewer than two characters. */
    static method New(alphabet: string) returns (r: Result<Base62, AlphabetError>)
      ensures r.Failure? <==> CheckAlphabet(alphabet).Some?
      ensures r.Failure? ==> r.error == CheckAlphabet(alphabet).value
      ensures r.Success? ==> fresh(r.value) && r.value.Valid() && r.value.alphabet == alphabet
    {
      var check := CheckAlphabet(alphabet);
      if check.Some? {
        return Failure(check.value);
      }
      var codec := new Base62(alphabet);
      return Success(codec);
    }

    /** `encode10to62`: the loop collects digits least significant first, then reverses. */
    method Encode(num: int) returns (r: Result<string, EncodeError>)
      requires Valid()
      ensures num < 0 ==> r == Failure(NegativeInput)
      ensures num >= 0 ==> r == Success(EncodeSpec(alphabet, num))
    {
      if num < 0 {
        return Failure(NegativeInput);
      }
      if num == 0 {
        return Success([alphabet[0]]);
      }
      var n: nat := num;
      var out: string := [];
      while n > 0
        invariant n > 0 ==> EncodeSpec(alphabet, num) == EncodeSpec(alphabet, n) + Reversed(out)
        invariant n == 0 ==> EncodeSpec(alphabet, num) == Reversed(out)
        decreases n
      {
        DivStep(n, base);
        var remainder := n % base;
        ReversedAppend(out, alphabet[remainder]);
        out := out + [alphabet[remainder]];
        n := n / base;
      }
      return Success(Reversed(out));
    }

    /** `decode62to10`: the loop with its overflow guard. */
    method Decode(str: string) returns (r: Result<nat, DecodeError>)
      requires Valid()
      ensures r == DecodeSpec(charToVal, base, str)
    {
      if |str| == 0 {
        return Failure(EmptyInput);
      }
      var val: nat := 0;
      for i := 0 to |str|
        invariant DecodePrefix(charToVal, base, str, i) == Success(val)
      {
        var ch := str[i];
        if ch !in charToVal {
          FailurePersists(charToVal, base, str, i + 1, |str|);
          return Failure(InvalidCharacter(ch));
        }
        var digit := charToVal[ch];
        var limit := (MaxSafeInteger - digit) / base;
        if val > limit {
          FailurePersists(charToVal, base, str, i + 1, |str|);
          return Failure(ExceedsMaxSafeInteger);
        }
        assert DecodePrefix(charToVal, base, str, i + 1) == Success(val * base + digit);
        val := val * base + digit;
      }
      return Success(val);
    }
  }
}
