/** `_literal_value` reads every integer spelling of C back as the number it spells. */
module IntegerLiterals {
  import opened Wrappers
  import opened Formula

  function DigitChar(d: nat): char
    requires d < 16
  {
    "0123456789abcdef"[d]
  }

  lemma QuotientSmaller(n: nat, base: nat)
    requires 2 <= base <= n
    ensures n / base < n
  {
    DivMod(n, base);
    AtLeastDouble(n / base, base);
  }

  lemma AtLeastDouble(q: nat, base: nat)
    requires 2 <= base
    ensures 2 * q <= q * base
  {
    assert q * base == q * 2 + q * (base - 2);
  }

  /** The digits of `n`, most significant first; "0" for zero. */
  function Digits(base: nat, n: nat): (r: string)
    requires 2 <= base <= 16
    ensures r != []
  {
    if n < base then [DigitChar(n)]
    else
      QuotientSmaller(n, base);
      Digits(base, n / base) + [DigitChar(n % base)]
  }

  lemma DigitOfChar(d: nat)
    requires d < 16
    ensures DigitValue(DigitChar(d)) == d && !IsSuffixChar(DigitChar(d))
    ensures d < 10 ==> DigitChar(d) == "0123456789"[d]
  {
  }

  lemma ReadSnoc(base: nat, s: string, c: char)
    requires AllDigits(base, s) && DigitValue(c) < base
    ensures AllDigits(base, s + [c]) && Positional(base, s + [c]) == Positional(base, s) * base + DigitValue(c)
  {
    assert (s + [c])[..|s|] == s;
  }

  lemma ReadOne(base: nat, c: char)
    requires DigitValue(c) < base
    ensures AllDigits(base, [c]) && Positional(base, [c]) == DigitValue(c)
  {
    assert [c][..0] == [] && Positional(base, []) == 0;
  }

  lemma DivMod(n: nat, base: nat)
    requires base > 0
    ensures n == n / base * base + n % base
  {
  }

  /** Reading the digits gives the number back, in every base. */
  lemma {:induction false} PositionalOfDigits(base: nat, n: nat)
    requires 2 <= base <= 16
    ensures AllDigits(base, Digits(base, n)) && Positional(base, Digits(base, n)) == n
  {
    hide AllDigits, Positional;
    if n < base {
      DigitOfChar(n);
      ReadOne(base, DigitChar(n));
    } else {
      DigitOfChar(n % base);
      QuotientSmaller(n, base);
      PositionalOfDigits(base, n / base);
      ReadSnoc(base, Digits(base, n / base), DigitChar(n % base));
      DivMod(n, base);
    }
  }

  lemma {:induction false} DecimalDigits(n: nat)
    ensures forall i :: 0 <= i < |Digits(10, n)| ==> '0' <= Digits(10, n)[i] <= '9'
    ensures n > 0 ==> '1' <= Digits(10, n)[0] <= '9'
  {
    DigitOfChar(n % 10);
    if n < 10 {
      DigitOfChar(n);
    } else {
      DecimalDigits(n / 10);
    }
  }

  // ------------------------------------------------ spellings

  ghost predicate AllSuffix(s: string) {
    forall i :: 0 <= i < |s| ==> IsSuffixChar(s[i])
  }

  function Zeros(k: nat): string {
    if k == 0 then "" else "0" + Zeros(k - 1)
  }

  function LowerDigit(c: char): char {
    if 'A' <= c <= 'F' then (c - 'A') + 'a' else c
  }

  function Lower(s: string): (r: string)
    ensures |r| == |s|
  {
    seq(|s|, i requires 0 <= i < |s| => LowerDigit(s[i]))
  }

  /** The digits of `n` in upper or lower case, with any zeros in front. */
  ghost predicate SpelledIn(base: nat, digits: string, n: nat)
    requires 2 <= base <= 16
  {
    exists zeros: nat :: Lower(digits) == Zeros(zeros) + Digits(base, n)
  }

  /** A prefix and digits of its base; octal digits start with 0, decimal ones do not. */
  ghost predicate Spelled(prefix: string, digits: string, n: nat) {
    digits != [] && match prefix
      case "0x" => SpelledIn(16, digits, n)
      case "0X" => SpelledIn(16, digits, n)
      case "0b" => SpelledIn(2, digits, n)
      case "0B" => SpelledIn(2, digits, n)
      case "" => SpelledIn(if digits[0] == '0' then 8 else 10, digits, n)
      case _ => false
  }

  /** The C spellings of a number: a prefix, digits, and any run of u, U, l, L behind. */
  ghost predicate SpellsNumber(text: string, n: nat) {
    exists prefix, digits, suffix :: text == prefix + digits + suffix && AllSuffix(suffix) && Spelled(prefix, digits, n)
  }

  lemma LowerOfDigit(base: nat, c: char)
    requires base <= 16 && DigitValue(c) < base
    ensures LowerDigit(c) == DigitChar(DigitValue(c)) && !IsSuffixChar(c)
  {
  }

  lemma {:induction false} ZerosSnoc(k: nat)
    ensures Zeros(k + 1) == Zeros(k) + "0"
  {
    if k > 0 {
      ZerosSnoc(k - 1);
    }
  }

  lemma LowerSnoc(s: string, c: char)
    ensures Lower(s + [c]) == Lower(s) + [LowerDigit(c)]
  {
  }

  lemma DigitsSnoc(base: nat, m: nat, d: nat)
    requires 2 <= base <= 16 && d < base && m > 0
    ensures Digits(base, m * base + d) == Digits(base, m) + [DigitChar(d)]
  {
    AtLeast(m, base);
    Divided(base, m, d);
  }

  lemma AtLeast(m: nat, base: nat)
    requires m > 0
    ensures m * base >= base
  {
  }

  lemma Divided(base: nat, m: nat, d: nat)
    requires d < base
    ensures (m * base + d) / base == m && (m * base + d) % base == d
  {
    var n := m * base + d;
    DivMod(n, base);
    var q := n / base;
    if q < m {
      ProductStep(q, m, base);
    } else if q > m {
      ProductStep(m, q, base);
    }
  }

  lemma ProductStep(a: nat, b: nat, base: nat)
    requires a < b
    ensures (a + 1) * base <= b * base && (a + 1) * base == a * base + base
  {
  }

  /** Every run of digits spells the number it is read as. */
  lemma {:induction false} DigitsSpell(base: nat, digits: string)
    requires 2 <= base <= 16 && digits != [] && AllDigits(base, digits)
    ensures SpelledIn(base, digits, Positional(base, digits))
  {
    var init, c := digits[..|digits| - 1], digits[|digits| - 1];
    var d := DigitValue(c);
    assert digits == init + [c];
    LowerOfDigit(base, c);
    LowerSnoc(init, c);
    if init == [] {
      assert Lower(digits) == Zeros(0) + Digits(base, d);
      ReadOne(base, c);
    } else {
      DigitsSpell(base, init);
      SpellSnoc(base, init, d);
      assert Positional(base, digits) == Positional(base, init) * base + d;
      assert Lower(digits) == Lower(init) + [DigitChar(d)];
    }
  }

  lemma SmallDigits(base: nat, d: nat)
    requires 2 <= base <= 16 && d < base
    ensures Digits(base, d) == [DigitChar(d)]
  {
  }

  lemma SpellSnoc(base: nat, init: string, d: nat)
    requires 2 <= base <= 16 && d < base && SpelledIn(base, init, Positional(base, init))
    ensures exists zeros: nat :: Lower(init) + [DigitChar(d)] == Zeros(zeros) + Digits(base, Positional(base, init) * base + d)
  {
    hide Positional, Digits, Lower, Zeros;
    var m := Positional(base, init);
    var z: nat :| Lower(init) == Zeros(z) + Digits(base, m);
    if m > 0 {
      DigitsSnoc(base, m, d);
      assert Lower(init) + [DigitChar(d)] == Zeros(z) + Digits(base, m * base + d);
    } else {
      ZerosSnoc(z);
      SmallDigits(base, 0);
      SmallDigits(base, d);
      assert "0" == [DigitChar(0)];
      assert Lower(init) + [DigitChar(d)] == Zeros(z + 1) + Digits(base, d);
    }
  }

  lemma ValueOfLower(base: nat, c: char)
    requires base <= 16
    ensures DigitValue(LowerDigit(c)) == DigitValue(c)
  {
  }

  lemma {:induction false} LowerReads(base: nat, s: string)
    requires base <= 16
    ensures Positional(base, Lower(s)) == Positional(base, s)
    ensures AllDigits(base, Lower(s)) <==> AllDigits(base, s)
  {
    forall i | 0 <= i < |s| ensures DigitValue(Lower(s)[i]) == DigitValue(s[i]) {
      ValueOfLower(base, s[i]);
    }
    if s != [] {
      LowerReads(base, s[..|s| - 1]);
      assert Lower(s)[..|s| - 1] == Lower(s[..|s| - 1]);
    }
  }

  lemma {:induction false} ZeroInFront(base: nat, s: string)
    ensures Positional(base, "0" + s) == Positional(base, s)
  {
    if s == [] {
      assert ("0" + s)[..0] == [];
    } else {
      assert ("0" + s)[..|s|] == "0" + s[..|s| - 1];
      ZeroInFront(base, s[..|s| - 1]);
    }
  }

  lemma {:induction false} ZerosRead(base: nat, k: nat, s: string)
    requires 2 <= base && AllDigits(base, s)
    ensures Positional(base, Zeros(k) + s) == Positional(base, s) && AllDigits(base, Zeros(k) + s)
  {
    hide Positional;
    if k == 0 {
      assert Zeros(0) + s == s;
    } else {
      ZerosRead(base, k - 1, s);
      ZeroInFront(base, Zeros(k - 1) + s);
      assert DigitValue('0') < base;
      assert Zeros(k) + s == "0" + (Zeros(k - 1) + s);
    }
  }

  /** Every spelling is read as its number. */
  lemma SpellingRead(base: nat, digits: string, n: nat)
    requires 2 <= base <= 16 && SpelledIn(base, digits, n)
    ensures AllDigits(base, digits) && Positional(base, digits) == n
  {
    hide AllDigits, Positional, Lower;
    var z: nat :| Lower(digits) == Zeros(z) + Digits(base, n);
    PositionalOfDigits(base, n);
    ZerosRead(base, z, Digits(base, n));
    LowerReads(base, digits);
  }

  lemma {:induction false} StripSuffixOnly(body: string, suffix: string)
    requires body != [] && !IsSuffixChar(body[|body| - 1]) && AllSuffix(suffix)
    ensures StripSuffix(body + suffix) == body
  {
    if suffix == [] {
      assert body + suffix == body;
    } else {
      var s := suffix[..|suffix| - 1];
      assert (body + suffix)[..|body + suffix| - 1] == body + s;
      StripSuffixOnly(body, s);
    }
  }

  lemma {:induction false} SuffixStripped(text: string) returns (suffix: string)
    ensures text == StripSuffix(text) + suffix && AllSuffix(suffix)
  {
    suffix := "";
    if text != [] && IsSuffixChar(text[|text| - 1]) {
      suffix := SuffixStripped(text[..|text| - 1]);
      suffix := suffix + [text[|text| - 1]];
    }
  }

  lemma EndsInDigit(base: nat, s: string)
    requires base <= 16 && s != [] && AllDigits(base, s)
    ensures !IsSuffixChar(s[|s| - 1])
  {
    LowerOfDigit(base, s[|s| - 1]);
  }

  function BaseOf(prefix: string, digits: string): nat {
    if prefix in {"0x", "0X"} then 16 else if prefix in {"0b", "0B"} then 2
    else if digits != [] && digits[0] == '0' then 8 else 10
  }

  lemma PrefixedRead(prefix: string, digits: string, n: nat)
    requires prefix != "" && Spelled(prefix, digits, n) && AllDigits(BaseOf(prefix, digits), digits)
    requires Positional(BaseOf(prefix, digits), digits) == n
    ensures BodyValue(prefix + digits) == Some(n)
  {
    hide SpelledIn, Positional, AllDigits;
    assert (prefix + digits)[2..] == digits;
  }

  lemma PlainRead(digits: string, n: nat)
    requires digits != [] && AllDigits(BaseOf("", digits), digits) && Positional(BaseOf("", digits), digits) == n
    ensures BodyValue(digits) == Some(n)
  {
    hide Positional;
    assert |digits| > 1 ==> DigitValue(digits[1]) < 10;
  }

  /** The value of a text from its parts. */
  lemma PartsRead(prefix: string, digits: string, suffix: string, n: nat)
    requires AllSuffix(suffix) && Spelled(prefix, digits, n)
    ensures IntegerValue(prefix + digits + suffix) == Some(n)
  {
    hide SpelledIn, Positional, StripSuffix, AllDigits, BodyValue;
    var base := BaseOf(prefix, digits);
    SpellingRead(base, digits, n);
    EndsInDigit(base, digits);
    StripSuffixOnly(prefix + digits, suffix);
    if prefix == "" {
      assert prefix + digits == digits;
      PlainRead(digits, n);
    } else {
      PrefixedRead(prefix, digits, n);
    }
  }

  lemma BodySpelled(body: string, n: int) returns (prefix: string, digits: string)
    requires BodyValue(body) == Some(n)
    ensures n >= 0 && body == prefix + digits && Spelled(prefix, digits, n)
  {
    hide SpelledIn, Positional;
    prefix, digits := "", body;
    if |body| > 2 && body[1] in {'x', 'X', 'b', 'B'} {
      prefix, digits := body[..2], body[2..];
      assert prefix == ['0', body[1]];
    }
    DigitsSpell(BaseOf(prefix, digits), digits);
  }

  lemma TextSpelled(text: string)
    requires IntegerValue(text).Some?
    ensures IntegerValue(text).value >= 0 && SpellsNumber(text, IntegerValue(text).value)
  {
    hide Spelled, BodyValue, StripSuffix, AllSuffix;
    var suffix := SuffixStripped(text);
    var prefix, digits := BodySpelled(StripSuffix(text), IntegerValue(text).value);
  }

  /** `_literal_value` reads a text as `n` exactly if it is one of the spellings of `n`: hexadecimal, binary, octal or
      decimal, in either case, with leading zeros where the form has them, and any suffix. */
  lemma EverySpelling(text: string, n: nat)
    ensures IntegerValue(text) == Some(n) <==> SpellsNumber(text, n)
    ensures IntegerValue(text).Some? ==> IntegerValue(text).value >= 0
  {
    hide Spelled, IntegerValue, AllSuffix;
    if IntegerValue(text).Some? {
      TextSpelled(text);
    }
    if SpellsNumber(text, n) {
      var prefix, digits, suffix :| text == prefix + digits + suffix && AllSuffix(suffix) && Spelled(prefix, digits, n);
      PartsRead(prefix, digits, suffix, n);
    }
  }

  /** A number literal has a value exactly if its text spells one. */
  lemma HasValueIffSpelled(text: string)
    ensures LiteralValue(Number(text)).Some? <==> exists n: nat :: SpellsNumber(text, n)
  {
    hide SpellsNumber, IntegerValue;
    if IntegerValue(text).Some? {
      EverySpelling(text, 0);
      EverySpelling(text, IntegerValue(text).value);
    }
    forall n: nat | SpellsNumber(text, n) ensures IntegerValue(text).Some? {
      EverySpelling(text, n);
    }
  }

  /** `evaluate_formula` gives a number literal the value `n` exactly if its text spells `n` and `n` passes the magnitude
      test. */
  lemma NumberEvaluates(text: string, n: int, params: map<Index, Value>, constants: map<string, Value>)
    ensures Evaluate(Number(text), params, constants) == Some(Int(n)) <==> 0 <= n <= MAGNITUDE && SpellsNumber(text, n)
    ensures Evaluate(Number(text), params, constants).Some? ==> Evaluate(Number(text), params, constants).value.Int?
  {
    hide SpellsNumber, IntegerValue;
    EverySpelling(text, if n < 0 then 0 else n);
  }
}
