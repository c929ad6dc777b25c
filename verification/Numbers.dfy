/** Integers as protocol text: printing with "%d" and "%lu", reading with strtol in base 0. */
module Numbers {
  import opened Common

  const INT_LIMIT: int := 0x8000_0000
  const LONG_LIMIT: int := 0x8000_0000_0000_0000

  predicate IsInt(i: int) { -INT_LIMIT <= i < INT_LIMIT }

  function Digit(d: nat): char
    requires d < 10
  {
    '0' + d as char
  }

  function Decimal(n: nat): (s: string)
    ensures s != ""
  {
    if n < 10 then [Digit(n)] else Decimal(n / 10) + [Digit(n % 10)]
  }

  function FormatInt(i: int): string {
    if i < 0 then "-" + Decimal(-i) else Decimal(i)
  }

  /** The value of c as a digit in the base, if it is one. */
  function DigitValue(c: char, base: nat): Option<nat> {
    var d := if '0' <= c <= '9' then c as int - '0' as int
             else if 'a' <= c <= 'z' then c as int - 'a' as int + 10
             else if 'A' <= c <= 'Z' then c as int - 'A' as int + 10
             else base;
    if d < base then Some(d) else None
  }

  /** Read digits as long as there are any: the value and the rest of the text. */
  function ReadDigits(s: string, base: nat, acc: nat): (nat, string) {
    if s == "" || DigitValue(s[0], base).None? then (acc, s)
    else ReadDigits(s[1..], base, acc * base + DigitValue(s[0], base).value)
  }

  predicate IsSpace(c: char) { c == ' ' || 9 <= c as int <= 13 }

  function SkipSpace(s: string): string {
    if s != "" && IsSpace(s[0]) then SkipSpace(s[1..]) else s
  }

  /** The base that the prefix of a number selects, and the digits after the prefix. */
  function BasePrefix(s: string): (nat, string) {
    if |s| >= 3 && s[0] == '0' && (s[1] == 'x' || s[1] == 'X') && DigitValue(s[2], 16).Some? then (16, s[2..])
    else if s != "" && s[0] == '0' then (8, s)
    else (10, s)
  }

  /** strtol with base 0: the value, clamped to a long, and the unparsed rest. */
  function Strtol(s: string): (int, string) {
    var t := SkipSpace(s);
    var negative := t != "" && t[0] == '-';
    var u := if t != "" && (t[0] == '-' || t[0] == '+') then t[1..] else t;
    var (base, digits) := BasePrefix(u);
    if digits == "" || DigitValue(digits[0], base).None? then (0, s)
    else
      var (n, rest) := ReadDigits(digits, base, 0);
      var v: int := if negative then 0 - n else n;
      (if v < -LONG_LIMIT then -LONG_LIMIT else if v >= LONG_LIMIT then LONG_LIMIT - 1 else v, rest)
  }

  /** Truncation of a long to an int. */
  function ToInt(v: int): int {
    var low := v % (2 * INT_LIMIT);
    if low < INT_LIMIT then low else low - 2 * INT_LIMIT
  }

  datatype Parsed = Number(value: int) | NonNumeric | ParseError

  function StringToInt(s: string): Parsed {
    var (v, rest) := Strtol(s);
    if s == "" || v == -LONG_LIMIT || v == LONG_LIMIT - 1 then ParseError
    else if rest != "" then NonNumeric
    else Number(ToInt(v))
  }

  // ----- what is printed is read back -----

  lemma {:induction false} ReadAppend(s: string, d: nat, acc: nat, n: nat)
    requires d < 10 && ReadDigits(s, 10, acc) == (n, "")
    ensures ReadDigits(s + [Digit(d)], 10, acc) == (n * 10 + d, "")
    decreases |s|
  {
    var t := s + [Digit(d)];
    if s == "" {
      assert t[1..] == "" && t == [Digit(d)];
    } else {
      assert t[1..] == s[1..] + [Digit(d)] && t[0] == s[0];
      ReadAppend(s[1..], d, acc * 10 + DigitValue(s[0], 10).value, n);
    }
  }

  lemma {:induction false} ReadDecimal(n: nat)
    ensures ReadDigits(Decimal(n), 10, 0) == (n, "")
  {
    if n < 10 {
      ReadAppend("", n, 0, 0);
      assert "" + [Digit(n)] == [Digit(n)];
    } else {
      ReadDecimal(n / 10);
      ReadAppend(Decimal(n / 10), n % 10, 0, n / 10);
    }
  }

  /** A printed number starts with a digit, and with a zero only if it is zero. */
  lemma {:induction false} DecimalHead(n: nat)
    ensures '0' <= Decimal(n)[0] <= '9' && (Decimal(n)[0] == '0' ==> n == 0)
  {
    if n >= 10 { DecimalHead(n / 10); }
  }

  lemma {:induction false} StrtolFormat(i: int)
    requires -LONG_LIMIT <= i < LONG_LIMIT
    ensures Strtol(FormatInt(i)) == (i, "") && FormatInt(i) != ""
  {
    var n := if i < 0 then -i else i;
    var d := Decimal(n);
    DecimalHead(n);
    ReadDecimal(n);
    assert ("-" + d)[1..] == d;
    if n == 0 {
      assert d == ['0'] && d[1..] == "";
      assert ReadDigits(d, 8, 0) == ReadDigits(d[1..], 8, 0) == (0, "");
    }
  }

  lemma ToIntExact(v: int)
    ensures ToInt(v) == v <==> IsInt(v)
  {
  }

  /** Every int survives printing and reading. */
  lemma {:induction false} IntRoundTrip(i: int)
    requires IsInt(i)
    ensures StringToInt(FormatInt(i)) == Number(i)
  {
    StrtolFormat(i);
    ToIntExact(i);
  }

  /** A non-negative time survives exactly when it fits an int. */
  lemma {:induction false} TimeRoundTrip(t: nat)
    requires t < LONG_LIMIT - 1
    ensures StringToInt(Decimal(t)) == Number(t) <==> t < INT_LIMIT
  {
    StrtolFormat(t);
    ToIntExact(t);
  }

  /** strtol with base 10, whose unparsed rest is ignored. */
  function StrtolDecimal(s: string): int {
    var t := SkipSpace(s);
    var negative := t != "" && t[0] == '-';
    var u := if t != "" && (t[0] == '-' || t[0] == '+') then t[1..] else t;
    var n := ReadDigits(u, 10, 0).0;
    var v: int := if negative then 0 - n else n;
    if v < -LONG_LIMIT then -LONG_LIMIT else if v >= LONG_LIMIT then LONG_LIMIT - 1 else v
  }

  /** An int survives being printed and read back in decimal. */
  lemma {:induction false} DecimalIntRoundTrip(i: int)
    requires IsInt(i)
    ensures ToInt(StrtolDecimal(FormatInt(i))) == i
  {
    var n: nat := if i < 0 then -i else i;
    ReadDecimal(n);
    DecimalHead(n);
    if i < 0 { assert FormatInt(i)[1..] == Decimal(n); }
    ToIntExact(i);
  }

  /** Truncation keeps the lower half of the bits. */
  lemma ToIntWraps(v: int)
    ensures IsInt(ToInt(v)) && (ToInt(v) - v) % (2 * INT_LIMIT) == 0
  {
  }

  lemma FormatExamples()
    ensures FormatInt(43200) == "43200" && FormatInt(-7) == "-7" && FormatInt(0) == "0"
  {
    assert Decimal(4) == "4" && Decimal(43) == "43" && Decimal(432) == "432" && Decimal(4320) == "4320";
  }

  // ----- every way to write a number -----

  /** The digit of value d, in lower case. */
  function BaseDigit(d: nat): char
    requires d < 16
  {
    if d < 10 then '0' + d as char else 'a' + (d - 10) as char
  }

  predicate IsBase(base: nat) { base == 8 || base == 10 || base == 16 }

  function InBase(n: nat, base: nat): (s: string)
    requires IsBase(base)
    ensures s != ""
  {
    if n < base then [BaseDigit(n)] else InBase(n / base, base) + [BaseDigit(n % base)]
  }

  /** Text at which digits end. */
  predicate Stops(rest: string, base: nat) { rest == "" || DigitValue(rest[0], base).None? }

  lemma DigitOfValue(d: nat, base: nat)
    requires d < base <= 16
    ensures DigitValue(BaseDigit(d), base) == Some(d)
  {
  }

  /** Letters are digits in either case. */
  lemma DigitOfEither(d: nat, base: nat)
    requires 10 <= d < base <= 16
    ensures DigitValue('A' + (d - 10) as char, base) == Some(d)
  {
  }

  lemma {:induction false} ReadAhead(s: string, base: nat, acc: nat, n: nat, rest: string)
    requires ReadDigits(s, base, acc) == (n, "")
    ensures ReadDigits(s + rest, base, acc) == ReadDigits(rest, base, n)
    decreases |s|
  {
    if s == "" {
      assert s + rest == rest;
    } else {
      assert (s + rest)[1..] == s[1..] + rest && (s + rest)[0] == s[0];
      ReadAhead(s[1..], base, acc * base + DigitValue(s[0], base).value, n, rest);
    }
  }

  lemma {:induction false} ReadOne(d: nat, base: nat, acc: nat)
    requires d < base <= 16
    ensures ReadDigits([BaseDigit(d)], base, acc) == (acc * base + d, "")
  {
    DigitOfValue(d, base);
    assert [BaseDigit(d)][1..] == "";
  }

  lemma DivMod(n: nat, base: nat)
    requires IsBase(base)
    ensures n / base * base + n % base == n
  {
    if base == 8 {
    } else if base == 10 {
    }
  }

  lemma {:induction false} ReadInBase(n: nat, base: nat)
    requires IsBase(base)
    ensures ReadDigits(InBase(n, base), base, 0) == (n, "")
  {
    if n < base {
      ReadOne(n, base, 0);
    } else {
      DivMod(n, base);
      ReadInBase(n / base, base);
      ReadAhead(InBase(n / base, base), base, 0, n / base, [BaseDigit(n % base)]);
      ReadOne(n % base, base, n / base);
    }
  }

  lemma {:induction false} ReadUpTo(n: nat, base: nat, rest: string)
    requires IsBase(base) && Stops(rest, base)
    ensures ReadDigits(InBase(n, base) + rest, base, 0) == (n, rest)
  {
    ReadInBase(n, base);
    ReadAhead(InBase(n, base), base, 0, n, rest);
  }

  lemma {:induction false} HeadInBase(n: nat, base: nat)
    requires IsBase(base)
    ensures DigitValue(InBase(n, base)[0], base).Some?
    ensures InBase(n, base)[0] == '0' ==> n == 0
  {
    if n < base { DigitOfValue(n, base); } else { HeadInBase(n / base, base); }
  }

  /** A number as a C program writes it: in decimal, in octal behind a zero, in hexadecimal. */
  datatype Radix = Ten | Eight | Sixteen

  function Base(x: Radix): nat { match x case Ten => 10 case Eight => 8 case Sixteen => 16 }

  function Literal(x: Radix, n: nat): string {
    match x
    case Ten => InBase(n, 10)
    case Eight => "0" + InBase(n, 8)
    case Sixteen => "0x" + InBase(n, 16)
  }

  /** Text that cannot be taken for more of the number. */
  predicate Ends(x: Radix, rest: string) {
    Stops(rest, Base(x)) && (x == Ten && rest != "" ==> rest[0] != 'x' && rest[0] != 'X')
  }

  lemma {:induction false} PrefixDecimal(n: nat, rest: string)
    requires Ends(Ten, rest)
    ensures var (base, digits) := BasePrefix(InBase(n, 10) + rest);
      digits != "" && DigitValue(digits[0], base).Some? && ReadDigits(digits, base, 0) == (n, rest)
  {
    HeadInBase(n, 10);
    if n == 0 {
      assert InBase(0, 8) == ['0'] == InBase(0, 10);
      ReadUpTo(0, 8, rest);
      assert (['0'] + rest)[1..] == rest;
    } else {
      ReadUpTo(n, 10, rest);
      assert (InBase(n, 10) + rest)[0] == InBase(n, 10)[0];
    }
  }

  lemma {:induction false} PrefixOctal(n: nat, rest: string)
    requires Ends(Eight, rest)
    ensures var (base, digits) := BasePrefix("0" + InBase(n, 8) + rest);
      digits != "" && DigitValue(digits[0], base).Some? && ReadDigits(digits, base, 0) == (n, rest)
  {
    var t := InBase(n, 8) + rest;
    var s := "0" + InBase(n, 8) + rest;
    HeadInBase(n, 8);
    ReadUpTo(n, 8, rest);
    assert s[1..] == t && s[0] == '0' && s[1] == InBase(n, 8)[0];
    assert ReadDigits(s, 8, 0) == ReadDigits(t, 8, 0);
  }

  lemma {:induction false} PrefixHex(n: nat, rest: string)
    requires Ends(Sixteen, rest)
    ensures var (base, digits) := BasePrefix("0x" + InBase(n, 16) + rest);
      digits != "" && DigitValue(digits[0], base).Some? && ReadDigits(digits, base, 0) == (n, rest)
  {
    var s := "0x" + InBase(n, 16) + rest;
    HeadInBase(n, 16);
    ReadUpTo(n, 16, rest);
    assert s[2..] == InBase(n, 16) + rest && s[2] == InBase(n, 16)[0];
  }

  lemma {:induction false} PrefixLiteral(x: Radix, n: nat, rest: string)
    requires Ends(x, rest)
    ensures var (base, digits) := BasePrefix(Literal(x, n) + rest);
      digits != "" && DigitValue(digits[0], base).Some? && ReadDigits(digits, base, 0) == (n, rest)
  {
    match x
    case Ten => PrefixDecimal(n, rest);
    case Eight => PrefixOctal(n, rest);
    case Sixteen => PrefixHex(n, rest);
  }

  predicate Blank(s: string) {
    forall i :: 0 <= i < |s| ==> s[i] == ' ' || s[i] == '\t' || s[i] == '\n' || s[i] == '\r'
  }

  lemma {:induction false} SkipBlank(blank: string, s: string)
    requires Blank(blank) && (s == "" || !IsSpace(s[0]))
    ensures SkipSpace(blank + s) == s
  {
    if blank == "" {
      assert blank + s == s;
    } else {
      assert (blank + s)[1..] == blank[1..] + s && (blank + s)[0] == blank[0];
      SkipBlank(blank[1..], s);
    }
  }

  datatype Sign = Plus | Minus | Unsigned

  function SignText(g: Sign): string { match g case Plus => "+" case Minus => "-" case Unsigned => "" }

  lemma {:induction false} LiteralHead(x: Radix, n: nat)
    ensures Literal(x, n) != "" && '0' <= Literal(x, n)[0] <= '9'
  {
    if x == Ten { HeadInBase(n, 10); }
  }

  lemma {:induction false} SignedLiteral(g: Sign, x: Radix, n: nat, rest: string)
    requires Ends(x, rest)
    ensures var t := SignText(g) + Literal(x, n) + rest;
      && t != "" && !IsSpace(t[0]) && (t[0] == '-' <==> g == Minus)
      && (if t[0] == '-' || t[0] == '+' then t[1..] else t) == Literal(x, n) + rest
  {
    LiteralHead(x, n);
    var t := SignText(g) + Literal(x, n) + rest;
    if g == Unsigned {
      assert t == Literal(x, n) + rest;
    } else {
      assert t[1..] == Literal(x, n) + rest;
    }
  }

  /** strtol finds the number, its sign, its base and where it ends. */
  lemma {:induction false} StrtolLiteral(blank: string, g: Sign, x: Radix, n: nat, rest: string)
    requires Blank(blank) && Ends(x, rest)
    ensures var v := if g == Minus then 0 - n else n;
      Strtol(blank + (SignText(g) + Literal(x, n) + rest))
      == (if v < -LONG_LIMIT then -LONG_LIMIT else if v >= LONG_LIMIT then LONG_LIMIT - 1 else v, rest)
  {
    var t := SignText(g) + Literal(x, n) + rest;
    SignedLiteral(g, x, n, rest);
    SkipBlank(blank, t);
    PrefixLiteral(x, n, rest);
  }

  /** Blanks, a sign, a number in any of the three bases, and what follows it: the number is read
      as an int, unless it does not fit a long or something follows. */
  lemma {:induction false} NumberExact(blank: string, g: Sign, x: Radix, n: nat, rest: string)
    requires Blank(blank) && Ends(x, rest)
    ensures var v := if g == Minus then 0 - n else n;
      StringToInt(blank + (SignText(g) + Literal(x, n) + rest))
      == (if v <= -LONG_LIMIT || v >= LONG_LIMIT - 1 then ParseError
          else if rest != "" then NonNumeric else Number(ToInt(v)))
  {
    StrtolLiteral(blank, g, x, n, rest);
    LiteralHead(x, n);
  }

  /** Text with no number in front is not one; without any text there is nothing to read. */
  lemma {:induction false} NoNumber(s: string)
    requires s == "" || (!IsSpace(s[0]) && s[0] !in "+-" && !('0' <= s[0] <= '9'))
    ensures StringToInt(s) == if s == "" then ParseError else NonNumeric
  {
  }

  lemma {:induction false} DecimalInBase(n: nat)
    ensures Decimal(n) == InBase(n, 10)
  {
    if n >= 10 { DecimalInBase(n / 10); }
  }

  /** A number beyond a long is an error. */
  lemma {:induction false} HugeNumber(n: nat)
    requires n >= LONG_LIMIT - 1
    ensures StringToInt(Decimal(n)) == ParseError
  {
    DecimalInBase(n);
    NumberExact("", Unsigned, Ten, n, "");
    assert "" + ("" + InBase(n, 10) + "") == InBase(n, 10);
  }
}
