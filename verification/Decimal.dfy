/** strconv.FormatInt and strconv.ParseInt in base 10 at width 64, and how far they undo each other. */
module Decimal {
  import opened Panel

  const MAX_UINT64: nat := 0xFFFF_FFFF_FFFF_FFFF
  const CUTOFF: nat := 0x8000_0000_0000_0000

  predicate IsDigit(c: char) {
    '0' <= c <= '9'
  }

  function DigitValue(c: char): nat
    requires IsDigit(c)
  {
    c as int - '0' as int
  }

  function DigitChar(d: nat): (c: char)
    requires d < 10
    ensures IsDigit(c) && DigitValue(c) == d
  {
    (d + '0' as int) as char
  }

  function Digits(n: nat): (s: string)
    ensures |s| >= 1
    ensures forall i | 0 <= i < |s| :: IsDigit(s[i])
  {
    if n < 10 then [DigitChar(n)] else Digits(n / 10) + [DigitChar(n % 10)]
  }

  /** The absolute value, which the most negative int64 has only outside the type. */
  function Magnitude(n: Int64): nat {
    var m: int := n;
    if m < 0 then -m else m
  }

  function FormatInt(n: Int64): string {
    if n < 0 then "-" + Digits(Magnitude(n)) else Digits(n)
  }

  /** The error of a parse; a range error comes with the nearest representable value. */
  datatype NumError = NoError | Syntax | Range

  datatype Unsigned = Unsigned(value: nat, error: NumError)
  datatype Parsed = Parsed(value: Int64, error: NumError)

  /** The digit loop of strconv.ParseUint, with `n` read so far. */
  function ParseDigits(s: string, n: nat): Unsigned {
    if s == [] then Unsigned(n, NoError)
    else if !IsDigit(s[0]) then Unsigned(0, Syntax)
    else if n * 10 + DigitValue(s[0]) > MAX_UINT64 then Unsigned(MAX_UINT64, Range)
    else ParseDigits(s[1..], n * 10 + DigitValue(s[0]))
  }

  function ParseUint(s: string): Unsigned {
    if s == [] then Unsigned(0, Syntax) else ParseDigits(s, 0)
  }

  function ParseInt(s: string): Parsed {
    if s == [] then Parsed(0, Syntax)
    else
      var neg := s[0] == '-';
      var u := ParseUint(if s[0] == '+' || s[0] == '-' then s[1..] else s);
      if u.error == Syntax then Parsed(0, Syntax)
      else if !neg && u.value >= CUTOFF then Parsed(CUTOFF - 1, Range)
      else if neg && u.value > CUTOFF then Parsed(0 - CUTOFF, Range)
      else Parsed(if neg then 0 - u.value else u.value, NoError)
  }

  lemma {:induction false} ParseDigitsAppend(a: string, b: string, n: nat)
    requires ParseDigits(a, n).error == NoError
    ensures ParseDigits(a + b, n) == ParseDigits(b, ParseDigits(a, n).value)
  {
    if a == [] {
      assert a + b == b;
    } else {
      assert (a + b)[1..] == a[1..] + b;
      ParseDigitsAppend(a[1..], b, n * 10 + DigitValue(a[0]));
    }
  }

  lemma {:induction false} ParsePrintedDigits(n: nat)
    requires n <= MAX_UINT64
    ensures ParseDigits(Digits(n), 0) == Unsigned(n, NoError)
  {
    if n < 10 {
      assert Digits(n)[1..] == [];
    } else {
      ParsePrintedDigits(n / 10);
      ParseDigitsAppend(Digits(n / 10), [DigitChar(n % 10)], 0);
      assert [DigitChar(n % 10)][1..] == [];
    }
  }

  /** Printing then parsing gives the number back, for every int64, the most negative one included. */
  lemma {:induction false} ParseFormat(n: Int64)
    ensures ParseInt(FormatInt(n)) == Parsed(n, NoError)
  {
    if n < 0 {
      ParsePrintedDigits(Magnitude(n));
      assert FormatInt(n)[1..] == Digits(Magnitude(n));
    } else {
      ParsePrintedDigits(n);
    }
  }

  /** Distinct identifiers are printed differently, so they never share a key of a snapshot. */
  lemma {:induction false} FormatInjective(a: Int64, b: Int64)
    ensures FormatInt(a) == FormatInt(b) <==> a == b
  {
    ParseFormat(a);
    ParseFormat(b);
  }

  /** The spelling FormatInt uses: no plus sign, no leading zero, no minus zero. */
  predicate Canonical(s: string) {
    || s == "0"
    || (s != [] && IsDigit(s[0]) && s[0] != '0')
    || (|s| > 1 && s[0] == '-' && s[1] != '0')
  }

  lemma {:induction false} FirstDigit(n: nat)
    ensures n > 0 ==> Digits(n)[0] != '0'
  {
    if n >= 10 {
      FirstDigit(n / 10);
    }
  }

  /** A failed digit parse never yields an in-range value with no error. */
  lemma {:induction false} RangeIsTooBig(s: string, n: nat)
    ensures ParseDigits(s, n).error == Range ==> ParseDigits(s, n).value == MAX_UINT64
  {
    if s != [] && IsDigit(s[0]) && n * 10 + DigitValue(s[0]) <= MAX_UINT64 {
      RangeIsTooBig(s[1..], n * 10 + DigitValue(s[0]));
    }
  }

  /** What a successful digit parse read, from the last digit back. */
  lemma {:induction false} ParseDigitsInit(s: string, n: nat)
    requires s != [] && ParseDigits(s, n).error == NoError
    ensures ParseDigits(s[..|s| - 1], n).error == NoError && IsDigit(s[|s| - 1])
    ensures ParseDigits(s, n).value == ParseDigits(s[..|s| - 1], n).value * 10 + DigitValue(s[|s| - 1])
  {
    if |s| > 1 {
      ParseDigitsInit(s[1..], n * 10 + DigitValue(s[0]));
      assert s[1..][..|s| - 2] == s[..|s| - 1][1..];
    } else {
      assert s[1..] == [];
    }
  }

  lemma {:induction false} PrintParsedDigits(s: string)
    requires s != [] && ParseDigits(s, 0).error == NoError && s[0] != '0'
    ensures ParseDigits(s, 0).value > 0 && Digits(ParseDigits(s, 0).value) == s
  {
    ParseDigitsInit(s, 0);
    var init := s[..|s| - 1];
    assert s == init + [s[|s| - 1]];
    if init != [] {
      PrintParsedDigits(init);
    }
  }

  /** Parsing then printing gives the text back exactly for the canonical spelling. */
  lemma {:induction false} FormatParse(s: string)
    requires ParseInt(s).error == NoError
    ensures FormatInt(ParseInt(s).value) == s <==> Canonical(s)
  {
    var n := ParseInt(s).value;
    FirstDigit(Magnitude(n));
    RangeIsTooBig(if s[0] == '+' || s[0] == '-' then s[1..] else s, 0);
    assert n != 0 ==> Canonical(FormatInt(n));
    if s == "0" {
      assert s[1..] == [] && ParseDigits(s[1..], 0) == Unsigned(0, NoError);
      assert ParseDigits(s, 0) == Unsigned(0, NoError);
      assert Digits(0) == [DigitChar(0)] == s;
    } else if Canonical(s) {
      if s[0] == '-' {
        PrintParsedDigits(s[1..]);
        assert s == "-" + s[1..];
      } else {
        PrintParsedDigits(s);
      }
    }
  }

  const DIGITS := "0123456789"

  lemma DigitsAreDecimal(c: char)
    ensures IsDigit(c) <==> c in DIGITS
    ensures forall k | 0 <= k < 10 && DIGITS[k] == c :: IsDigit(c) && DigitValue(c) == k
  {
    if IsDigit(c) {
      assert DIGITS[DigitValue(c)] == c;
    }
  }

  /** The place of a digit among the ten. */
  ghost function Place(c: char): nat
    requires c in DIGITS
  {
    var k :| 0 <= k < 10 && DIGITS[k] == c; k
  }

  predicate AllDigits(s: string) {
    forall c | c in s :: c in DIGITS
  }

  /** The number a row of digits stands for in base ten. */
  ghost function Positional(s: string): nat
    requires AllDigits(s)
  {
    if s == "" then 0
    else
      assert s[|s| - 1] in s && forall c | c in s[..|s| - 1] :: c in s;
      10 * Positional(s[..|s| - 1]) + Place(s[|s| - 1])
  }

  function WithoutSign(s: string): string {
    if s != "" && s[0] in "+-" then s[1..] else s
  }

  /** A numeral: at least one digit, and at most one sign, in front. */
  predicate IsNumeral(s: string) {
    WithoutSign(s) != "" && AllDigits(WithoutSign(s))
  }

  ghost function NumeralValue(s: string): int
    requires IsNumeral(s)
  {
    if s[0] == '-' then 0 - Positional(WithoutSign(s)) else Positional(WithoutSign(s))
  }

  lemma {:induction false} ParsedAreDigits(s: string, n: nat)
    requires ParseDigits(s, n).error == NoError
    ensures AllDigits(s)
  {
    if s != "" {
      DigitsAreDecimal(s[0]);
      ParsedAreDigits(s[1..], n * 10 + DigitValue(s[0]));
      assert forall c | c in s :: c == s[0] || c in s[1..];
    }
  }

  lemma {:induction false} RangeStays(a: string, b: string, n: nat)
    requires ParseDigits(a, n).error == Range
    ensures ParseDigits(a + b, n).error == Range
  {
    if n * 10 + DigitValue(a[0]) <= MAX_UINT64 {
      assert (a + b)[1..] == a[1..] + b;
      RangeStays(a[1..], b, n * 10 + DigitValue(a[0]));
    }
  }

  /** Digits are read as the number they stand for, unless that is out of range. */
  lemma {:induction false} ParseDigitsIs(s: string)
    requires AllDigits(s)
    ensures ParseDigits(s, 0) == if Positional(s) <= MAX_UINT64 then Unsigned(Positional(s), NoError) else Unsigned(MAX_UINT64, Range)
  {
    if s != "" {
      var init, c := s[..|s| - 1], s[|s| - 1];
      assert c in s && forall d | d in init :: d in s;
      ParseDigitsIs(init);
      DigitsAreDecimal(c);
      assert s == init + [c] && [c][1..] == "";
      if Positional(init) <= MAX_UINT64 {
        ParseDigitsAppend(init, [c], 0);
      } else {
        RangeStays(init, [c], 0);
        RangeIsTooBig(s, 0);
      }
    }
  }

  /** A text is parsed exactly if it is a numeral of a representable number, and then as that number. */
  lemma ParseIntIff(s: string)
    ensures ParseInt(s).error == NoError <==> IsNumeral(s) && -0x8000_0000_0000_0000 <= NumeralValue(s) < 0x8000_0000_0000_0000
    ensures ParseInt(s).error == NoError ==> ParseInt(s).value == NumeralValue(s)
  {
    var digits := WithoutSign(s);
    if s != "" {
      RangeIsTooBig(digits, 0);
      if AllDigits(digits) {
        ParseDigitsIs(digits);
      } else if ParseDigits(digits, 0).error == NoError {
        ParsedAreDigits(digits, 0);
      }
    }
  }
}
