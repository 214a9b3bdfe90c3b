/**
 Decimal and hexadecimal text as Rust prints and parses it: `u32::to_string`,
 `str::parse::<u32>` and `u32::from_str_radix(_, 16)`.
 */
module DecimalText {
  import opened Wrappers

  const U32_LIMIT: nat := 0x1_0000_0000

  predicate IsDigit(c: char) {
    '0' <= c <= '9'
  }

  predicate AllDigits(s: string) {
    forall i :: 0 <= i < |s| ==> IsDigit(s[i])
  }

  function DigitValue(c: char): nat
    requires IsDigit(c)
  {
    c as int - '0' as int
  }

  function DigitChar(d: nat): (c: char)
    requires d < 10
    ensures IsDigit(c) && DigitValue(c) == d
  {
    (d + '0' as int) as char
  }

  function ToDecimal(n: nat): (s: string)
    ensures s != "" && AllDigits(s)
    ensures s[0] == '0' ==> n == 0 && s == "0"
  {
    if n < 10 then [DigitChar(n)] else ToDecimal(n / 10) + [DigitChar(n % 10)]
  }

  function DecimalValue(s: string): nat
    requires AllDigits(s)
  {
    if s == "" then 0
    else DecimalValue(s[..|s| - 1]) * 10 + DigitValue(s[|s| - 1])
  }

  lemma {:induction false} PrintedValue(n: nat)
    ensures DecimalValue(ToDecimal(n)) == n
  {
    if n >= 10 {
      PrintedValue(n / 10);
      var s := ToDecimal(n);
      assert s[..|s| - 1] == ToDecimal(n / 10);
    }
  }

  lemma {:induction false} ValueIsPositive(s: string)
    requires AllDigits(s) && s != "" && s[0] != '0'
    ensures DecimalValue(s) > 0
  {
    if |s| > 1 {
      ValueIsPositive(s[..|s| - 1]);
    }
  }

  /** The texts that printing produces are those without a leading zero, and printing inverts parsing on them. */
  lemma {:induction false} CanonicalTextIsPrinted(s: string)
    requires AllDigits(s) && s != ""
    ensures ToDecimal(DecimalValue(s)) == s <==> (s[0] != '0' || s == "0")
  {
    if s[0] == '0' {
      if |s| == 1 {
        assert s == "0";
      }
    } else if |s| == 1 {
      assert s[..0] == "";
      assert ToDecimal(DigitValue(s[0])) == [s[0]];
    } else {
      var init := s[..|s| - 1];
      CanonicalTextIsPrinted(init);
      ValueIsPositive(init);
      var value, digit := DecimalValue(init), DigitValue(s[|s| - 1]);
      assert DecimalValue(s) == value * 10 + digit;
      assert (value * 10 + digit) / 10 == value && (value * 10 + digit) % 10 == digit;
      assert DigitChar(digit) == s[|s| - 1];
    }
  }

  /** The digits a Rust unsigned parser reads: it accepts one leading plus sign and nothing else around them. */
  function WithoutPlus(s: string): string {
    if s != "" && s[0] == '+' then s[1..] else s
  }

  function ParseU32(s: string): (r: Option<nat>)
    ensures r.Some? ==> r.value < U32_LIMIT
  {
    var digits := WithoutPlus(s);
    if digits == "" || !AllDigits(digits) || DecimalValue(digits) >= U32_LIMIT then None
    else Some(DecimalValue(digits))
  }

  /** `value.parse::<u32>().ok().map(to_string) == Some(value)`. */
  predicate IsCanonicalU32(s: string) {
    ParseU32(s).Some? && ToDecimal(ParseU32(s).value) == s
  }

  lemma PrintedU32IsCanonical(n: nat)
    requires n < U32_LIMIT
    ensures ParseU32(ToDecimal(n)) == Some(n) && IsCanonicalU32(ToDecimal(n))
  {
    PrintedValue(n);
    assert WithoutPlus(ToDecimal(n)) == ToDecimal(n);
  }

  predicate IsHexDigit(c: char) {
    '0' <= c <= '9' || 'a' <= c <= 'f' || 'A' <= c <= 'F'
  }

  function HexDigitValue(c: char): nat
    requires IsHexDigit(c)
  {
    if '0' <= c <= '9' then c as int - '0' as int
    else if 'a' <= c <= 'f' then c as int - 'a' as int + 10
    else c as int - 'A' as int + 10
  }

  function HexValue(s: string): nat
    requires forall i :: 0 <= i < |s| ==> IsHexDigit(s[i])
  {
    if s == "" then 0
    else HexValue(s[..|s| - 1]) * 16 + HexDigitValue(s[|s| - 1])
  }

  function ParseHexU32(s: string): (r: Option<nat>)
    ensures r.Some? ==> r.value < U32_LIMIT
  {
    var digits := WithoutPlus(s);
    if digits == "" || (exists i :: 0 <= i < |digits| && !IsHexDigit(digits[i])) then None
    else if HexValue(digits) >= U32_LIMIT then None
    else Some(HexValue(digits))
  }

  // ---- What the texts say, digit by digit --------------------------------------------

  const DECIMAL_DIGITS: string := "0123456789"
  const LOWER_DIGITS: string := "0123456789abcdef"
  const UPPER_DIGITS: string := "0123456789ABCDEF"

  predicate IsDigitFor(c: char, d: nat)
    requires d < 10
  {
    c == DECIMAL_DIGITS[d]
  }

  /** `s` writes `n` in base ten, with any number of leading zeros. */
  predicate WritesDecimal(s: string, n: nat) {
    s != "" && IsDigitFor(s[|s| - 1], n % 10)
    && if |s| == 1 then n < 10 else WritesDecimal(s[..|s| - 1], n / 10)
  }

  predicate IsHexFor(c: char, d: nat)
    requires d < 16
  {
    c == LOWER_DIGITS[d] || c == UPPER_DIGITS[d]
  }

  /** `s` writes `n` in base sixteen, in either letter case and with any number of leading zeros. */
  predicate WritesHex(s: string, n: nat) {
    s != "" && IsHexFor(s[|s| - 1], n % 16)
    && if |s| == 1 then n < 16 else WritesHex(s[..|s| - 1], n / 16)
  }

  /** Rust's parsers take the digits alone or after one plus sign. */
  predicate WithOptionalPlus(s: string, digits: string) {
    s == digits || s == "+" + digits
  }

  lemma DecimalDigits(c: char)
    ensures IsDigit(c) <==> c in DECIMAL_DIGITS
    ensures IsDigit(c) ==> DECIMAL_DIGITS[DigitValue(c)] == c
    ensures forall d: nat :: d < 10 && DECIMAL_DIGITS[d] == c ==> IsDigit(c) && DigitValue(c) == d
  {
    assert DECIMAL_DIGITS[0] == '0' && DECIMAL_DIGITS[1] == '1' && DECIMAL_DIGITS[2] == '2' && DECIMAL_DIGITS[3] == '3';
    assert DECIMAL_DIGITS[4] == '4' && DECIMAL_DIGITS[5] == '5' && DECIMAL_DIGITS[6] == '6' && DECIMAL_DIGITS[7] == '7';
    assert DECIMAL_DIGITS[8] == '8' && DECIMAL_DIGITS[9] == '9';
    if IsDigit(c) {
      assert DECIMAL_DIGITS[DigitValue(c)] == c;
    }
  }

  lemma DigitMeans(c: char, d: nat)
    requires d < 10
    ensures IsDigitFor(c, d) <==> IsDigit(c) && DigitValue(c) == d
  {
    DecimalDigits(c);
  }

  lemma DecimalGrows(init: string, last: char, n: nat)
    ensures AllDigits(init + [last]) <==> AllDigits(init) && IsDigit(last)
    ensures AllDigits(init + [last]) ==>
              (DecimalValue(init + [last]) == n <==> DecimalValue(init) == n / 10 && DigitValue(last) == n % 10)
  {
    var s := init + [last];
    assert s[..|s| - 1] == init && s[|s| - 1] == last;
    assert forall i :: 0 <= i < |init| ==> s[i] == init[i];
  }

  lemma {:induction false} DecimalReads(s: string, n: nat)
    ensures WritesDecimal(s, n) <==> s != "" && AllDigits(s) && DecimalValue(s) == n
    decreases |s|
  {
    if s != "" {
      var init, last := s[..|s| - 1], s[|s| - 1];
      assert s == init + [last];
      DigitMeans(last, n % 10);
      DecimalGrows(init, last, n);
      if init != "" {
        DecimalReads(init, n / 10);
      }
    }
  }

  ghost predicate ReadsAs(s: string, n: nat) {
    n < 4294967296 && exists digits :: WithOptionalPlus(s, digits) && WritesDecimal(digits, n)
  }

  /** Parsing a `u32` is reading base ten below 2^32, and printing writes it without a superfluous zero. */
  lemma ParseU32Iff(s: string, n: nat)
    ensures ParseU32(s) == Some(n) <==> ReadsAs(s, n)
  {
    if ParseU32(s) == Some(n) {
      DecimalReads(WithoutPlus(s), n);
      assert WithOptionalPlus(s, WithoutPlus(s));
    }
    if ReadsAs(s, n) {
      var digits :| WithOptionalPlus(s, digits) && WritesDecimal(digits, n);
      DecimalReads(digits, n);
      assert WithoutPlus(s) == digits by { assert IsDigit(digits[0]); }
    }
  }

  lemma PrintedTextWrites(n: nat)
    ensures WritesDecimal(ToDecimal(n), n) && (ToDecimal(n)[0] == '0' ==> n == 0 && ToDecimal(n) == "0")
  {
    PrintedValue(n);
    DecimalReads(ToDecimal(n), n);
  }

  lemma HexDigits(c: char)
    ensures IsHexDigit(c) <==> c in LOWER_DIGITS || c in UPPER_DIGITS
    ensures IsHexDigit(c) ==> HexDigitValue(c) < 16
    ensures IsHexDigit(c) ==> LOWER_DIGITS[HexDigitValue(c)] == c || UPPER_DIGITS[HexDigitValue(c)] == c
    ensures forall d: nat :: d < 16 && (LOWER_DIGITS[d] == c || UPPER_DIGITS[d] == c) ==>
              IsHexDigit(c) && HexDigitValue(c) == d
  {
    assert LOWER_DIGITS[..10] == DECIMAL_DIGITS && UPPER_DIGITS[..10] == DECIMAL_DIGITS;
    HexLetters(c);
    DecimalDigits(c);
  }

  lemma HexLetters(c: char)
    ensures forall d: nat :: 10 <= d < 16 ==>
              LOWER_DIGITS[d] as int == 'a' as int + d - 10 && UPPER_DIGITS[d] as int == 'A' as int + d - 10
    ensures forall d: nat :: d < 10 ==> LOWER_DIGITS[d] == DECIMAL_DIGITS[d] && UPPER_DIGITS[d] == DECIMAL_DIGITS[d]
  {
  }

  lemma HexDigitMeans(c: char, d: nat)
    requires d < 16
    ensures IsHexFor(c, d) <==> IsHexDigit(c) && HexDigitValue(c) == d
  {
    HexDigits(c);
  }

  ghost predicate AllHexDigits(s: string) {
    forall i :: 0 <= i < |s| ==> IsHexDigit(s[i])
  }

  lemma HexGrows(init: string, last: char, n: nat)
    ensures AllHexDigits(init + [last]) <==> AllHexDigits(init) && IsHexDigit(last)
    ensures AllHexDigits(init + [last]) ==>
              (HexValue(init + [last]) == n <==> HexValue(init) == n / 16 && HexDigitValue(last) == n % 16)
  {
    var s := init + [last];
    assert s[..|s| - 1] == init && s[|s| - 1] == last;
    assert forall i :: 0 <= i < |init| ==> s[i] == init[i];
    if AllHexDigits(s) {
      HexDigits(last);
    }
  }

  lemma {:induction false} HexReads(s: string, n: nat)
    ensures WritesHex(s, n) <==> s != "" && AllHexDigits(s) && HexValue(s) == n
    decreases |s|
  {
    if s != "" {
      var init, last := s[..|s| - 1], s[|s| - 1];
      assert s == init + [last];
      HexDigitMeans(last, n % 16);
      HexGrows(init, last, n);
      if init != "" {
        HexReads(init, n / 16);
      }
    }
  }

  /** Reading a `u32` in radix sixteen. */
  lemma ParseHexU32Iff(s: string, n: nat)
    ensures ParseHexU32(s) == Some(n)
            <==> n < 4294967296 && exists digits :: WithOptionalPlus(s, digits) && WritesHex(digits, n)
  {
    if ParseHexU32(s) == Some(n) {
      HexReads(WithoutPlus(s), n);
      assert WithOptionalPlus(s, WithoutPlus(s));
    }
    if n < 4294967296 && exists digits :: WithOptionalPlus(s, digits) && WritesHex(digits, n) {
      var digits :| WithOptionalPlus(s, digits) && WritesHex(digits, n);
      HexReads(digits, n);
      assert WithoutPlus(s) == digits by { assert IsHexDigit(digits[0]); }
    }
  }
}
