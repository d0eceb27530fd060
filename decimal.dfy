/**
 * Decimal numerals for unsigned 64-bit integers: what Rust's
 * `str::parse::<u64>` accepts and the value it gives, and the decimal
 * rendering git prints for a Unix timestamp.
 */
module Decimal {
  import opened Wrappers

  const U64_LIMIT: int := 0x1_0000_0000_0000_0000

  newtype u64 = x: int | 0 <= x < 0x1_0000_0000_0000_0000

  /** The reasons `str::parse::<u64>` gives for refusing its input. */
  datatype IntErrorKind = Empty | InvalidDigit | PosOverflow

  predicate IsDigit(c: char) {
    '0' <= c <= '9'
  }

  function DigitValue(c: char): (d: nat)
    requires IsDigit(c)
    ensures d < 10
  {
    (c as int) - ('0' as int)
  }

  function DigitChar(d: nat): (c: char)
    requires d < 10
    ensures IsDigit(c) && DigitValue(c) == d
  {
    ('0' as int + d) as char
  }

  predicate AllDigits(s: string) {
    forall i :: 0 <= i < |s| ==> IsDigit(s[i])
  }

  function Pow10(n: nat): (p: nat)
    ensures p >= 1
  {
    if n == 0 then 1 else 10 * Pow10(n - 1)
  }

  /** The number a string of digits denotes, most significant digit first. */
  function Value(s: string): nat
    requires AllDigits(s)
  {
    if s == "" then 0 else 10 * Value(s[..|s| - 1]) + DigitValue(s[|s| - 1])
  }

  /**
   * The shape `str::parse::<u64>` accepts: an optional leading '+' followed
   * by one or more ASCII digits (leading zeros allowed, no spaces).
   */
  predicate IsNumeral(s: string) {
    |s| > 0 && if s[0] == '+' then |s| > 1 && AllDigits(s[1..]) else AllDigits(s)
  }

  function NumeralValue(s: string): nat
    requires IsNumeral(s)
  {
    if s[0] == '+' then Value(s[1..]) else Value(s)
  }

  /**
   * The digit loop of `from_str_radix`: each step refuses a non-digit, then
   * refuses a value that no longer fits in 64 bits.
   */
  function Accumulate(digits: string, acc: nat): (r: Result<u64, IntErrorKind>)
    requires acc < U64_LIMIT
    decreases |digits|
    ensures r != Err(Empty)
  {
    if digits == "" then Ok(acc as u64)
    else if !IsDigit(digits[0]) then Err(InvalidDigit)
    else if 10 * acc + DigitValue(digits[0]) >= U64_LIMIT then Err(PosOverflow)
    else Accumulate(digits[1..], 10 * acc + DigitValue(digits[0]))
  }

  /** `str::parse::<u64>`. */
  function ParseU64(s: string): (r: Result<u64, IntErrorKind>)
    ensures r.Ok? <==> IsNumeral(s) && NumeralValue(s) < U64_LIMIT
    ensures r.Ok? ==> r.value as int == NumeralValue(s)
    ensures r == Err(Empty) <==> s == ""
    ensures IsNumeral(s) && NumeralValue(s) >= U64_LIMIT ==> r == Err(PosOverflow)
  {
    if s == "" then Err(Empty)
    else if s[0] == '+' then
      if |s| == 1 then Err(InvalidDigit)
      else
        AccumulateMeaning(s[1..], 0);
        Accumulate(s[1..], 0)
    else
      AccumulateMeaning(s, 0);
      Accumulate(s, 0)
  }

  /** The decimal rendering of `n`, without leading zeros. */
  function Render(n: nat): string {
    if n < 10 then [DigitChar(n)] else Render(n / 10) + [DigitChar(n % 10)]
  }

  /** The rendering is a numeral without leading zeros that denotes `n`. */
  lemma {:induction false} RenderDigits(n: nat)
    ensures |Render(n)| >= 1 && AllDigits(Render(n)) && Value(Render(n)) == n
    ensures |Render(n)| > 1 ==> Render(n)[0] != '0'
  {
    if n >= 10 {
      RenderDigits(n / 10);
      var s := Render(n);
      assert s[..|s| - 1] == Render(n / 10);
    }
  }

  /** Splitting off the most significant digit instead of the least. */
  lemma {:induction false} ValueFront(c: char, s: string)
    requires IsDigit(c) && AllDigits(s)
    ensures AllDigits([c] + s)
    ensures Value([c] + s) == DigitValue(c) * Pow10(|s|) + Value(s)
    decreases |s|
  {
    if s != "" {
      var init := s[..|s| - 1];
      var d, last := DigitValue(c), DigitValue(s[|s| - 1]);
      assert ([c] + s)[..|s|] == [c] + init;
      assert ([c] + s)[|s|] == s[|s| - 1];
      ValueFront(c, init);
      assert Value([c] + s) == 10 * (d * Pow10(|init|) + Value(init)) + last;
      assert Value(s) == 10 * Value(init) + last;
      assert Pow10(|s|) == 10 * Pow10(|init|);
      Distribute(d, Pow10(|init|), Value(init), last);
    }
  }

  lemma Distribute(d: nat, p: nat, v: nat, last: nat)
    ensures 10 * (d * p + v) + last == d * (10 * p) + (10 * v + last)
  {
  }

  lemma Regroup(acc: nat, d: nat, p: nat, v: nat)
    ensures acc * (10 * p) + d * p + v == (10 * acc + d) * p + v
  {
  }

  lemma AtLeastFactor(a: nat, p: nat, v: nat)
    requires p >= 1
    ensures a * p + v >= a
  {
  }

  /** What the digit loop computes from an accumulated value. */
  lemma {:induction false} AccumulateMeaning(digits: string, acc: nat)
    requires acc < U64_LIMIT
    ensures Accumulate(digits, acc).Ok? <==>
      AllDigits(digits) && acc * Pow10(|digits|) + Value(digits) < U64_LIMIT
    ensures AllDigits(digits) && acc * Pow10(|digits|) + Value(digits) < U64_LIMIT ==>
      Accumulate(digits, acc).value as int == acc * Pow10(|digits|) + Value(digits)
    ensures AllDigits(digits) && acc * Pow10(|digits|) + Value(digits) >= U64_LIMIT ==>
      Accumulate(digits, acc) == Err(PosOverflow)
    decreases |digits|
  {
    if digits != "" && IsDigit(digits[0]) {
      var d := DigitValue(digits[0]);
      var rest := digits[1..];
      var next := 10 * acc + d;
      assert digits == [digits[0]] + rest;
      assert AllDigits(digits) <==> AllDigits(rest) by {
        if AllDigits(rest) {
          forall i | 0 <= i < |digits| ensures IsDigit(digits[i]) {
            if i > 0 { assert digits[i] == rest[i - 1]; }
          }
        }
      }
      if AllDigits(rest) {
        ValueFront(digits[0], rest);
        Regroup(acc, d, Pow10(|rest|), Value(rest));
        assert acc * Pow10(|digits|) + Value(digits) == next * Pow10(|rest|) + Value(rest);
        AtLeastFactor(next, Pow10(|rest|), Value(rest));
      }
      if next < U64_LIMIT {
        AccumulateMeaning(rest, next);
      }
    }
  }

  /** Parsing a rendered number gives the number back. */
  lemma ParseRender(n: u64)
    ensures ParseU64(Render(n as nat)) == Ok(n)
  {
    var s := Render(n as nat);
    RenderDigits(n as nat);
    assert s[0] != '+';
  }
}
