/**
 * The parts of Rust's `i32` and `usize` that the interpreter relies on: the range of
 * `i32`, division that truncates toward zero, `str::parse` for the two types, and the
 * decimal rendering of `Display`. Arithmetic is exact on `int`; the interpreter checks
 * the range afterwards, which is what a debug build does when it panics on overflow.
 */
module Int32 {
  import opened Options

  const MIN: int := -0x8000_0000
  const MAX: int := 0x7fff_ffff
  const USIZE_MAX: int := 0xffff_ffff_ffff_ffff

  predicate InRange(x: int) {
    MIN <= x <= MAX
  }

  function Abs(x: int): nat {
    if x < 0 then -x else x
  }

  /** Rust's `/` on integers: the exact quotient rounded toward zero. */
  function Quot(a: int, b: int): int
    requires b != 0
  {
    var q := Abs(a) / Abs(b);
    if (a < 0) == (b < 0) then q else -q
  }

  /** The remainder that goes with `Quot`: it takes the sign of the dividend. */
  predicate IsTruncatedQuotient(a: int, b: int, q: int)
    requires b != 0
  {
    var r := a - q * b;
    Abs(r) < Abs(b) && (r == 0 || (r < 0) == (a < 0))
  }

  lemma QuotIsTruncated(a: int, b: int)
    requires b != 0
    ensures IsTruncatedQuotient(a, b, Quot(a, b))
  {
    var n, d := Abs(a), Abs(b);
    var q, r := n / d, n % d;
    assert n == q * d + r && 0 <= r < d;
    TruncatedFromParts(a, b, q, r);
  }

  lemma TruncatedFromParts(a: int, b: int, q: int, r: int)
    requires b != 0
    requires Abs(a) == q * Abs(b) + r && 0 <= r < Abs(b)
    ensures IsTruncatedQuotient(a, b, if (a < 0) == (b < 0) then q else -q)
  {
    var s := if (a < 0) == (b < 0) then q else -q;
    SignedProduct(a, b, q);
    var p: int := q * Abs(b);
    assert s * b == if a < 0 then -p else p;
    if a < 0 {
      assert a - s * b == -r;
    } else {
      assert a - s * b == r;
    }
  }

  /** The sign bookkeeping of `Quot`: the product with the divisor has the dividend's sign. */
  lemma SignedProduct(a: int, b: int, q: int)
    requires b != 0
    ensures (if (a < 0) == (b < 0) then q else -q) * b == if a < 0 then -(q * Abs(b)) else q * Abs(b)
  {
    if b < 0 {
      assert q * b == -(q * Abs(b));
      assert (-q) * b == q * Abs(b);
    } else {
      assert (-q) * b == -(q * b);
    }
  }

  /** Truncated division is determined by its remainder condition. */
  lemma QuotUnique(a: int, b: int, q: int)
    requires b != 0
    requires IsTruncatedQuotient(a, b, q)
    ensures q == Quot(a, b)
  {
    QuotIsTruncated(a, b);
    RemainderUnique(a, b, q, Quot(a, b));
  }

  /** Two quotients whose remainders both satisfy the condition are equal. */
  lemma RemainderUnique(a: int, b: int, q: int, q0: int)
    requires b != 0
    requires IsTruncatedQuotient(a, b, q) && IsTruncatedQuotient(a, b, q0)
    ensures q == q0
  {
    var r, r0 := a - q * b, a - q0 * b;
    assert (q0 - q) * b == q0 * b - q * b;
    assert (q0 - q) * b == r - r0;
    assert Abs(r - r0) < Abs(b);
    MulAtLeast(q0 - q, b);
  }

  /** A non-zero multiple of `b` is at least as large as `b` in absolute value. */
  lemma MulAtLeast(k: int, b: int)
    ensures k == 0 || Abs(k * b) >= Abs(b)
  {
    if k != 0 {
      var m, n := Abs(k), Abs(b);
      AbsMul(k, b);
      assert m * n == (m - 1) * n + n;
      assert (m - 1) * n >= 0;
    }
  }

  lemma AbsMul(x: int, y: int)
    ensures Abs(x * y) == Abs(x) * Abs(y)
  {
    if x < 0 && y < 0 {
      assert x * y == (-x) * (-y);
    } else if x < 0 {
      assert x * y == -((-x) * y);
    } else if y < 0 {
      assert x * y == -(x * (-y));
    }
  }

  // Decimal digits.

  predicate IsDigit(c: char) {
    '0' <= c <= '9'
  }

  predicate AllDigits(s: string) {
    forall i :: 0 <= i < |s| ==> IsDigit(s[i])
  }

  function DigitValue(c: char): nat
    requires IsDigit(c)
  {
    c as int - '0' as int
  }

  function DigitChar(d: nat): (c: char)
    requires d < 10
    ensures IsDigit(c) && DigitValue(c) == d
  {
    ('0' as int + d) as char
  }

  /** The number a string of decimal digits denotes, most significant digit first. */
  function DigitsValue(s: string): nat
    requires AllDigits(s)
  {
    if s == [] then 0 else DigitsValue(s[..|s| - 1]) * 10 + DigitValue(s[|s| - 1])
  }

  /**
   * `str::parse::<i32>`: an optional `+` or `-`, then at least one decimal digit, and a
   * value inside the `i32` range.
   */
  function ParseI32(s: string): (r: Option<int>)
    ensures r.Some? ==> InRange(r.value)
  {
    if s == [] then None
    else
      var negative := s[0] == '-';
      var digits := if s[0] == '-' || s[0] == '+' then s[1..] else s;
      if digits == [] || !AllDigits(digits) then None
      else
        var v: int := if negative then -(DigitsValue(digits) as int) else DigitsValue(digits);
        if InRange(v) then Some(v) else None
  }

  /** `str::parse::<usize>`: an optional `+` (a `-` is not a digit), then digits, at most 2^64 - 1. */
  function ParseUsize(s: string): (r: Option<nat>)
    ensures r.Some? ==> r.value <= USIZE_MAX
  {
    var digits := if s != [] && s[0] == '+' then s[1..] else s;
    if digits == [] || !AllDigits(digits) then None
    else if DigitsValue(digits) <= USIZE_MAX then Some(DigitsValue(digits))
    else None
  }

  /** The decimal digits of `n` without leading zeros (`Display` for unsigned values). */
  function NatToString(n: nat): string {
    if n < 10 then [DigitChar(n)] else NatToString(n / 10) + [DigitChar(n % 10)]
  }

  /** `Display` for `i32`: a minus sign for negative values, never a plus sign. */
  function IntToString(x: int): string {
    if x < 0 then "-" + NatToString(-x) else NatToString(x)
  }

  lemma {:induction false} NatToStringDigits(n: nat)
    ensures NatToString(n) != [] && AllDigits(NatToString(n))
    ensures DigitsValue(NatToString(n)) == n
  {
    if n >= 10 {
      NatToStringDigits(n / 10);
      var s := NatToString(n);
      assert s[..|s| - 1] == NatToString(n / 10);
    }
  }

  /** Rendering an `i32` and parsing the text back gives the same value. */
  lemma ParseRendered(x: int)
    requires InRange(x)
    ensures ParseI32(IntToString(x)) == Some(x)
  {
    var s := IntToString(x);
    if x < 0 {
      var digits := NatToString(-x);
      NatToStringDigits(-x);
      assert s == "-" + digits;
      assert s[0] == '-' && s[1..] == digits;
    } else {
      NatToStringDigits(x);
      assert s == NatToString(x);
      assert IsDigit(s[0]);
      assert s[0] != '-' && s[0] != '+';
    }
  }

  /** Distinct `i32` values are printed differently. */
  lemma RenderingInjective(x: int, y: int)
    requires InRange(x) && InRange(y)
    requires IntToString(x) == IntToString(y)
    ensures x == y
  {
    ParseRendered(x);
    ParseRendered(y);
  }

  /** `base.pow(e)` before the overflow check. */
  function Power(base: int, e: nat): int {
    if e == 0 then 1 else base * Power(base, e - 1)
  }

  /** `x as u32` for an `i32` value: the bits are kept, so negative values wrap. */
  function AsU32(x: int): (e: nat)
    ensures e < 0x1_0000_0000
    ensures 0 <= x < 0x1_0000_0000 ==> e == x
    ensures -0x1_0000_0000 <= x < 0 ==> e == x + 0x1_0000_0000
  {
    x % 0x1_0000_0000
  }
}
