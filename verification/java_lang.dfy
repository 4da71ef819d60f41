/** Java-language facts the writer depends on: the width of `int` and `long`,
    the wrap-around of `x++` on an `int`, and the decimal rendering used when an
    `int` is concatenated into a `String`. */
module JavaLang {

  const INT32_MIN: int := -0x8000_0000
  const INT32_MAX: int := 0x7fff_ffff
  const TWO_32: int := 0x1_0000_0000

  /** Java `int`. */
  newtype int32 = x: int | -0x8000_0000 <= x < 0x8000_0000

  /** Java `long`. */
  newtype int64 = x: int | -0x8000_0000_0000_0000 <= x < 0x8000_0000_0000_0000

  /** The Java `int` that the mathematical integer `n` narrows to
      (two's-complement wrap-around modulo 2^32). */
  function ToInt32(n: int): (r: int32)
    ensures INT32_MIN <= n <= INT32_MAX ==> r as int == n
  {
    ((n - INT32_MIN) % TWO_32 + INT32_MIN) as int32
  }

  /** The narrowed value differs from `n` by a multiple of 2^32. */
  lemma ToInt32Congruence(n: int)
    ensures (ToInt32(n) as int - n) % TWO_32 == 0
  {
  }

  /** Two integers congruent modulo 2^32 narrow to the same Java `int`. */
  lemma ToInt32Congruent(a: int, b: int)
    requires (a - b) % TWO_32 == 0
    ensures ToInt32(a) == ToInt32(b)
  {
    ToInt32Congruence(a);
    ToInt32Congruence(b);
    var k := (a - b) / TWO_32;
    assert a == b + k * TWO_32;
    var ra := (a - INT32_MIN) % TWO_32;
    var rb := (b - INT32_MIN) % TWO_32;
    var qa := (a - INT32_MIN) / TWO_32;
    var qb := (b - INT32_MIN) / TWO_32;
    assert a - INT32_MIN == qa * TWO_32 + ra;
    assert b - INT32_MIN == qb * TWO_32 + rb;
    assert ra - rb == (qb - qa + k) * TWO_32;
  }

  /** Narrowing is one-to-one on any window of 2^32 consecutive integers. */
  lemma ToInt32InjectiveOnWindow(a: int, b: int)
    requires a < b < a + TWO_32
    ensures ToInt32(a) != ToInt32(b)
  {
    ToInt32Congruence(a);
    ToInt32Congruence(b);
  }

  /** Java `x++` on an `int`: adds one, wrapping from the largest value to the smallest. */
  function Inc32(x: int32): (r: int32)
    ensures r == ToInt32(x as int + 1)
  {
    if x as int == INT32_MAX then INT32_MIN as int32 else x + 1
  }

  /** Counting with `x++` from a narrowed count is the same as narrowing the next count. */
  lemma IncToInt32(n: int)
    ensures Inc32(ToInt32(n)) == ToInt32(n + 1)
  {
    ToInt32Congruence(n);
    ToInt32Congruent(Inc32(ToInt32(n)) as int, n + 1);
  }

  /** The decimal digit character for `d`. */
  function DigitChar(d: int): (c: char)
    requires 0 <= d < 10
    ensures '0' <= c <= '9'
    ensures c as int - '0' as int == d
  {
    ('0' as int + d) as char
  }

  ghost predicate AllDigits(s: string) {
    forall i :: 0 <= i < |s| ==> '0' <= s[i] <= '9'
  }

  /** Decimal digits of `n`, most significant first, without leading zeros. */
  function NatToString(n: nat): (s: string)
    ensures |s| >= 1
    ensures AllDigits(s)
    ensures n < 10 <==> |s| == 1
    ensures s[0] != '0' || n == 0
    decreases n
  {
    if n < 10 then [DigitChar(n)] else NatToString(n / 10) + [DigitChar(n % 10)]
  }

  /** `Integer.toString(x)`: the text an `int` contributes to a string concatenation. */
  function IntToString(x: int): (s: string)
    ensures |s| >= 1
    ensures x < 0 <==> s[0] == '-'
  {
    if x < 0 then "-" + NatToString(-x) else NatToString(x)
  }

  lemma {:induction false} NatToStringInjective(a: nat, b: nat)
    requires NatToString(a) == NatToString(b)
    ensures a == b
    decreases a
  {
    var s := NatToString(a);
    if a < 10 || b < 10 {
      assert |s| == 1;
      assert a < 10 && b < 10;
      assert DigitChar(a) == s[0] == DigitChar(b);
    } else {
      assert NatToString(a) == NatToString(a / 10) + [DigitChar(a % 10)];
      assert NatToString(b) == NatToString(b / 10) + [DigitChar(b % 10)];
      assert DigitChar(a % 10) == s[|s| - 1] == DigitChar(b % 10);
      assert NatToString(a / 10) == s[..|s| - 1] == NatToString(b / 10);
      NatToStringInjective(a / 10, b / 10);
    }
  }

  /** Distinct integers render to distinct decimal strings. */
  lemma IntToStringInjective(a: int, b: int)
    requires IntToString(a) == IntToString(b)
    ensures a == b
  {
    var s := IntToString(a);
    if a < 0 {
      assert b < 0;
      assert NatToString(-a) == s[1..] == NatToString(-b);
      NatToStringInjective(-a, -b);
    } else {
      assert b >= 0;
      NatToStringInjective(a, b);
    }
  }
}
