/** Python's `float` on integers and decimal fractions, and `int()` of
    it: the IEEE 754 binary64 value nearest to the exact number, a tie
    going to the even last mantissa bit, truncated toward zero. */
module Doubles {
  import opened Wrappers

  /** 2^k */
  function Pow2(k: nat): (p: nat)
    ensures p >= 1
  {
    if k == 0 then 1 else 2 * Pow2(k - 1)
  }

  lemma {:induction false} Pow2Below(a: nat, b: nat)
    requires a < b
    ensures 2 * Pow2(a) <= Pow2(b)
    decreases b
  {
    if a + 1 < b {
      Pow2Below(a, b - 1);
    }
  }

  /** 2^52, from which on a double is an integer; 2^53, from which on
      not every integer is a double. */
  const Two52: nat := 4503599627370496
  const Two53: nat := 9007199254740992

  /** 2^1024, the smallest magnitude a double cannot hold. */
  const DoubleLimit: nat := 179769313486231590772930519078902473361797697894230657273430081157732675805500963132708477322407536021120113879871393357658789768814416622492847430639474124377767893424865485276302219601246094119453082952085005768838150682342462881473913110540827237163350510684586298239947245938479716304835356329624224137216

  /** The constants are the powers they name. */
  lemma Powers()
    ensures Pow2(52) == Two52 && Pow2(53) == Two53
    ensures Pow2(1023) == DoubleLimit / 2 && Pow2(1024) == DoubleLimit
  {
    Pow2Of52();
    Pow2Of1024();
  }

  lemma Pow2Of8()
    ensures Pow2(4) == 16 && Pow2(8) == 256
  {
  }

  lemma Pow2Of16()
    ensures Pow2(16) == 65536
  {
    Pow2Of8();
    Pow2Add(8, 8);
  }

  lemma Pow2Of32()
    ensures Pow2(32) == 4294967296
  {
    Pow2Of16();
    Pow2Add(16, 16);
  }

  lemma Pow2Of48()
    ensures Pow2(48) == 281474976710656
  {
    Pow2Of32(); Pow2Of16();
    Pow2Add(32, 16);
  }

  lemma Pow2Of52()
    ensures Pow2(52) == Two52
  {
    Pow2Of48(); Pow2Of8();
    Pow2Add(48, 4);
  }

  lemma Pow2Of64()
    ensures Pow2(64) == 18446744073709551616
  {
    Pow2Of32();
    Pow2Add(32, 32);
  }

  lemma Pow2Of128()
    ensures Pow2(128) == 340282366920938463463374607431768211456
  {
    Pow2Of64();
    Pow2Add(64, 64);
  }

  lemma Pow2Of256()
    ensures Pow2(256) == 115792089237316195423570985008687907853269984665640564039457584007913129639936
  {
    Pow2Of128();
    Pow2Add(128, 128);
  }

  lemma Pow2Of512()
    ensures Pow2(512) == 13407807929942597099574024998205846127479365820592393377723561443721764030073546976801874298166903427690031858186486050853753882811946569946433649006084096
  {
    Pow2Of256();
    Pow2Add(256, 256);
  }

  lemma Pow2Of1024()
    ensures Pow2(1024) == DoubleLimit
  {
    Pow2Of512();
    Pow2Add(512, 512);
  }

  lemma {:induction false} Pow2Add(a: nat, b: nat)
    ensures Pow2(a + b) == Pow2(a) * Pow2(b)
    decreases a
  {
    if a > 0 {
      Pow2Add(a - 1, b);
      assert Pow2(a + b) == 2 * Pow2(a - 1 + b);
    }
  }

  /** floor(log2(a)) for a >= 1. */
  function Log2(a: nat): (e: nat)
    requires a >= 1
    ensures Pow2(e) <= a < 2 * Pow2(e)
    decreases a
  {
    if a < 2 then 0 else 1 + Log2(a / 2)
  }

  /** The exponent Log2 computes is the only one that brackets a. */
  lemma Log2Is(a: nat, e: nat)
    requires Pow2(e) <= a < 2 * Pow2(e)
    ensures Log2(a) == e
  {
    var f := Log2(a);
    if f > e {
      Pow2Below(e, f);
    } else if f < e {
      Pow2Below(f, e);
    }
  }

  lemma Log2Below(a: nat, e: nat)
    requires 1 <= a < Pow2(e)
    ensures Log2(a) < e
  {
    if Log2(a) > e { Pow2Below(e, Log2(a)); }
  }

  /** m * 2^k, by doubling. */
  function Shift(m: nat, k: nat): nat {
    if k == 0 then m else 2 * Shift(m, k - 1)
  }

  lemma {:induction false} ShiftGrows(m: nat, k: nat)
    requires k >= 1
    ensures Shift(m, k) >= 2 * m
    decreases k
  {
    if k > 1 { ShiftGrows(m, k - 1); }
  }

  /** m with its bits beyond the 53 a double keeps rounded off, to nearest
      and a tie to an even last bit. `half` says that the part of the
      number below m's last bit is at least half of that bit, and `sticky`
      that it is neither 0 nor exactly half: the guard and sticky bits of
      IEEE 754 rounding. While m is too wide its last bit is dropped into
      them, and the result doubled back. */
  function Round53(m: nat, half: bool, sticky: bool): nat
    decreases m
  {
    if m >= Two53 then 2 * Round53(m / 2, m % 2 == 1, sticky || half)
    else if half && (sticky || m % 2 == 1) then m + 1
    else m
  }

  /** Bits after the point of the double next below a + 1, plus one: the
      double a + b / d rounds up to a + 1 when it lies within 2^-UpBits(a)
      of it, a tie going to a + 1, whose last mantissa bit is even. Below 1
      the double next below 1 is 1 - 2^-53. */
  function UpBits(a: nat): (k: nat)
    requires a < Two52
    ensures k >= 2
  {
    if a == 0 then 54
    else
      Powers();
      Log2Below(a, 52);
      53 - Log2(a)
  }

  /** Whether a + b / d, with a < 2^52, has a + 1 as its nearest double:
      1 - b / d <= 2^-UpBits(a). */
  predicate RoundsUp(a: nat, b: nat, d: nat)
    requires b < d && a < Two52
  {
    Shift(d - b, UpBits(a)) <= d
  }

  /** `int(float(n / d))` for n >= 0 and d >= 1, with a = n / d and
      b = n % d. Below 2^52 the integer part is a, or a + 1 when the double
      is a + 1; from 2^52 on the double is a + b / d rounded to 53 bits,
      and it is an integer. None when the rounded value reaches 2^1024,
      where `float` overflows (an OverflowError, or inf, which `int`
      refuses). */
  function DoubleTrunc(n: nat, d: nat): (r: Option<nat>)
    requires d >= 1
  {
    var a, b := n / d, n % d;
    if a < Two52 then Some(if RoundsUp(a, b, d) then a + 1 else a)
    else Rounded(a, 2 * b >= d, b != 0 && 2 * b != d)
  }

  /** a rounded with the guard and sticky bits of what lies below it,
      None where that overflows. */
  function Rounded(a: nat, half: bool, sticky: bool): Option<nat> {
    var v := Round53(a, half, sticky);
    if v >= DoubleLimit then None else Some(v)
  }

  /** `int(float(n))` for an integer n >= 0: n rounded to 53 bits, None
      where `float` raises OverflowError. */
  function FloatOfInt(n: nat): Option<nat> {
    Rounded(n, false, false)
  }

  // ---- what the rounding gives ----

  /** A double: up to 2^53 every integer, above it an even number whose
      half is a double. */
  predicate IsDouble(v: nat)
    decreases v
  {
    v <= Two53 || (v % 2 == 0 && IsDouble(v / 2))
  }

  /** Rounding gives a double. */
  lemma {:induction false} Round53IsDouble(m: nat, half: bool, sticky: bool)
    ensures IsDouble(Round53(m, half, sticky))
    decreases m
  {
    if m >= Two53 {
      var r := Round53(m / 2, m % 2 == 1, sticky || half);
      Round53IsDouble(m / 2, m % 2 == 1, sticky || half);
      assert (2 * r) / 2 == r;
    }
  }

  /** A double with nothing below its last bit is kept as it is. */
  lemma {:induction false} Round53KeepsDoubles(m: nat)
    requires IsDouble(m)
    ensures Round53(m, false, false) == m
    decreases m
  {
    if m >= Two53 {
      if m == Two53 {
        assert m / 2 == Two52 && Two52 < Two53;
      } else {
        Round53KeepsDoubles(m / 2);
      }
    }
  }

  /** Powers of two are doubles, so rounding never falls below one that
      m reaches ... */
  lemma {:induction false} Round53AtLeast(m: nat, half: bool, sticky: bool, e: nat)
    requires Pow2(e) <= m
    ensures Round53(m, half, sticky) >= Pow2(e)
    decreases m
  {
    if m >= Two53 {
      Round53AtLeast(m / 2, m % 2 == 1, sticky || half, if e == 0 then 0 else e - 1);
    }
  }

  /** ... nor rises above one that m stays below. */
  lemma {:induction false} Round53AtMost(m: nat, half: bool, sticky: bool, e: nat)
    requires m < Pow2(e)
    ensures Round53(m, half, sticky) <= Pow2(e)
    decreases m
  {
    if m >= Two53 {
      if e <= 53 {
        Powers();
        if e < 53 { Pow2Below(e, 53); }
      } else {
        Round53AtMost(m / 2, m % 2 == 1, sticky || half, e - 1);
      }
    }
  }

  /** An integer is the fraction n / 1: both ways of reading it agree. */
  lemma FloatOfIntIsDoubleTrunc(n: nat)
    ensures DoubleTrunc(n, 1) == FloatOfInt(n)
  {
    if n < Two52 {
      DoubleTruncSmallInt(n);
      FloatOfIntExact(n);
    } else {
      assert n / 1 == n && n % 1 == 0;
    }
  }

  lemma DoubleTruncSmallInt(n: nat)
    requires n < Two52
    ensures DoubleTrunc(n, 1) == Some(n)
  {
    assert n / 1 == n && n % 1 == 0;
    ShiftGrows(1, UpBits(n));
  }

  /** Every integer up to 2^53 is a double, so `int(float(n))` is n. */
  lemma FloatOfIntExact(n: nat)
    requires n <= Two53
    ensures FloatOfInt(n) == Some(n)
  {
    Round53NoOverflow(n, false, false);
    Round53KeepsDoubles(n);
  }

  /** Between 2^53 and 2^54 doubles are the even integers: an odd n goes
      to whichever neighbour is a multiple of 4. */
  lemma FloatOfIntAbove53(n: nat)
    requires Two53 <= n < 2 * Two53
    ensures FloatOfInt(n).Some?
    ensures n % 2 == 0 ==> FloatOfInt(n).value == n
    ensures n % 2 == 1 && (n / 2) % 2 == 0 ==> FloatOfInt(n).value == n - 1
    ensures n % 2 == 1 && (n / 2) % 2 == 1 ==> FloatOfInt(n).value == n + 1
  {
    Round53NoOverflow(n, false, false);
    Round53Above(n);
  }

  /** From 2^1024 on `float(n)` raises OverflowError. */
  lemma FloatOfIntOverflow(n: nat)
    requires n >= DoubleLimit
    ensures FloatOfInt(n).None?
  {
    WideOverflow(n, false, false);
  }

  lemma Round53Above(n: nat)
    requires Two53 <= n < 2 * Two53
    ensures n % 2 == 0 ==> Round53(n, false, false) == n
    ensures n % 2 == 1 && (n / 2) % 2 == 0 ==> Round53(n, false, false) == n - 1
    ensures n % 2 == 1 && (n / 2) % 2 == 1 ==> Round53(n, false, false) == n + 1
  {
    var h, odd := n / 2, n % 2 == 1;
    assert Round53(n, false, false) == 2 * Round53(h, odd, false);
  }

  lemma Round53NoOverflow(n: nat, half: bool, sticky: bool)
    requires n < 2 * Two53
    ensures Rounded(n, half, sticky) == Some(Round53(n, half, sticky))
  {
    Powers();
    Round53AtMost(n, half, sticky, 54);
  }

  /** From 2^1024 on, n / d rounds to no double and `float` overflows. */
  lemma DoubleTruncOverflow(n: nat, d: nat)
    requires d >= 1 && n >= DoubleLimit * d
    ensures DoubleTrunc(n, d).None?
  {
    DivAtLeast(n, DoubleLimit, d);
    DoubleTruncWide(n, d);
    var a, b := n / d, n % d;
    WideOverflow(a, 2 * b >= d, b != 0 && 2 * b != d);
  }

  /** Below 2^1023, n / d has a double, so `float` does not overflow. */
  lemma DoubleTruncInRange(n: nat, d: nat)
    requires d >= 1 && 2 * n < DoubleLimit * d
    ensures DoubleTrunc(n, d).Some?
  {
    DivBelow(n, DoubleLimit / 2, d);
    var a, b := n / d, n % d;
    if a >= Two52 {
      DoubleTruncWide(n, d);
      WideInRange(a, 2 * b >= d, b != 0 && 2 * b != d);
    }
  }

  /** From 2^52 on, the integer part is rounded with the fraction's guard
      and sticky bits. */
  lemma DoubleTruncWide(n: nat, d: nat)
    requires d >= 1 && n / d >= Two52
    ensures DoubleTrunc(n, d) == Rounded(n / d, 2 * (n % d) >= d, n % d != 0 && 2 * (n % d) != d)
  {
  }

  lemma WideOverflow(a: nat, half: bool, sticky: bool)
    requires a >= DoubleLimit
    ensures Rounded(a, half, sticky).None?
  {
    Powers();
    Round53AtLeast(a, half, sticky, 1024);
  }

  lemma WideInRange(a: nat, half: bool, sticky: bool)
    requires 2 * a < DoubleLimit
    ensures Rounded(a, half, sticky).Some?
  {
    Powers();
    Round53AtMost(a, half, sticky, 1023);
  }

  /** Below 2^52 the double's integer part is floor(n / d), or one more. */
  lemma DoubleTruncSmall(n: nat, d: nat)
    requires d >= 1 && n < Two52 * d
    ensures DoubleTrunc(n, d) == Some(n / d) || DoubleTrunc(n, d) == Some(n / d + 1)
  {
    DivBelow(n, Two52, d);
  }

  lemma MulMonotone(a: nat, b: nat, u: nat)
    requires a <= b
    ensures a * u <= b * u
  {
    assert b * u == a * u + (b - a) * u;
  }

  lemma MulAtLeast(k: int, u: nat)
    requires k >= 1
    ensures k * u >= u
  {
    assert k * u == (k - 1) * u + u;
  }

  /** Division by u recovers the quotient and remainder a * u + b was
      built from. */
  lemma DivOfSum(a: nat, b: nat, u: nat)
    requires b < u
    ensures (a * u + b) / u == a && (a * u + b) % u == b
  {
    var x := a * u + b;
    var q, r := x / u, x % u;
    assert x == q * u + r;
    if q > a {
      MulAtLeast(q - a, u);
    } else if q < a {
      MulAtLeast(a - q, u);
    }
  }

  /** n built as a * u + b, with b < u, divides back into a and b. */
  lemma QuotientOf(n: nat, a: nat, b: nat, u: nat)
    requires n == a * u + b && b < u
    ensures n / u == a && n % u == b
  {
    DivOfSum(a, b, u);
  }

  /** n / u < a gives n < a * u. */
  lemma BelowOfDiv(n: nat, a: nat, u: nat)
    requires u >= 1 && n / u < a
    ensures n < a * u
  {
    var q := n / u;
    assert n == q * u + n % u;
    MulMonotone(q + 1, a, u);
  }

  /** n >= a * u gives n / u >= a. */
  lemma DivAtLeast(n: nat, a: nat, u: nat)
    requires u >= 1 && n >= a * u
    ensures n / u >= a
  {
    var q := n / u;
    if q < a {
      MulMonotone(q + 1, a, u);
    }
  }

  /** n < a * u gives n / u < a. */
  lemma DivBelow(n: nat, a: nat, u: nat)
    requires u >= 1 && n < a * u
    ensures n / u < a
  {
    var q := n / u;
    if q >= a {
      MulMonotone(a, q, u);
    }
  }
}
