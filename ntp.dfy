/**
 * `LXOSC.toNtpTime`: a Java millisecond clock reading as a 64-bit NTP
 * timestamp (32 bits of seconds, 32 bits of fraction). Times before
 * Feb-2036 count from 1900 and carry the era bit (bit 31 of the seconds);
 * later times count from Feb-2036 without it. The arithmetic is Java
 * `long` arithmetic, written out: truncating `/` and `%`, a wrapping `<<`
 * and a bitwise `|`.
 */
module Ntp {
  const TWO_31: int := 0x8000_0000
  const TWO_32: int := 0x1_0000_0000
  const TWO_63: int := 0x8000_0000_0000_0000
  const TWO_64: int := 0x1_0000_0000_0000_0000

  /** Milliseconds from 1900-01-01 to 1970-01-01. */
  const MSB1_BASE: int := 2208988800000
  /** Milliseconds from 1970-01-01 to 2036-02-07 06:28:16, where the 1900 era's seconds wrap. */
  const MSB0_BASE: int := 2085978496000

  predicate IsLong(v: int)
  {
    -TWO_63 <= v < TWO_63
  }

  /** Java's `a / b` on longs: the quotient truncated toward zero. */
  function Quot(a: int, b: int): int
    requires b > 0
  {
    if a >= 0 then a / b else -((-a) / b)
  }

  /** Java's `a % b` on longs: the remainder takes the sign of `a`. */
  function Rem(a: int, b: int): int
    requires b > 0
  {
    a - Quot(a, b) * b
  }

  /** A value wrapped to a Java `long`. */
  function ToLong(v: int): (r: int)
    ensures IsLong(r)
  {
    (v + TWO_63) % TWO_64 - TWO_63
  }

  /** The 64 bits of a long, read as an unsigned number. */
  function Bits(v: int): (r: nat)
    ensures r < TWO_64
  {
    v % TWO_64
  }

  function Pow2(k: nat): (r: nat)
    ensures r >= 1
  {
    if k == 0 then 1 else 2 * Pow2(k - 1)
  }

  /** Bitwise OR of two unsigned numbers, one bit at a time from the least significant. */
  function BitOr(a: nat, b: nat): nat
    decreases a + b
  {
    if a == 0 then b
    else if b == 0 then a
    else 2 * BitOr(a / 2, b / 2) + (if a % 2 == 1 || b % 2 == 1 then 1 else 0)
  }

  /** Java's `a | b` on longs. */
  function LongOr(a: int, b: int): (r: int)
    ensures IsLong(r)
  {
    ToLong(BitOr(Bits(a), Bits(b)))
  }

  /** Java's `a << 32` on a long. */
  function Shl32(a: int): (r: int)
    ensures IsLong(r)
  {
    ToLong(a * TWO_32)
  }

  /** Whether `t` is counted from 1900 (before Feb-2036). */
  predicate UsesBase1(t: int)
  {
    t < MSB0_BASE
  }

  /** The milliseconds since the start of the era `t` falls in. */
  function BaseTime(t: int): int
  {
    if UsesBase1(t) then t + MSB1_BASE else t - MSB0_BASE
  }

  /** `seconds` before the era bit: whole seconds of the base time. */
  function Seconds(t: int): int
  {
    Quot(BaseTime(t), 1000)
  }

  /** `fraction`: the milliseconds of the base time in units of 2^-32 seconds. */
  function Fraction(t: int): int
  {
    Quot(Rem(BaseTime(t), 1000) * TWO_32, 1000)
  }

  /** `toNtpTime(t)`: the timestamp as the Java long it returns. */
  function ToNtpTime(t: int): (r: int)
    requires IsLong(t)
    ensures IsLong(r)
  {
    var seconds := if UsesBase1(t) then LongOr(Seconds(t), TWO_31) else Seconds(t);
    LongOr(Shl32(seconds), Fraction(t))
  }

  /**
   * A reference decoder: the Java time a 64-bit NTP timestamp stands for,
   * the fraction rounded to the nearest millisecond. The era bit selects
   * the 1900 base; without it the seconds count from Feb-2036.
   */
  function FromNtp(bits: nat): int
  {
    var seconds := (bits / TWO_32) % TWO_32;
    var ms := ((bits % TWO_32) * 1000 + TWO_31) / TWO_32;
    if seconds >= TWO_31 then seconds * 1000 + ms - MSB1_BASE
    else seconds * 1000 + ms + MSB0_BASE
  }

  // ---- Arithmetic and bit-level facts ----

  lemma {:induction false} MulAtLeast(d: int, m: int)
    requires d >= 1 && m > 0
    ensures d * m >= m
  {
    assert d * m == (d - 1) * m + m;
    assert (d - 1) * m >= 0;
  }

  /** Quotient and remainder are determined by any decomposition `x == q * m + r` with `0 <= r < m`. */
  lemma {:induction false} DivModOf(x: int, m: int, q: int, r: int)
    requires m > 0 && 0 <= r < m && x == q * m + r
    ensures x / m == q && x % m == r
  {
    var q', r' := x / m, x % m;
    var d := q - q';
    assert x == q' * m + r';
    assert d * m == q * m - q' * m;
    assert d * m == r' - r;
    assert -d * m == r - r';
    if d > 0 {
      MulAtLeast(d, m);
    } else if d < 0 {
      MulAtLeast(-d, m);
    }
  }

  /** Wrapping to a long keeps the 64-bit pattern. */
  lemma {:induction false} BitsOfLong(v: int)
    ensures Bits(ToLong(v)) == Bits(v)
  {
    var q := (v + TWO_63) / TWO_64;
    var w := (v + TWO_63) % TWO_64;
    assert ToLong(v) == v - q * TWO_64;
    DivModOf(v, TWO_64, v / TWO_64, v % TWO_64);
    DivModOf(ToLong(v), TWO_64, v / TWO_64 - q, v % TWO_64);
  }

  lemma {:induction false} HalfMod(x: nat, m: nat)
    requires m >= 1
    ensures 2 * ((x / 2) % m) + x % 2 == x % (2 * m)
  {
    var q := (x / 2) / m;
    var r := (x / 2) % m;
    assert x / 2 == q * m + r;
    assert x == 2 * (x / 2) + x % 2;
    assert x == q * (2 * m) + (2 * r + x % 2);
    DivModOf(x, 2 * m, q, 2 * r + x % 2);
  }

  lemma {:induction false} Pow2Add(a: nat, b: nat)
    ensures Pow2(a + b) == Pow2(a) * Pow2(b)
    decreases a
  {
    if a > 0 {
      Pow2Add(a - 1, b);
      assert Pow2(a + b) == 2 * Pow2(a - 1 + b);
      assert 2 * (Pow2(a - 1) * Pow2(b)) == (2 * Pow2(a - 1)) * Pow2(b);
    }
  }

  lemma {:induction false} Pow2At31And32()
    ensures Pow2(31) == TWO_31 && Pow2(32) == TWO_32
  {
    assert Pow2(1) == 2;
    Pow2Add(1, 1);
    Pow2Add(2, 2);
    Pow2Add(4, 4);
    Pow2Add(8, 8);
    Pow2Add(16, 16);
    assert Pow2(32) == 2 * Pow2(31);
  }

  /** OR of a multiple of 2^k with a number below 2^k is addition: their bits do not overlap. */
  lemma {:induction false} OrDisjoint(a: nat, b: nat, k: nat)
    requires a % Pow2(k) == 0 && b < Pow2(k)
    ensures BitOr(a, b) == a + b
    decreases k
  {
    if k == 0 {
      assert b == 0;
    } else if a != 0 && b != 0 {
      var p := Pow2(k - 1);
      assert Pow2(k) == 2 * p;
      var c := a / (2 * p);
      assert a == c * (2 * p);
      assert a == (c * p) * 2;
      DivModOf(a, 2, c * p, 0);
      DivModOf(c * p, p, c, 0);
      assert b / 2 < p;
      OrDisjoint(a / 2, b / 2, k - 1);
    }
  }

  /** OR with 2^k of a number below 2^(k+1) sets bit k and keeps the bits below it. */
  lemma {:induction false} OrTopBit(x: nat, k: nat)
    requires x < Pow2(k + 1)
    ensures BitOr(x, Pow2(k)) == Pow2(k) + x % Pow2(k)
    decreases k
  {
    if k == 0 {
      assert BitOr(0, 0) == 0;
    } else if x != 0 {
      var p := Pow2(k - 1);
      assert Pow2(k) == 2 * p && Pow2(k + 1) == 2 * Pow2(k);
      assert Pow2(k) / 2 == p && Pow2(k) % 2 == 0;
      OrTopBit(x / 2, k - 1);
      HalfMod(x, p);
    }
  }

  // ---- The fields of the result ----

  /** For a non-negative base time the fraction fits in 32 bits and stands for the milliseconds below a second. */
  lemma {:induction false} FractionFits(t: int)
    requires BaseTime(t) >= 0
    ensures 0 <= Fraction(t) < TWO_32
    ensures Fraction(t) * 1000 <= (BaseTime(t) % 1000) * TWO_32 < Fraction(t) * 1000 + 1000
  {
    var r := BaseTime(t) % 1000;
    assert Rem(BaseTime(t), 1000) == r;
    assert Fraction(t) == (r * TWO_32) / 1000;
  }

  /** The 1900 era: seconds fit in 32 bits, and the era bit is set on them. */
  lemma {:induction false} Base1Seconds(t: int)
    requires UsesBase1(t) && BaseTime(t) >= 0
    ensures 0 <= Seconds(t) < TWO_32
    ensures LongOr(Seconds(t), TWO_31) == TWO_31 + Seconds(t) % TWO_31
  {
    var s := Seconds(t);
    assert BaseTime(t) < MSB0_BASE + MSB1_BASE;
    Pow2At31And32();
    assert Pow2(32) == 2 * Pow2(31);
    assert Bits(s) == s && Bits(TWO_31) == TWO_31;
    OrTopBit(s, 31);
  }

  /** `v << 32` keeps the low 32 bits of `v`, moved to the high half. */
  lemma {:induction false} ShiftedBits(v: int)
    requires v >= 0
    ensures Bits(Shl32(v)) == (v % TWO_32) * TWO_32
  {
    var lo := v % TWO_32;
    var q := v / TWO_32;
    assert v == q * TWO_32 + lo;
    assert v * TWO_32 == q * TWO_64 + lo * TWO_32;
    DivModOf(v * TWO_32, TWO_64, q, lo * TWO_32);
    BitsOfLong(v * TWO_32);
  }

  /** `seconds << 32 | fraction` for a fraction below 2^32: the two halves side by side. */
  lemma {:induction false} Assemble(seconds: int, fraction: int)
    requires seconds >= 0 && 0 <= fraction < TWO_32
    ensures Bits(LongOr(Shl32(seconds), fraction)) == (seconds % TWO_32) * TWO_32 + fraction
  {
    var lo := seconds % TWO_32;
    var hi := lo * TWO_32;
    ShiftedBits(seconds);
    Pow2At31And32();
    DivModOf(hi, TWO_32, lo, 0);
    OrDisjoint(hi, fraction, 32);
    assert Bits(fraction) == fraction;
    BitsOfLong(hi + fraction);
    DivModOf(hi + fraction, TWO_64, 0, hi + fraction);
  }

  /**
   * The timestamp's two 32-bit halves for any time from 1900 on: the low
   * half is the fraction; the high half is the seconds with the era bit set
   * before Feb-2036, and the seconds (wrapped to 32 bits) after it.
   */
  lemma {:induction false} NtpFields(t: int)
    requires IsLong(t) && BaseTime(t) >= 0
    ensures Bits(ToNtpTime(t)) % TWO_32 == Fraction(t)
    ensures Bits(ToNtpTime(t)) / TWO_32 ==
      if UsesBase1(t) then TWO_31 + Seconds(t) % TWO_31 else Seconds(t) % TWO_32
  {
    FractionFits(t);
    var seconds := if UsesBase1(t) then LongOr(Seconds(t), TWO_31) else Seconds(t);
    if UsesBase1(t) {
      Base1Seconds(t);
      DivModOf(seconds, TWO_32, 0, seconds);
    }
    Assemble(seconds, Fraction(t));
    DivModOf(Bits(ToNtpTime(t)), TWO_32, seconds % TWO_32, Fraction(t));
  }

  /** The decoder's rounding recovers the milliseconds from the fraction. */
  lemma {:induction false} FractionRounds(f: int, r: int)
    requires 0 <= r < 1000 && 0 <= f
    requires f * 1000 <= r * TWO_32 < f * 1000 + 1000
    ensures (f * 1000 + TWO_31) / TWO_32 == r
  {
    DivModOf(f * 1000 + TWO_31, TWO_32, r, f * 1000 + TWO_31 - r * TWO_32);
  }

  /**
   * Round trip: from 1968 up to 2104 (the years where the era bit tells the
   * two bases apart) the reference decoder gives back the time encoded.
   */
  lemma {:induction false} NtpRoundTrip(t: int)
    requires -61505152000 <= t < 4233462144000
    ensures FromNtp(Bits(ToNtpTime(t))) == t
  {
    var b := BaseTime(t);
    assert IsLong(t) && b >= 0;
    NtpFields(t);
    FractionFits(t);
    var bits := Bits(ToNtpTime(t));
    var s := Seconds(t);
    var r := b % 1000;
    assert s == b / 1000 && b == s * 1000 + r;
    FractionRounds(Fraction(t), r);
    if UsesBase1(t) {
      assert TWO_31 <= s < TWO_32;
      DivModOf(s, TWO_31, 1, s - TWO_31);
    } else {
      assert 0 <= s < TWO_31;
      DivModOf(s, TWO_32, 0, s);
    }
    DivModOf(bits / TWO_32, TWO_32, 0, s);
  }
}
