/**
 * The 32-bit integer operators of JavaScript (`<<`, `>>`, `|`, `&`) as the
 * driver applies them to plain numbers.  Each operator first converts its
 * operands with ECMAScript's ToInt32 (reduce modulo 2^32 into the signed
 * 32-bit range), works on 32-bit two's-complement words and yields a signed
 * 32-bit result.  Integers here are unbounded, so every wrap-around is
 * written out.
 */
module JsNumber {

  const Two31: int := 0x8000_0000
  const Two32: int := 0x1_0000_0000

  function Pow2(k: nat): (r: int)
    ensures r >= 1
  {
    if k == 0 then 1 else 2 * Pow2(k - 1)
  }

  lemma Pow2Values()
    ensures Pow2(2) == 4 && Pow2(3) == 8 && Pow2(4) == 16 && Pow2(5) == 32
    ensures Pow2(8) == 256 && Pow2(11) == 2048 && Pow2(12) == 4096 && Pow2(14) == 16384
    ensures Pow2(32) == Two32
  {
    assert Pow2(1) == 2 && Pow2(2) == 4 && Pow2(3) == 8 && Pow2(4) == 16;
    assert Pow2(5) == 32 && Pow2(6) == 64 && Pow2(7) == 128 && Pow2(8) == 256;
    assert Pow2(9) == 512 && Pow2(10) == 1024 && Pow2(11) == 2048 && Pow2(12) == 4096;
    assert Pow2(13) == 8192 && Pow2(14) == 16384 && Pow2(15) == 32768 && Pow2(16) == 65536;
    assert Pow2(17) == 0x2_0000 && Pow2(18) == 0x4_0000 && Pow2(19) == 0x8_0000 && Pow2(20) == 0x10_0000;
    assert Pow2(21) == 0x20_0000 && Pow2(22) == 0x40_0000 && Pow2(23) == 0x80_0000 && Pow2(24) == 0x100_0000;
    assert Pow2(25) == 0x200_0000 && Pow2(26) == 0x400_0000 && Pow2(27) == 0x800_0000 && Pow2(28) == 0x1000_0000;
    assert Pow2(29) == 0x2000_0000 && Pow2(30) == 0x4000_0000 && Pow2(31) == 0x8000_0000;
  }

  /** ECMAScript ToInt32: the unique signed 32-bit integer congruent to x modulo 2^32. */
  function ToInt32(x: int): (r: int)
    ensures -Two31 <= r < Two31
  {
    var u := x % Two32;
    if u >= Two31 then u - Two32 else u
  }

  /** ToInt32 only drops multiples of 2^32. */
  lemma ToInt32Wraps(x: int)
    ensures (x - ToInt32(x)) % Two32 == 0
  {
    var q, u := x / Two32, x % Two32;
    assert x == Two32 * q + u;
    if u >= Two31 {
      ModUnique(x - ToInt32(x), Two32, q + 1, 0);
    } else {
      ModUnique(x - ToInt32(x), Two32, q, 0);
    }
  }

  /** A value already in the signed 32-bit range is its own ToInt32, and so is everything congruent to it. */
  lemma ToInt32Congruent(x: int, y: int)
    requires -Two31 <= y < Two31
    requires (x - y) % Two32 == 0
    ensures ToInt32(x) == y
  {
    var s := (x - y) / Two32;
    assert x == y + Two32 * s by {
      assert x - y == Two32 * s + (x - y) % Two32;
    }
    if y >= 0 {
      ModUnique(x, Two32, s, y);
    } else {
      ModUnique(x, Two32, s - 1, y + Two32);
    }
  }

  /** ToInt32 is the identity on the signed 32-bit range. */
  lemma ToInt32Id(x: int)
    requires -Two31 <= x < Two31
    ensures ToInt32(x) == x
  {
    if x >= 0 {
      ModUnique(x, Two32, 0, x);
    } else {
      ModUnique(x, Two32, -1, x + Two32);
    }
  }

  /** `x << k` for 0 <= k < 32: shift the 32-bit word left, dropping the bits that leave it. */
  function Shl(x: int, k: nat): (r: int)
    requires k < 32
    ensures -Two31 <= r < Two31
  {
    ToInt32(ToInt32(x) * Pow2(k))
  }

  /** `x << k` is congruent to ToInt32(x) * 2^k modulo 2^32. */
  lemma ShlWraps(x: int, k: nat)
    requires k < 32
    ensures (ToInt32(x) * Pow2(k) - Shl(x, k)) % Two32 == 0
  {
    ToInt32Wraps(ToInt32(x) * Pow2(k));
  }

  /** `x >> k` for 0 <= k < 32: the sign-propagating shift, i.e. floor division of ToInt32(x) by 2^k. */
  function Shr(x: int, k: nat): (r: int)
    requires k < 32
  {
    ToInt32(x) / Pow2(k)
  }

  /** `x >> k` is the floor of ToInt32(x) / 2^k: the largest r with r * 2^k <= ToInt32(x). */
  lemma ShrFloor(x: int, k: nat)
    requires k < 32
    ensures Pow2(k) * Shr(x, k) <= ToInt32(x) < Pow2(k) * (Shr(x, k) + 1)
  {
    var y, p := ToInt32(x), Pow2(k);
    assert y == p * (y / p) + y % p;
    assert p * (y / p + 1) == p * (y / p) + p;
  }

  /**
   * The low `width` bits of the bitwise OR of the two's-complement
   * representations of a and b (bit i of an integer a is (a / 2^i) % 2).
   */
  function BitsOr(a: int, b: int, width: nat): int
    decreases width
  {
    if width == 0 then 0
    else (if a % 2 == 1 || b % 2 == 1 then 1 else 0) + 2 * BitsOr(a / 2, b / 2, width - 1)
  }

  /** The low `width` bits of the bitwise AND of a and b. */
  function BitsAnd(a: int, b: int, width: nat): int
    decreases width
  {
    if width == 0 then 0
    else (if a % 2 == 1 && b % 2 == 1 then 1 else 0) + 2 * BitsAnd(a / 2, b / 2, width - 1)
  }

  /** JavaScript `x | y`. */
  function BitOr(x: int, y: int): (r: int)
    ensures -Two31 <= r < Two31
  {
    ToInt32(BitsOr(ToInt32(x), ToInt32(y), 32))
  }

  /** JavaScript `x & y`. */
  function BitAnd(x: int, y: int): (r: int)
    ensures -Two31 <= r < Two31
  {
    ToInt32(BitsAnd(ToInt32(x), ToInt32(y), 32))
  }

  // ---------------------------------------------------------------------
  // Arithmetic facts behind the operators
  // ---------------------------------------------------------------------

  /** Splitting off the lowest bit: a mod 2p is a's low bit plus twice (a div 2) mod p. */
  lemma DivModStep(a: int, p: int)
    requires p >= 1
    ensures a % (2 * p) == a % 2 + 2 * ((a / 2) % p)
  {
    var q, b := a / 2, a % 2;
    var s, t := q / p, q % p;
    assert a == 2 * p * s + (2 * t + b) by {
      assert a == 2 * q + b;
      assert q == p * s + t;
    }
    assert 0 <= 2 * t + b < 2 * p;
    ModUnique(a, 2 * p, s, 2 * t + b);
  }

  lemma ModUnique(a: int, d: int, q: int, m: int)
    requires d >= 1 && 0 <= m < d && a == d * q + m
    ensures a % d == m
  {
    var q', m' := a / d, a % d;
    assert d * q - d * q' == m' - m;
    if q > q' {
      assert d * (q - q') == d * q - d * q';
      MulAtLeast(d, q - q');
    } else if q < q' {
      assert d * (q' - q) == d * q' - d * q;
      MulAtLeast(d, q' - q);
    }
  }

  /** The quotient and remainder of a Euclidean division are unique. */
  lemma DivModUnique(a: int, d: int, q: int, m: int)
    requires d >= 1 && 0 <= m < d && a == d * q + m
    ensures a / d == q && a % d == m
  {
    ModUnique(a, d, q, m);
    var q' := a / d;
    assert d * (q' - q) == 0 by {
      assert a == d * q' + a % d;
      assert d * (q' - q) == d * q' - d * q;
    }
    MulZero(d, q' - q);
  }

  /** A product with a positive factor is zero only when the other factor is. */
  lemma MulZero(d: int, x: int)
    requires d >= 1 && d * x == 0
    ensures x == 0
  {
    if x != 0 {
      var y := if x > 0 then x else -x;
      assert d * y == 0 by {
        assert d * -x == -(d * x);
      }
      MulAtLeast(d, y);
    }
  }

  lemma {:induction false} MulAtLeast(d: int, x: int)
    requires d >= 1 && x >= 1
    ensures d * x >= d
    decreases x
  {
    if x > 1 {
      MulAtLeast(d, x - 1);
      assert d * x == d * (x - 1) + d;
    }
  }

  lemma {:induction false} BitsAndZero(a: int, n: nat)
    ensures BitsAnd(a, 0, n) == 0
    decreases n
  {
    if n > 0 { BitsAndZero(a / 2, n - 1); }
  }

  /** AND with the mask 2^k - 1 keeps exactly the low k bits: the Euclidean remainder modulo 2^k. */
  lemma {:induction false} BitsAndMask(a: int, k: nat, n: nat)
    requires k <= n
    ensures BitsAnd(a, Pow2(k) - 1, n) == a % Pow2(k)
    decreases k
  {
    if k == 0 {
      BitsAndZero(a, n);
    } else {
      var p := Pow2(k - 1);
      assert (Pow2(k) - 1) % 2 == 1 && (Pow2(k) - 1) / 2 == p - 1;
      BitsAndMask(a / 2, k - 1, n - 1);
      DivModStep(a, p);
    }
  }

  lemma {:induction false} BitsOrZero(a: int, n: nat)
    ensures BitsOr(a, 0, n) == a % Pow2(n)
    decreases n
  {
    if n > 0 {
      BitsOrZero(a / 2, n - 1);
      DivModStep(a, Pow2(n - 1));
    }
  }

  lemma {:induction false} BitsOrMinusOne(a: int, n: nat)
    ensures BitsOr(a, -1, n) == Pow2(n) - 1
    decreases n
  {
    if n > 0 { BitsOrMinusOne(a / 2, n - 1); }
  }

  /**
   * OR of a word whose low k bits are clear with a value that fits in those
   * k bits is addition.
   */
  lemma {:induction false} BitsOrLow(a: int, b: int, k: nat, n: nat)
    requires k <= n && 0 <= b < Pow2(k) && a % Pow2(k) == 0
    ensures BitsOr(a, b, n) == a % Pow2(n) + b
    decreases k
  {
    if k == 0 {
      BitsOrZero(a, n);
    } else {
      DivModStep(a, Pow2(k - 1));
      BitsOrLow(a / 2, b / 2, k - 1, n - 1);
      DivModStep(a, Pow2(n - 1));
    }
  }

  /**
   * OR of a word whose low k bits are clear with a negative value in
   * [-2^k, 0): the negative operand's set high bits absorb the other word.
   */
  lemma {:induction false} BitsOrNegative(a: int, r: int, k: nat, n: nat)
    requires k <= n && 0 <= r < Pow2(k) && a % Pow2(k) == 0
    ensures BitsOr(a, r - Pow2(k), n) == Pow2(n) - Pow2(k) + r
    decreases k
  {
    if k == 0 {
      BitsOrMinusOne(a, n);
    } else {
      var p := Pow2(k - 1);
      DivModStep(a, p);
      assert (r - Pow2(k)) % 2 == r % 2 && (r - Pow2(k)) / 2 == r / 2 - p;
      BitsOrNegative(a / 2, r / 2, k - 1, n - 1);
    }
  }

  // ---------------------------------------------------------------------
  // The operators on the values the driver gives them
  // ---------------------------------------------------------------------

  /** `x >> k` on a value already in the signed 32-bit range is floor division by 2^k. */
  lemma ShrInRange(x: int, k: nat)
    requires k < 32 && -Two31 <= x < Two31
    ensures Shr(x, k) == x / Pow2(k)
  {
    ToInt32Id(x);
  }

  /** `x << k` is multiplication by 2^k while the product stays in the signed 32-bit range. */
  lemma ShlInRange(x: int, k: nat)
    requires k < 32 && -Two31 <= x < Two31 && -Two31 <= x * Pow2(k) < Two31
    ensures Shl(x, k) == x * Pow2(k)
  {
    ToInt32Id(x);
    ToInt32Id(x * Pow2(k));
  }

  lemma {:induction false} Pow2Add(a: nat, b: nat)
    ensures Pow2(a + b) == Pow2(a) * Pow2(b)
    decreases a
  {
    if a > 0 {
      Pow2Add(a - 1, b);
      assert Pow2(a) * Pow2(b) == 2 * (Pow2(a - 1) * Pow2(b));
    }
  }

  /** Adding a multiple of p does not change the remainder modulo p. */
  lemma ModShift(y: int, p: int, t: int)
    requires p >= 1
    ensures (y + p * t) % p == y % p
  {
    assert y + p * t == p * (y / p + t) + y % p;
    ModUnique(y + p * t, p, y / p + t, y % p);
  }

  /** 2^k divides 2^32. */
  lemma Pow2DividesTwo32(k: nat)
    requires k < 31
    ensures Two32 == Pow2(k) * Pow2(32 - k)
  {
    Pow2Values();
    Pow2Add(k, 32 - k);
  }

  /** For k < 31 the mask 2^k - 1 is a positive 32-bit value. */
  lemma {:induction false} Pow2Below31(k: nat)
    requires k < 31
    ensures Pow2(k) < Two31
    decreases 31 - k
  {
    if k < 30 {
      Pow2Below31(k + 1);
    } else {
      Pow2Values();
    }
  }

  /** x and ToInt32(x) differ by a multiple of 2^32. */
  lemma ToInt32Offset(x: int) returns (s: int)
    ensures x == ToInt32(x) + Two32 * s
  {
    var c, u := x / Two32, x % Two32;
    assert x == Two32 * c + u;
    s := if u >= Two31 then c + 1 else c;
  }

  /** Adding a multiple of 2^32 leaves the remainder modulo 2^k alone. */
  lemma ModShiftTwo32(y: int, k: nat, s: int)
    requires k < 31
    ensures (y + Two32 * s) % Pow2(k) == y % Pow2(k)
  {
    var t := Pow2(32 - k) * s;
    assert Two32 * s == Pow2(k) * t by {
      Pow2DividesTwo32(k);
    }
    ModShift(y, Pow2(k), t);
  }

  /** ToInt32 keeps the low k bits. */
  lemma ToInt32LowBits(x: int, k: nat)
    requires k < 31
    ensures ToInt32(x) % Pow2(k) == x % Pow2(k)
  {
    var s := ToInt32Offset(x);
    ModShiftTwo32(ToInt32(x), k, s);
  }

  /** `x & (2^k - 1)` is the low k bits of x, for every x (Euclidean remainder). */
  lemma AndLowBits(x: int, k: nat)
    requires k < 31
    ensures BitAnd(x, Pow2(k) - 1) == x % Pow2(k)
  {
    var p := Pow2(k);
    Pow2Below31(k);
    ToInt32Id(p - 1);
    var y := ToInt32(x);
    BitsAndMask(y, k, 32);
    var m := BitsAnd(y, p - 1, 32);
    assert BitAnd(x, p - 1) == ToInt32(m);
    ToInt32Id(m);
    ToInt32LowBits(x, k);
  }

  /** `(hi << 4) | lo` with lo a nibble in [0, 16) packs the two: hi * 16 + lo. */
  lemma OrNibbleBelow(hi: int, lo: int)
    requires -0x800_0000 <= hi < 0x800_0000 && 0 <= lo < 16
    ensures BitOr(hi * 16, lo) == hi * 16 + lo
  {
    Pow2Values();
    ToInt32Id(hi * 16);
    ToInt32Id(lo);
    ModUnique(hi * 16, 16, hi, 0);
    BitsOrLow(hi * 16, lo, 4, 32);
    // BitsOr gives the low 32 bits of hi * 16 + lo; ToInt32 restores its sign.
    var w := BitsOr(hi * 16, lo, 32);
    assert w == (hi * 16) % Two32 + lo;
    assert BitOr(hi * 16, lo) == ToInt32(w);
    if hi >= 0 {
      ModUnique(hi * 16, Two32, 0, hi * 16);
      assert w == hi * 16 + lo;
      ToInt32Id(hi * 16 + lo);
      assert ToInt32(w) == hi * 16 + lo;
    } else {
      ModUnique(hi * 16, Two32, -1, hi * 16 + Two32);
      assert w == hi * 16 + lo + Two32;
      ModUnique(w, Two32, 0, w);
      assert w % Two32 == w;
      assert ToInt32(w) == hi * 16 + lo;
    }
  }

  /** `(hi << 4) | v` with v negative in [-16, 0): the result is v, whatever hi is. */
  lemma OrNegativeNibble(hi: int, v: int)
    requires -0x800_0000 <= hi < 0x800_0000 && -16 <= v < 0
    ensures BitOr(hi * 16, v) == v
  {
    Pow2Values();
    ToInt32Congruent(hi * 16, hi * 16);
    ToInt32Congruent(v, v);
    assert (hi * 16) % 16 == 0;
    BitsOrNegative(hi * 16, v + 16, 4, 32);
    ToInt32Congruent(Two32 + v, v);
  }
}
