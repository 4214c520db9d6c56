/** The wide multiplications and reciprocal divisions behind Ryu's nine-digit blocks
    (umul128, umul256, div*, mod1e9, uint128_mod1e9 and the three forms of mulShift_mod1e9).
    Machine widths are written out as remainders. */
module RyuMul {
  import opened Words

  const TWO_128: nat := TWO_64 * TWO_64
  const E9: nat := 1_000_000_000

  // ----- arithmetic -----

  lemma MulBelow(a: nat, b: nat, p: nat, q: nat)
    requires a <= p && b <= q
    ensures 0 <= a * b <= p * q
  {
    MulMonotone(b, q, a);
    MulMonotone(a, p, q);
  }

  /** A remainder may be taken first modulo a multiple of the divisor's range. */
  lemma DivOfMod(x: nat, a: nat, b: nat)
    requires a > 0 && b > 0
    ensures a * b > 0 && x % (a * b) / a == x / a % b
  {
    DivDiv(x, a, b);
    var q := x / (a * b);
    var r := x % (a * b);
    assert x == (a * b) * q + r;
    var s, t := r / a, r % a;
    assert x == a * (b * q + s) + t by {
      assert a * (b * q + s) == (a * b) * q + a * s;
    }
    ModUnique(x, a, b * q + s, t);
    DivBelow(r, a, b);
    ModUnique(b * q + s, b, q, s);
  }

  lemma DivBelow(r: nat, a: nat, b: nat)
    requires a > 0 && r < a * b
    ensures 0 <= r / a < b
  {
    DivSmaller(r, a);
    if r / a >= b {
      MulMonotone(b, r / a, a);
      assert false;
    }
  }

  /** Subtracting a multiple of the divisor before the last truncation. */
  lemma ModOfDifference(x: nat, q: nat, d: nat, w: nat)
    requires 0 < d <= w && q == x / d
    ensures (x % w - d * (q % w)) % w == x % d
  {
    var xh, qh := x / w, q / w;
    var e := x % w - d * (q % w);
    assert e == w * (d * qh - xh) + x % d by {
      assert x == w * xh + x % w && q == w * qh + q % w;
      assert d * (w * qh + q % w) == w * (d * qh) + d * (q % w);
      assert w * (d * qh - xh) == w * (d * qh) - w * xh;
      assert x == d * q + x % d;
    }
    ModUnique(e, w, d * qh - xh, x % d);
  }

  lemma Fraction(d: nat, y: int, p: nat)
    requires d > 0 && 0 <= d * y < d * p
    ensures 0 <= y < p
  {
    if y >= p { MulMonotone(p, y, d); }
    if y < 0 { MulMonotone(y, -1, d); }
  }

  lemma ScaledRest(x: nat, d: nat, q: nat, r: nat, c: nat, p: nat, e: nat)
    requires x == d * q + r && c * d == p + e
    ensures d * (x * c - q * p) == r * p + x * e
  {
    assert d * (x * c) == x * (c * d) == x * p + x * e;
    assert d * (q * p) == (d * q) * p;
    assert x * p == (d * q) * p + r * p;
    assert d * (x * c - q * p) == d * (x * c) - d * (q * p);
  }

  lemma RestBelow(r: nat, d: nat, p: nat, f: nat)
    requires r < d && f < p
    ensures 0 <= r * p + f < d * p
  {
    MulMonotone(r, d - 1, p);
    assert p * (d - 1) == p * d - p;
    MulMonotone(0, r, p);
  }

  /** Division by d as a multiplication by C ~ 2^s / d, rounded up. */
  lemma Reciprocal(x: nat, d: nat, c: nat, p: nat, e: nat)
    requires d > 0 && p > 0 && c * d == p + e && x * e < p
    ensures x * c / p == x / d
  {
    var q, r := x / d, x % d;
    var y := x * c - q * p;
    assert 0 <= y < p by {
      DivSmaller(x, d);
      ScaledRest(x, d, q, r, c, p, e);
      MulMonotone(0, e, x);
      RestBelow(r, d, p, x * e);
      Fraction(d, y, p);
    }
    ModUnique(x * c, p, q, y);
  }

  // ----- products from limbs -----

  /** A number in two limbs. */
  datatype Wide = Wide(hi: nat, lo: nat)

  function Value(w: Wide, base: nat): nat { w.hi * base + w.lo }

  predicate Fits(w: Wide, base: nat) { w.hi < base && w.lo < base }

  /** The upper and the lower limb of a word, and truncation to a word. */
  function High(x: nat, base: nat): nat
    requires base > 0
  {
    Quotient(x, base)
  }

  function Low(x: nat, base: nat): (l: nat)
    requires base > 0
    ensures l < base
  {
    x % base
  }

  function Times(x: nat, y: nat): nat {
    MulBelow(x, y, x, y);
    x * y
  }

  /** umul128 (32-bit limbs) and umul256 (64-bit limbs): products of limbs of n bits in words
      of 2n bits. */
  function LimbProduct(n: nat, a: Wide, b: Wide): Wide {
    var base := Pow2(n);
    var word := Pow2(2 * n);
    var b00 := Times(a.lo, b.lo);
    var b01 := Times(a.lo, b.hi);
    var b10 := Times(a.hi, b.lo);
    var b11 := Times(a.hi, b.hi);
    var mid1 := Low(b10 + High(b00, base), word);
    var mid2 := Low(b01 + Low(mid1, base), word);
    Wide(Low(b11 + High(mid1, base) + High(mid2, base), word),
         OrBits(2 * n, Times(Low(mid2, base), base), Low(b00, base)))
  }

  lemma {:induction false} OrZero(n: nat, x: nat)
    requires x < Pow2(n)
    ensures OrBits(n, x, 0) == x
  {
    if n == 0 {
    } else {
      OrZero(n - 1, x / 2);
    }
  }

  /** Or-ing numbers with no common bits adds them. */
  lemma {:induction false} OrDisjoint(n: nat, k: nat, x: nat, y: nat)
    requires k <= n && y < Pow2(k) && x < Pow2(n - k)
    ensures OrBits(n, x * Pow2(k), y) == x * Pow2(k) + y
  {
    if k == 0 {
      OrZero(n, x);
    } else {
      var h := x * Pow2(k - 1);
      assert x * Pow2(k) == 2 * h by { assert x * (2 * Pow2(k - 1)) == 2 * (x * Pow2(k - 1)); }
      OrDisjoint(n - 1, k - 1, x, y / 2);
      assert 2 * h % 2 == 0 && 2 * h / 2 == h;
    }
  }

  lemma LimbsBelow(x: nat, y: nat, base: nat)
    requires x < base && y < base
    ensures 0 <= x * y <= base * base - 2 * base + 1
  {
    MulBelow(x, y, base - 1, base - 1);
    assert (base - 1) * (base - 1) == base * base - 2 * base + 1;
  }

  /** One column of the product: nothing is lost to the width of the words. */
  lemma Column(x: nat, y: nat, c: nat, base: nat, word: nat)
    requires x < base && y < base && c < base && word == Times(base, base)
    ensures word > 0 && Low(Times(x, y) + c, word) == Times(x, y) + c
    ensures High(Times(x, y) + c, base) < base
    ensures Times(x, y) + c == Times(base, High(Times(x, y) + c, base)) + Low(Times(x, y) + c, base)
  {
    LimbsBelow(x, y, base);
    SmallMod(x * y + c, word);
    DivBelow(x * y + c, base, base);
  }

  lemma TopColumn(x: nat, y: nat, c: nat, d: nat, base: nat, word: nat)
    requires x < base && y < base && c < base && d < base && word == Times(base, base)
    ensures word > 0 && Low(Times(x, y) + c + d, word) == Times(x, y) + c + d < word
  {
    LimbsBelow(x, y, base);
    SmallMod(x * y + c + d, word);
  }

  /** The product is exact. */
  lemma LimbProductExact(n: nat, a: Wide, b: Wide)
    requires Fits(a, Pow2(n)) && Fits(b, Pow2(n))
    ensures var p := LimbProduct(n, a, b);
            Fits(p, Pow2(2 * n)) && Value(p, Pow2(2 * n)) == Value(a, Pow2(n)) * Value(b, Pow2(n))
  {
    hide Pow2, OrBits, Value, High, Low, Times;
    var base, word := Pow2(n), Pow2(2 * n);
    WordOfLimbs(n);
    var b00, b01, b10, b11 := Times(a.lo, b.lo), Times(a.lo, b.hi), Times(a.hi, b.lo), Times(a.hi, b.hi);
    var h0, l0 := High(b00, base), Low(b00, base);
    Column(a.lo, b.lo, 0, base, word);
    Column(a.hi, b.lo, h0, base, word);
    var mid1 := b10 + h0;
    var h1, l1 := High(mid1, base), Low(mid1, base);
    Column(a.lo, b.hi, l1, base, word);
    var mid2 := b01 + l1;
    var h2, l2 := High(mid2, base), Low(mid2, base);
    TopColumn(a.hi, b.hi, h1, h2, base, word);
    LowHalf(n, l2, l0);
    Columns(a, b, base, word, h0, l0, h1, l1, h2, l2);
  }

  lemma WordOfLimbs(n: nat)
    ensures Pow2(2 * n) == Times(Pow2(n), Pow2(n))
  {
    hide Pow2;
    Pow2Sum(n, n);
    assert n + n == 2 * n;
  }

  lemma LowHalf(n: nat, x: nat, y: nat)
    requires x < Pow2(n) && y < Pow2(n)
    ensures OrBits(2 * n, Times(x, Pow2(n)), y) == Times(x, Pow2(n)) + y < Pow2(2 * n)
  {
    WordOfLimbs(n);
    assert 2 * n - n == n;
    OrDisjoint(2 * n, n, x, y);
    hide Pow2, OrBits;
    var base := Pow2(n);
    MulMonotone(x + 1, base, base);
    assert base * (x + 1) == x * base + base;
  }

  /** The product of two-limb numbers by columns. */
  lemma Expand(a: Wide, b: Wide, base: nat)
    ensures Value(a, base) * Value(b, base)
         == (a.hi * b.hi) * (base * base) + (a.hi * b.lo) * base + (a.lo * b.hi) * base + a.lo * b.lo
  {
    var x, y := a.hi * base, b.hi * base;
    assert (x + a.lo) * (y + b.lo) == x * y + x * b.lo + a.lo * y + a.lo * b.lo;
    assert x * y == (a.hi * b.hi) * (base * base);
    assert x * b.lo == (a.hi * b.lo) * base;
    assert a.lo * y == (a.lo * b.hi) * base;
  }

  lemma Row(base: nat, p: nat, c: nat, h: nat, l: nat)
    requires p + c == base * h + l
    ensures p * base + c * base == h * (base * base) + l * base
  {
    assert (p + c) * base == (base * h + l) * base == (base * h) * base + l * base;
    assert (base * h) * base == h * (base * base);
  }

  lemma ColumnSum(p00: nat, p01: nat, p10: nat, p11: nat, base: nat, h0: nat, l0: nat, h1: nat, l1: nat, h2: nat,
                  l2: nat)
    requires p00 == base * h0 + l0 && p10 + h0 == base * h1 + l1 && p01 + l1 == base * h2 + l2
    ensures p11 * (base * base) + p10 * base + p01 * base + p00
         == (p11 + h1 + h2) * (base * base) + (l2 * base + l0)
  {
    Row(base, p10, h0, h1, l1);
    Row(base, p01, l1, h2, l2);
    var s := base * base;
    assert (p11 + h1 + h2) * s == p11 * s + h1 * s + h2 * s;
  }

  lemma Columns(a: Wide, b: Wide, base: nat, word: nat, h0: nat, l0: nat, h1: nat, l1: nat, h2: nat, l2: nat)
    requires word == Times(base, base)
    requires Times(a.lo, b.lo) == Times(base, h0) + l0
    requires Times(a.hi, b.lo) + h0 == Times(base, h1) + l1
    requires Times(a.lo, b.hi) + l1 == Times(base, h2) + l2
    ensures Value(Wide(Times(a.hi, b.hi) + h1 + h2, Times(l2, base) + l0), word) == Value(a, base) * Value(b, base)
  {
    hide Value;
    Expand(a, b, base);
    ColumnSum(Times(a.lo, b.lo), Times(a.lo, b.hi), Times(a.hi, b.lo), Times(a.hi, b.hi), base, h0, l0, h1, l1, h2, l2);
    ValueIs(Wide(Times(a.hi, b.hi) + h1 + h2, Times(l2, base) + l0), word);
  }

  lemma ValueIs(w: Wide, base: nat)
    ensures Value(w, base) == w.hi * base + w.lo
  {
  }

  function Umul128(a: Word, b: Word): Wide {
    LimbProduct(32, Wide(a / TWO_32, a % TWO_32), Wide(b / TWO_32, b % TWO_32))
  }

  function Umul256(a: nat, bHi: Word, bLo: Word): Wide {
    LimbProduct(64, Wide(a / TWO_64, a % TWO_64), Wide(bHi, bLo))
  }

  lemma Umul128Exact(a: Word, b: Word)
    ensures Fits(Umul128(a, b), TWO_64) && Value(Umul128(a, b), TWO_64) == Times(a, b)
  {
    Pow2Values();
    hide LimbProduct, Pow2;
    LimbProductExact(32, Wide(a / TWO_32, a % TWO_32), Wide(b / TWO_32, b % TWO_32));
  }

  lemma Umul256Exact(a: nat, bHi: Word, bLo: Word)
    requires a < TWO_128
    ensures Fits(Umul256(a, bHi, bLo), TWO_128)
    ensures Value(Umul256(a, bHi, bLo), TWO_128) == Times(a, bHi * TWO_64 + bLo)
  {
    Pow2Values();
    Pow2Sum(64, 64);
    hide LimbProduct, Pow2;
    LimbProductExact(64, Wide(a / TWO_64, a % TWO_64), Wide(bHi, bLo));
  }

  // ----- division by a constant -----

  function Umulh(a: Word, b: Word): nat { Umul128(a, b).hi }

  lemma UmulhIs(a: Word, b: Word)
    ensures Umulh(a, b) == Times(a, b) / TWO_64
  {
    hide Umul128, Times;
    Umul128Exact(a, b);
  }

  function Div5(x: Word): nat { Umulh(x, 0xCCCC_CCCC_CCCC_CCCD) / 4 }
  function Div10(x: Word): nat { Umulh(x, 0xCCCC_CCCC_CCCC_CCCD) / 8 }
  function Div100(x: Word): nat { Umulh(x / 4, 0x28F5_C28F_5C28_F5C3) / 4 }
  function Div1e8(x: Word): nat { Umulh(x, 0xABCC_7711_8461_CEFD) / 0x400_0000 }
  function Div1e9(x: Word): nat { Umulh(x / 512, 0x44_B82F_A09B_5A53) / 2048 }

  /** What the high half of a product, shifted right, divides by. */
  lemma HighDivides(x: Word, c: Word, p: nat, d: nat, e: nat)
    requires p > 0 && d > 0 && c * d == TWO_64 * p + e && x * e < TWO_64 * p
    ensures Umulh(x, c) / p == x / d
  {
    hide Umulh;
    UmulhIs(x, c);
    DivDiv(x * c, TWO_64, p);
    Reciprocal(x, d, c, TWO_64 * p, e);
  }

  /** Each multiplication by a reciprocal is the division it stands for, for every word. */
  lemma ReciprocalDivisions(x: Word)
    ensures Div5(x) == x / 5
    ensures Div10(x) == x / 10
    ensures Div100(x) == x / 100
    ensures Div1e8(x) == x / 100_000_000
    ensures Div1e9(x) == x / E9
  {
    hide Umulh;
    HighDivides(x, 0xCCCC_CCCC_CCCC_CCCD, 4, 5, 1);
    HighDivides(x, 0xCCCC_CCCC_CCCC_CCCD, 8, 10, 2);
    HighDivides(x / 4, 0x28F5_C28F_5C28_F5C3, 4, 25, 0x28F5_C28F_5C28_F5C3 * 25 - TWO_64 * 4);
    DivDiv(x, 4, 25);
    HighDivides(x, 0xABCC_7711_8461_CEFD, 0x400_0000, 100_000_000,
                0xABCC_7711_8461_CEFD * 100_000_000 - TWO_64 * 0x400_0000);
    HighDivides(x / 512, 0x44_B82F_A09B_5A53, 2048, 1_953_125, 0x44_B82F_A09B_5A53 * 1_953_125 - TWO_64 * 2048);
    DivDiv(x, 512, 1_953_125);
  }

  function Mod1e9(x: Word): nat { (x % TWO_32 - E9 * (Div1e9(x) % TWO_32)) % TWO_32 }

  lemma Mod1e9Exact(x: Word)
    ensures Mod1e9(x) == x % E9
  {
    hide Div1e9;
    ReciprocalDivisions(x);
    ModOfDifference(x, x / E9, E9, TWO_32);
  }

  // ----- remainder of a 128-bit number -----

  const RECIPROCAL_HI: Word := 0x8970_5F41_36B4_A597
  const RECIPROCAL_LO: Word := 0x3168_0A88_F895_3031
  const TWO_29: nat := 0x2000_0000

  function Uint128Mod1e9(v: nat): nat {
    var multiplied := Umul256(v, RECIPROCAL_HI, RECIPROCAL_LO).hi % TWO_64;
    var shifted := multiplied / TWO_29 % TWO_32;
    (v % TWO_32 - E9 * shifted) % TWO_32
  }

  /** The truncations of the quotient keep the bits that matter. */
  lemma TruncatedQuotient(hi: nat)
    ensures hi % TWO_64 / TWO_29 % TWO_32 == hi / TWO_29 % TWO_32
  {
    DivOfMod(hi, TWO_29, TWO_64 / TWO_29);
    var q := hi / TWO_29;
    ModOfMod(q, TWO_32, TWO_64 / TWO_29 / TWO_32);
  }

  lemma ModOfMod(x: nat, a: nat, b: nat)
    requires a > 0 && b > 0
    ensures a * b > 0 && x % (a * b) % a == x % a
  {
    assert a * b > 0;
    var q, r := x / (a * b), x % (a * b);
    assert x == a * (b * q + r / a) + r % a by {
      assert a * (b * q + r / a) == (a * b) * q + a * (r / a);
    }
    ModUnique(x, a, b * q + r / a, r % a);
  }

  lemma QuotientFromHigh(v: nat, hi: nat, lo: nat)
    requires v < TWO_128 && lo < TWO_128
    requires Value(Wide(hi, lo), TWO_128) == Times(v, RECIPROCAL_HI * TWO_64 + RECIPROCAL_LO)
    ensures hi / TWO_29 == v / E9
  {
    var c := RECIPROCAL_HI * TWO_64 + RECIPROCAL_LO;
    ModUnique(v * c, TWO_128, hi, lo);
    DivDiv(v * c, TWO_128, TWO_29);
    assert c * E9 == TWO_128 * TWO_29 + 8_432_128;
    Reciprocal(v, E9, c, TWO_128 * TWO_29, 8_432_128);
  }

  /** Exact for every 128-bit number. */
  lemma Uint128Mod1e9Exact(v: nat)
    requires v < TWO_128
    ensures Uint128Mod1e9(v) == v % E9
  {
    var p := Umul256(v, RECIPROCAL_HI, RECIPROCAL_LO);
    Umul256Exact(v, RECIPROCAL_HI, RECIPROCAL_LO);
    hide Umul256;
    QuotientFromHigh(v, p.hi, p.lo);
    TruncatedQuotient(p.hi);
    ModOfDifference(v, v / E9, E9, TWO_32);
  }

  // ----- mulShift_mod1e9 -----

  /** A 192-bit multiplier, lowest limb first. */
  datatype Mul192 = Mul192(m0: Word, m1: Word, m2: Word)

  function MulValue(mul: Mul192): nat { mul.m0 + mul.m1 * TWO_64 + mul.m2 * TWO_128 }

  function ShiftRight(x: nat, k: nat): nat { Quotient(x, Pow2(k)) }

  /** What all forms compute: floor(m * mul / 2^j) mod 10^9. */
  function MulShiftSpec(m: Word, mul: Mul192, j: nat): nat { ShiftRight(Times(m, MulValue(mul)), j) % E9 }

  lemma ProductBelow(a: Word, b: Word)
    ensures Times(a, b) <= TWO_128 - 2 * TWO_64 + 1
  {
    MulBelow(a, b, TWO_64 - 1, TWO_64 - 1);
  }

  lemma MulDistributes(m: Word, mul: Mul192)
    ensures Times(m, MulValue(mul)) == Times(m, mul.m0) + Times(m, mul.m1) * TWO_64 + Times(m, mul.m2) * TWO_128
  {
    assert m * (mul.m1 * TWO_64) == (m * mul.m1) * TWO_64;
    assert m * (mul.m2 * TWO_128) == (m * mul.m2) * TWO_128;
    assert m * MulValue(mul) == m * mul.m0 + m * (mul.m1 * TWO_64) + m * (mul.m2 * TWO_128);
  }

  /** The part of the product above 128 bits, by 128-bit words. */
  function Above128(m: Word, mul: Mul192): nat {
    var b0 := Times(m, mul.m0) % TWO_128;
    var b1 := Times(m, mul.m1) % TWO_128;
    var b2 := Times(m, mul.m2) % TWO_128;
    var mid := (b1 + b0 / TWO_64 % TWO_64) % TWO_128;
    (b2 + mid / TWO_64 % TWO_64) % TWO_128
  }

  /** No step overflows, and the result is the exact quotient. */
  lemma Above128Exact(m: Word, mul: Mul192)
    ensures Above128(m, mul) == Times(m, MulValue(mul)) / TWO_128
  {
    hide Times, MulValue;
    MulDistributes(m, mul);
    ProductBelow(m, mul.m0);
    ProductBelow(m, mul.m1);
    ProductBelow(m, mul.m2);
    SmallMod(Times(m, mul.m0), TWO_128);
    SmallMod(Times(m, mul.m1), TWO_128);
    SmallMod(Times(m, mul.m2), TWO_128);
    NoWrap(Times(m, mul.m0), Times(m, mul.m1), Times(m, mul.m2));
    ExactQuotient(Times(m, mul.m0), Times(m, mul.m1), Times(m, mul.m2));
  }

  lemma NoWrap(p0: nat, p1: nat, p2: nat)
    requires p0 < TWO_128 - TWO_64 && p1 < TWO_128 - TWO_64 && p2 < TWO_128 - TWO_64
    ensures (p2 + (p1 + p0 / TWO_64 % TWO_64) % TWO_128 / TWO_64 % TWO_64) % TWO_128 == p2 + (p1 + p0 / TWO_64) / TWO_64
  {
    SmallMod(p0 / TWO_64, TWO_64);
    var mid := p1 + p0 / TWO_64;
    SmallMod(mid, TWO_128);
    SmallMod(mid / TWO_64, TWO_64);
    SmallMod(p2 + mid / TWO_64, TWO_128);
  }

  lemma ExactQuotient(p0: nat, p1: nat, p2: nat)
    ensures p2 + (p1 + p0 / TWO_64) / TWO_64 == (p0 + p1 * TWO_64 + p2 * TWO_128) / TWO_128
  {
    var mid := p1 + p0 / TWO_64;
    ModUnique(p0 + p1 * TWO_64 + p2 * TWO_128, TWO_128, p2 + mid / TWO_64, mid % TWO_64 * TWO_64 + p0 % TWO_64);
  }

  function MulShiftMod1e9(m: Word, mul: Mul192, j: nat): nat
    requires 128 <= j <= 180
  {
    Uint128Mod1e9(ShiftRight(Above128(m, mul), j - 128))
  }

  lemma ShiftRightSum(x: nat, a: nat, b: nat)
    ensures ShiftRight(ShiftRight(x, a), b) == ShiftRight(x, a + b)
  {
    Pow2Sum(a, b);
    hide Pow2;
    DivDiv(x, Pow2(a), Pow2(b));
  }

  lemma ShiftRight128(x: nat)
    ensures ShiftRight(x, 128) == x / TWO_128
  {
    Pow2Values();
    Pow2Sum(64, 64);
  }

  /** Exact for every m, every multiplier and every shift of the table. */
  lemma MulShiftMod1e9Exact(m: Word, mul: Mul192, j: nat)
    requires 128 <= j <= 180
    ensures MulShiftMod1e9(m, mul, j) == MulShiftSpec(m, mul, j)
  {
    hide Above128, Uint128Mod1e9, ShiftRight, Times;
    Above128Exact(m, mul);
    Above128Below(m, mul);
    var x := Times(m, MulValue(mul));
    ShiftRight128(x);
    ShiftRightSum(x, 128, j - 128);
    ShiftRightBelow(Above128(m, mul), j - 128);
    Uint128Mod1e9Exact(ShiftRight(Above128(m, mul), j - 128));
  }

  lemma Above128Below(m: Word, mul: Mul192)
    ensures Above128(m, mul) < TWO_128
  {
  }

  lemma ShiftRightBelow(x: nat, k: nat)
    ensures ShiftRight(x, k) <= x
  {
  }

  /** The same part of the product by 64-bit words and carries. */
  function CarryChain(m: Word, mul: Mul192): Wide {
    Carries(Umul128(m, mul.m0), Umul128(m, mul.m1), Umul128(m, mul.m2))
  }

  function Carries(p0: Wide, p1: Wide, p2: Wide): Wide {
    var s0high := (p1.lo + p0.hi) % TWO_64;
    var c1 := if s0high < p1.lo then 1 else 0;
    var s1low := (p2.lo + p1.hi + c1) % TWO_64;
    var c2 := if s1low < p2.lo then 1 else 0;
    Wide((p2.hi + c2) % TWO_64, s1low)
  }

  lemma HighLimbBelow(a: Word, b: Word)
    ensures Umul128(a, b).hi <= TWO_64 - 2 && Umul128(a, b).lo < TWO_64
    ensures Times(a, b) == Value(Umul128(a, b), TWO_64)
  {
    hide Umul128, Times;
    Umul128Exact(a, b);
    ProductBelow(a, b);
  }

  /** The comparison with a summand is the carry. */
  lemma CarryOut(a: Word, b: Word)
    ensures a + b == (if (a + b) % TWO_64 < a then 1 else 0) * TWO_64 + (a + b) % TWO_64
  {
  }

  /** The carries are the exact ones. */
  lemma CarriesExact(p0: Wide, p1: Wide, p2: Wide)
    requires p0.hi < TWO_64 && p1.hi <= TWO_64 - 2 && p2.hi <= TWO_64 - 2
    requires p0.lo < TWO_64 && p1.lo < TWO_64 && p2.lo < TWO_64
    ensures Fits(Carries(p0, p1, p2), TWO_64)
    ensures Value(Carries(p0, p1, p2), TWO_64)
         == (Value(p0, TWO_64) + Value(p1, TWO_64) * TWO_64 + Value(p2, TWO_64) * TWO_128) / TWO_128
  {
    var s0high := (p1.lo + p0.hi) % TWO_64;
    var c1 := if s0high < p1.lo then 1 else 0;
    CarryOut(p1.lo, p0.hi);
    var s1low := (p2.lo + p1.hi + c1) % TWO_64;
    var c2 := if s1low < p2.lo then 1 else 0;
    CarryOut(p2.lo, p1.hi + c1);
    SmallMod(p2.hi + c2, TWO_64);
    hide Value;
    var s := Wide(p2.hi + c2, s1low);
    assert Carries(p0, p1, p2) == s;
    hide Carries;
    CarriedSum(p0, p1, p2, c1, s0high, c2, s1low);
    ModUnique(Value(p0, TWO_64) + Value(p1, TWO_64) * TWO_64 + Value(p2, TWO_64) * TWO_128, TWO_128,
              Value(s, TWO_64), s0high * TWO_64 + p0.lo);
  }

  lemma CarriedSum(p0: Wide, p1: Wide, p2: Wide, c1: nat, s0: nat, c2: nat, s1: nat)
    requires p1.lo + p0.hi == c1 * TWO_64 + s0 && p2.lo + p1.hi + c1 == c2 * TWO_64 + s1
    ensures Value(p0, TWO_64) + Value(p1, TWO_64) * TWO_64 + Value(p2, TWO_64) * TWO_128
         == TWO_128 * Value(Wide(p2.hi + c2, s1), TWO_64) + (s0 * TWO_64 + p0.lo)
  {
    var low := Value(p0, TWO_64) + Value(p1, TWO_64) * TWO_64;
    assert low == p0.lo + (p1.lo + p0.hi) * TWO_64 + p1.hi * TWO_128;
    assert low == p0.lo + s0 * TWO_64 + (c1 + p1.hi) * TWO_128;
    assert Value(p2, TWO_64) + c1 + p1.hi == Value(Wide(p2.hi + c2, s1), TWO_64);
  }

  lemma CarryChainExact(m: Word, mul: Mul192)
    ensures Fits(CarryChain(m, mul), TWO_64)
    ensures Value(CarryChain(m, mul), TWO_64) == Above128(m, mul)
  {
    hide Umul128, Times, MulValue, Above128, Carries, Value;
    Above128Exact(m, mul);
    MulDistributes(m, mul);
    HighLimbBelow(m, mul.m0);
    HighLimbBelow(m, mul.m1);
    HighLimbBelow(m, mul.m2);
    CarriesExact(Umul128(m, mul.m0), Umul128(m, mul.m1), Umul128(m, mul.m2));
  }

  // ----- with 64-bit intrinsics -----

  /** umul256_hi128_lo64 */
  function Umul256Hi128Lo64(aHi: Word, aLo: Word, bHi: Word, bLo: Word): nat {
    ThirdLimb(Umul128(aLo, bLo), Umul128(aLo, bHi), Umul128(aHi, bLo), Umul128(aHi, bHi))
  }

  function ThirdLimb(b00: Wide, b01: Wide, b10: Wide, b11: Wide): nat {
    var temp1Lo := (b10.lo + b00.hi) % TWO_64;
    var temp1Hi := (b10.hi + (if temp1Lo < b10.lo then 1 else 0)) % TWO_64;
    var temp2Lo := (b01.lo + temp1Lo) % TWO_64;
    var temp2Hi := (b01.hi + (if temp2Lo < b01.lo then 1 else 0)) % TWO_64;
    (b11.lo + temp1Hi + temp2Hi) % TWO_64
  }

  lemma Umul256Hi128Lo64Exact(aHi: Word, aLo: Word, bHi: Word, bLo: Word)
    ensures Umul256Hi128Lo64(aHi, aLo, bHi, bLo)
         == Times(aHi * TWO_64 + aLo, bHi * TWO_64 + bLo) / TWO_128 % TWO_64
  {
    hide Umul128, Times, Value, ThirdLimb;
    HighLimbBelow(aLo, bLo);
    HighLimbBelow(aLo, bHi);
    HighLimbBelow(aHi, bLo);
    HighLimbBelow(aHi, bHi);
    LimbsDistribute(aHi, aLo, bHi, bLo);
    ThirdLimbExact(Umul128(aLo, bLo), Umul128(aLo, bHi), Umul128(aHi, bLo), Umul128(aHi, bHi));
  }

  lemma LimbsDistribute(aHi: Word, aLo: Word, bHi: Word, bLo: Word)
    ensures Times(aHi * TWO_64 + aLo, bHi * TWO_64 + bLo)
         == Times(aHi, bHi) * TWO_128 + (Times(aHi, bLo) + Times(aLo, bHi)) * TWO_64 + Times(aLo, bLo)
  {
    assert (aHi * TWO_64) * (bHi * TWO_64) == (aHi * bHi) * TWO_128;
    assert (aHi * TWO_64) * bLo == (aHi * bLo) * TWO_64;
    assert aLo * (bHi * TWO_64) == (aLo * bHi) * TWO_64;
    assert (aHi * TWO_64 + aLo) * (bHi * TWO_64 + bLo)
        == (aHi * TWO_64) * (bHi * TWO_64) + (aHi * TWO_64) * bLo + aLo * (bHi * TWO_64) + aLo * bLo;
  }

  lemma ThirdLimbExact(b00: Wide, b01: Wide, b10: Wide, b11: Wide)
    requires b00.hi < TWO_64 && b01.hi <= TWO_64 - 2 && b10.hi <= TWO_64 - 2
    requires b00.lo < TWO_64 && b01.lo < TWO_64 && b10.lo < TWO_64
    ensures ThirdLimb(b00, b01, b10, b11)
         == (Value(b11, TWO_64) * TWO_128 + (Value(b10, TWO_64) + Value(b01, TWO_64)) * TWO_64 + Value(b00, TWO_64))
            / TWO_128 % TWO_64
  {
    var t1 := (b10.lo + b00.hi) % TWO_64;
    var c1 := if t1 < b10.lo then 1 else 0;
    CarryOut(b10.lo, b00.hi);
    var t2 := (b01.lo + t1) % TWO_64;
    var c2 := if t2 < b01.lo then 1 else 0;
    CarryOut(b01.lo, t1);
    SmallMod(b10.hi + c1, TWO_64);
    SmallMod(b01.hi + c2, TWO_64);
    hide Value;
    var y := b11.lo + (b10.hi + c1) + (b01.hi + c2);
    assert ThirdLimb(b00, b01, b10, b11) == y % TWO_64;
    hide ThirdLimb;
    ColumnValues(b00, b01, b10, b11, c1, t1, c2, t2);
    var x := b11.hi * TWO_64 + y;
    ModUnique(Value(b11, TWO_64) * TWO_128 + (Value(b10, TWO_64) + Value(b01, TWO_64)) * TWO_64 + Value(b00, TWO_64),
              TWO_128, x, t2 * TWO_64 + b00.lo);
    ModUnique(x, TWO_64, b11.hi + y / TWO_64, y % TWO_64);
  }

  lemma ColumnValues(b00: Wide, b01: Wide, b10: Wide, b11: Wide, c1: nat, t1: nat, c2: nat, t2: nat)
    requires b10.lo + b00.hi == c1 * TWO_64 + t1 && b01.lo + t1 == c2 * TWO_64 + t2
    ensures Value(b11, TWO_64) * TWO_128 + (Value(b10, TWO_64) + Value(b01, TWO_64)) * TWO_64 + Value(b00, TWO_64)
         == TWO_128 * (b11.hi * TWO_64 + (b11.lo + (b10.hi + c1) + (b01.hi + c2))) + (t2 * TWO_64 + b00.lo)
  {
  }

  function Uint128Mod1e9Limbs(vHi: Word, vLo: Word): nat {
    var multiplied := Umul256Hi128Lo64(vHi, vLo, RECIPROCAL_HI, RECIPROCAL_LO);
    var shifted := multiplied / TWO_29 % TWO_32;
    (vLo % TWO_32 - E9 * shifted) % TWO_32
  }

  lemma ModOfSum(vHi: Word, vLo: Word)
    ensures (vHi * TWO_64 + vLo) % TWO_32 == vLo % TWO_32
  {
    ModUnique(vHi * TWO_64 + vLo, TWO_32, vHi * TWO_32 + vLo / TWO_32, vLo % TWO_32);
  }

  lemma Uint128Mod1e9LimbsExact(vHi: Word, vLo: Word)
    ensures Uint128Mod1e9Limbs(vHi, vLo) == (vHi * TWO_64 + vLo) % E9
  {
    hide Umul256, Umul256Hi128Lo64, Times;
    var v := vHi * TWO_64 + vLo;
    Umul256Hi128Lo64Exact(vHi, vLo, RECIPROCAL_HI, RECIPROCAL_LO);
    Umul256Exact(v, RECIPROCAL_HI, RECIPROCAL_LO);
    var p := Umul256(v, RECIPROCAL_HI, RECIPROCAL_LO);
    ModUnique(Times(v, RECIPROCAL_HI * TWO_64 + RECIPROCAL_LO), TWO_128, p.hi, p.lo);
    Uint128Mod1e9Exact(v);
    ModOfSum(vHi, vLo);
  }

  function MulShiftMod1e9Limbs(m: Word, mul: Mul192, j: nat): nat
    requires 128 <= j <= 180
  {
    var s1 := CarryChain(m, mul);
    var dist := j - 128;
    Uint128Mod1e9Limbs(ShiftRight(s1.hi, dist) % TWO_64, ShiftRight(Value(s1, TWO_64), dist) % TWO_64)
  }

  /** The high word of a shifted number is the shifted high word. */
  lemma ShiftedHigh(w: Wide, k: nat)
    requires Fits(w, TWO_64)
    ensures ShiftRight(w.hi, k) < TWO_64
    ensures ShiftRight(Value(w, TWO_64), k) / TWO_64 == ShiftRight(w.hi, k)
  {
    hide Pow2;
    var p := Pow2(k);
    DivDiv(Value(w, TWO_64), p, TWO_64);
    DivDiv(Value(w, TWO_64), TWO_64, p);
  }

  lemma MulShiftMod1e9LimbsExact(m: Word, mul: Mul192, j: nat)
    requires 128 <= j <= 180
    ensures MulShiftMod1e9Limbs(m, mul, j) == MulShiftSpec(m, mul, j)
  {
    hide Above128, Uint128Mod1e9, Uint128Mod1e9Limbs, ShiftRight, CarryChain, MulShiftSpec;
    CarryChainExact(m, mul);
    var s1 := CarryChain(m, mul);
    var v := ShiftRight(Value(s1, TWO_64), j - 128);
    ShiftedHigh(s1, j - 128);
    Uint128Mod1e9LimbsExact(ShiftRight(s1.hi, j - 128), v % TWO_64);
    MulShiftMod1e9Exact(m, mul, j);
    ShiftRightBelow(Above128(m, mul), j - 128);
    Above128Below(m, mul);
    Uint128Mod1e9Exact(v);
  }

  // ----- with 32-bit limbs -----

  function MulShiftMod1e9Narrow(m: Word, mul: Mul192, j: nat): nat
    requires 128 <= j <= 180
  {
    var s1 := CarryChain(m, mul);
    var r0 := Mod1e9(s1.hi % TWO_64);
    if j < 160 then
      var r1 := Mod1e9((r0 * TWO_32 + s1.lo / TWO_32) % TWO_64);
      var r2 := (r1 * TWO_32 + s1.lo % TWO_32) % TWO_64;
      Mod1e9(ShiftRight(r2, j - 128))
    else
      var r1 := (r0 * TWO_32 + s1.lo / TWO_32) % TWO_64;
      Mod1e9(ShiftRight(r1, j - 160))
  }

  /** Multiples of 10^9 * 2^32 do not matter to the remainder of a number shifted by at most
      32 bits. */
  lemma ShiftedRemainder(t: nat, r: nat, k: nat)
    requires k <= 32
    ensures ShiftRight(Times(E9 * TWO_32, t) + r, k) % E9 == ShiftRight(r, k) % E9
  {
    Pow2Values();
    Pow2Sum(k, 32 - k);
    hide Pow2;
    ScaledRemainder(t, r, Pow2(k), Pow2(32 - k));
  }

  lemma ScaledRemainder(t: nat, r: nat, p: nat, u: nat)
    requires p > 0 && p * u == TWO_32
    ensures Quotient(Times(E9 * TWO_32, t) + r, p) % E9 == Quotient(r, p) % E9
  {
    var q, l := r / p, r % p;
    DivSmaller(r, p);
    assert Times(E9 * TWO_32, t) + r == p * (E9 * (u * t) + q) + l by {
      assert r == p * q + l;
      assert (E9 * (p * u)) * t == p * (E9 * (u * t));
    }
    MulBelow(u, t, u, t);
    ModUnique(Times(E9 * TWO_32, t) + r, p, E9 * (u * t) + q, l);
    ModUnique(E9 * (u * t) + q, E9, u * t + q / E9, q % E9);
  }

  lemma {:induction false} Narrow(hi: Word, lo: Word, k: nat)
    requires k <= 52
    ensures var r0 := hi % E9;
            var r1 := r0 * TWO_32 + lo / TWO_32;
            if k < 32 then
              ShiftRight(hi * TWO_64 + lo, k) % E9 == ShiftRight(r1 % E9 * TWO_32 + lo % TWO_32, k) % E9
            else
              ShiftRight(hi * TWO_64 + lo, k) % E9 == ShiftRight(r1, k - 32) % E9
  {
    hide ShiftRight;
    var x := hi * TWO_64 + lo;
    var r0 := hi % E9;
    var r1 := r0 * TWO_32 + lo / TWO_32;
    var s := x / TWO_32;
    assert s == E9 * TWO_32 * (hi / E9) + r1;
    if k < 32 {
      var t := TWO_32 * (hi / E9) + r1 / E9;
      assert x == E9 * TWO_32 * t + (r1 % E9 * TWO_32 + lo % TWO_32);
      ShiftedRemainder(t, r1 % E9 * TWO_32 + lo % TWO_32, k);
    } else {
      ShiftRight32(x);
      ShiftRightSum(x, 32, k - 32);
      ShiftedRemainder(hi / E9, r1, k - 32);
    }
  }

  lemma ShiftRight32(x: nat)
    ensures ShiftRight(x, 32) == x / TWO_32
  {
    Pow2Values();
  }

  lemma NarrowBelow160(s1: Wide, k: nat)
    requires Fits(s1, TWO_64) && k < 32
    ensures var r1 := s1.hi % E9 * TWO_32 + s1.lo / TWO_32;
            var r2 := r1 % E9 * TWO_32 + s1.lo % TWO_32;
            && r1 < TWO_64 && Mod1e9(r1) == r1 % E9 && r2 < TWO_64 && ShiftRight(r2, k) < TWO_64
            && Mod1e9(ShiftRight(r2, k)) == ShiftRight(Value(s1, TWO_64), k) % E9
  {
    hide Mod1e9, ShiftRight;
    Narrow(s1.hi, s1.lo, k);
    var r1 := s1.hi % E9 * TWO_32 + s1.lo / TWO_32;
    Mod1e9Exact(r1);
    var r2 := r1 % E9 * TWO_32 + s1.lo % TWO_32;
    ShiftRightBelow(r2, k);
    Mod1e9Exact(ShiftRight(r2, k));
  }

  lemma NarrowFrom160(s1: Wide, k: nat)
    requires Fits(s1, TWO_64) && 32 <= k <= 52
    ensures var r1 := s1.hi % E9 * TWO_32 + s1.lo / TWO_32;
            && r1 < TWO_64 && ShiftRight(r1, k - 32) < TWO_64
            && Mod1e9(ShiftRight(r1, k - 32)) == ShiftRight(Value(s1, TWO_64), k) % E9
  {
    hide Mod1e9, ShiftRight;
    Narrow(s1.hi, s1.lo, k);
    var r1 := s1.hi % E9 * TWO_32 + s1.lo / TWO_32;
    ShiftRightBelow(r1, k - 32);
    Mod1e9Exact(ShiftRight(r1, k - 32));
  }

  lemma SpecFromAbove(m: Word, mul: Mul192, j: nat)
    requires 128 <= j <= 180
    ensures MulShiftSpec(m, mul, j) == ShiftRight(Above128(m, mul), j - 128) % E9
  {
    hide Above128, Uint128Mod1e9, ShiftRight, MulShiftSpec;
    MulShiftMod1e9Exact(m, mul, j);
    ShiftRightBelow(Above128(m, mul), j - 128);
    Above128Below(m, mul);
    Uint128Mod1e9Exact(ShiftRight(Above128(m, mul), j - 128));
  }

  lemma MulShiftMod1e9NarrowExact(m: Word, mul: Mul192, j: nat)
    requires 128 <= j <= 180
    ensures MulShiftMod1e9Narrow(m, mul, j) == MulShiftSpec(m, mul, j)
  {
    hide Above128, Mod1e9, ShiftRight, CarryChain, MulShiftSpec, Value;
    CarryChainExact(m, mul);
    SpecFromAbove(m, mul, j);
    var s1 := CarryChain(m, mul);
    Mod1e9Exact(s1.hi);
    if j < 160 { NarrowBelow160(s1, j - 128); } else { NarrowFrom160(s1, j - 128); }
  }
}
