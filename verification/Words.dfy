/** 64-bit words as numbers, with the operations that guest and host instructions are made
    of.  Wrap-around and truncation are written out. */
module Words {

  const TWO_8: nat := 0x100
  const TWO_32: nat := 0x1_0000_0000
  const TWO_63: nat := 0x8000_0000_0000_0000
  const TWO_64: nat := 0x1_0000_0000_0000_0000

  type Word = w: nat | w < TWO_64
  type Byte = b: nat | b < TWO_8

  function Pow2(n: nat): (p: nat)
    ensures p > 0
  {
    if n == 0 then 1 else 2 * Pow2(n - 1)
  }

  lemma {:induction false} Pow2Sum(a: nat, b: nat)
    ensures Pow2(a + b) == Pow2(a) * Pow2(b)
  {
    if a == 0 {
    } else {
      Pow2Sum(a - 1, b);
      assert Pow2(a + b) == 2 * Pow2((a - 1) + b);
    }
  }

  lemma {:induction false} Pow2Increasing(a: nat, b: nat)
    requires a < b
    ensures Pow2(a) < Pow2(b)
  {
    if a + 1 >= b {
    } else {
      Pow2Increasing(a, b - 1);
    }
  }

  lemma Pow2Values()
    ensures Pow2(8) == TWO_8 && Pow2(32) == TWO_32 && Pow2(64) == TWO_64
  {
    assert Pow2(8) == 256;
    Pow2Sum(8, 8);
    Pow2Sum(16, 16);
    Pow2Sum(32, 32);
  }

  // ----- bitwise operations on the lowest n bits -----

  function Bit(b: bool): nat { if b then 1 else 0 }

  function AndBits(n: nat, x: nat, y: nat): (r: nat)
    ensures r < Pow2(n)
  {
    if n == 0 then 0 else Bit(x % 2 == 1 && y % 2 == 1) + 2 * AndBits(n - 1, x / 2, y / 2)
  }

  function OrBits(n: nat, x: nat, y: nat): (r: nat)
    ensures r < Pow2(n)
  {
    if n == 0 then 0 else Bit(x % 2 == 1 || y % 2 == 1) + 2 * OrBits(n - 1, x / 2, y / 2)
  }

  function XorBits(n: nat, x: nat, y: nat): (r: nat)
    ensures r < Pow2(n)
  {
    if n == 0 then 0 else Bit((x % 2 == 1) != (y % 2 == 1)) + 2 * XorBits(n - 1, x / 2, y / 2)
  }

  lemma {:induction false} AndCommutes(n: nat, x: nat, y: nat)
    ensures AndBits(n, x, y) == AndBits(n, y, x)
  {
    if n == 0 {
    } else {
      AndCommutes(n - 1, x / 2, y / 2);
    }
  }

  lemma {:induction false} OrCommutes(n: nat, x: nat, y: nat)
    ensures OrBits(n, x, y) == OrBits(n, y, x)
  {
    if n == 0 {
    } else {
      OrCommutes(n - 1, x / 2, y / 2);
    }
  }

  lemma {:induction false} XorCommutes(n: nat, x: nat, y: nat)
    ensures XorBits(n, x, y) == XorBits(n, y, x)
  {
    if n == 0 {
    } else {
      XorCommutes(n - 1, x / 2, y / 2);
    }
  }

  /** Masking with 2^k - 1 is the remainder. */
  lemma {:induction false} MaskIsMod(n: nat, k: nat, x: nat)
    requires k <= n
    ensures AndBits(n, x, Pow2(k) - 1) == x % Pow2(k)
  {
    hide AndBits, Pow2;
    if k == 0 {
      MaskNone(n, x);
    } else {
      MaskIsMod(n - 1, k - 1, x / 2);
      Pow2Step(k);
      MaskStep(n, x, Pow2(k - 1), Pow2(k));
    }
  }

  lemma MaskNone(n: nat, x: nat)
    ensures AndBits(n, x, Pow2(0) - 1) == x % Pow2(0)
  {
    AndZero(n, x);
  }

  lemma Pow2Step(k: nat)
    requires k > 0
    ensures Pow2(k) == 2 * Pow2(k - 1)
  {
  }

  lemma MaskStep(n: nat, x: nat, p: nat, p2: nat)
    requires n > 0 && p > 0 && p2 == 2 * p && AndBits(n - 1, x / 2, p - 1) == x / 2 % p
    ensures AndBits(n, x, p2 - 1) == x % p2
  {
    hide Pow2;
    HalfMod(x, p);
    assert (2 * p - 1) % 2 == 1 && (2 * p - 1) / 2 == p - 1;
  }

  lemma HalfMod(x: nat, p: nat)
    requires p > 0
    ensures x % (2 * p) == x % 2 + 2 * (x / 2 % p)
  {
    var q, r := x / 2 / p, x / 2 % p;
    assert x == (2 * p) * q + (x % 2 + 2 * r) by {
      assert x / 2 == p * q + r;
      assert x == 2 * (x / 2) + x % 2;
    }
    ModUnique(x, 2 * p, q, x % 2 + 2 * r);
  }

  lemma MulMonotone(a: int, b: int, c: int)
    requires a <= b && 0 <= c
    ensures c * a <= c * b
  {
  }

  /** Division with remainder is unique. */
  lemma ModUnique(x: int, d: int, q: int, r: int)
    requires d > 0 && x == d * q + r && 0 <= r < d
    ensures x / d == q && x % d == r
  {
    var q' := x / d;
    var r' := x % d;
    assert x == d * q' + r' && 0 <= r' < d;
    assert d * (q + 1) == d * q + d && d * (q' + 1) == d * q' + d;
    if q' >= q + 1 { MulMonotone(q + 1, q', d); }
    if q' + 1 <= q { MulMonotone(q' + 1, q, d); }
  }

  lemma {:induction false} AndZero(n: nat, x: nat)
    ensures AndBits(n, x, 0) == 0
  {
    if n == 0 {
    } else {
      AndZero(n - 1, x / 2);
    }
  }

  lemma {:induction false} AndSelf(n: nat, x: nat)
    requires x < Pow2(n)
    ensures AndBits(n, x, x) == x
  {
    if n == 0 {
    } else {
      AndSelf(n - 1, x / 2);
    }
  }

  lemma {:induction false} XorSelf(n: nat, x: nat)
    ensures XorBits(n, x, x) == 0
  {
    if n == 0 {
    } else {
      XorSelf(n - 1, x / 2);
    }
  }

  /** Exclusive or with all ones is the complement. */
  lemma {:induction false} XorOnes(n: nat, x: nat)
    requires x < Pow2(n)
    ensures XorBits(n, x, Pow2(n) - 1) == Pow2(n) - 1 - x
  {
    if n == 0 {
    } else {
      XorOnes(n - 1, x / 2);
      XorStep(n, x, Pow2(n - 1));
    }
  }

  lemma XorStep(n: nat, x: nat, p: nat)
    requires n > 0 && p > 0 && XorBits(n - 1, x / 2, p - 1) == p - 1 - x / 2
    ensures XorBits(n, x, 2 * p - 1) == 2 * p - 1 - x
  {
    hide Pow2;
    assert (2 * p - 1) % 2 == 1 && (2 * p - 1) / 2 == p - 1;
  }

  // ----- word operations -----

  function Add(a: Word, b: Word): Word { (a + b) % TWO_64 }
  function Sub(a: Word, b: Word): Word { (a - b) % TWO_64 }
  function Mul(a: Word, b: Word): Word { (a * b) % TWO_64 }
  function Not(a: Word): Word { TWO_64 - 1 - a }
  function And(a: Word, b: Word): Word { Pow2Values(); AndBits(64, a, b) }
  function Or(a: Word, b: Word): Word { Pow2Values(); OrBits(64, a, b) }
  function Xor(a: Word, b: Word): Word { Pow2Values(); XorBits(64, a, b) }

  /** Shifts take the low six bits of the count, as both architectures do. */
  function Shl(a: Word, n: Word): Word { a * Pow2(n % 64) % TWO_64 }
  function Shr(a: Word, n: Word): Word { Quotient(a, Pow2(n % 64)) }

  function Quotient(a: nat, p: nat): (q: nat)
    requires p > 0
    ensures q <= a
  {
    DivSmaller(a, p);
    a / p
  }

  lemma DivSmaller(a: nat, p: nat)
    requires p > 0
    ensures 0 <= a / p <= a
  {
    var q, r := a / p, a % p;
    assert a == p * q + r;
    if q < 0 { MulMonotone(q, -1, p); }
    if q > 0 { MulMonotone(1, p, q); }
  }

  lemma DivDiv(x: nat, a: nat, b: nat)
    requires a > 0 && b > 0
    ensures a * b > 0 && x / a / b == x / (a * b)
  {
    var q, r := x / a, x % a;
    DivSmaller(x, a);
    var q', r' := q / b, q % b;
    DivSmaller(q, b);
    Regroup(x, a, b, q', r', r);
    ModUnique(x, a * b, q', a * r' + r);
  }

  lemma Regroup(x: nat, a: nat, b: nat, q: nat, r': nat, r: nat)
    requires x == a * (b * q + r') + r && r < a && r' < b
    ensures a * b > 0 && x == (a * b) * q + (a * r' + r) && 0 <= a * r' + r < a * b
  {
    assert a * (b * q + r') == (a * b) * q + a * r';
    MulMonotone(r' + 1, b, a);
    assert a * (r' + 1) == a * r' + a;
    MulMonotone(0, r', a);
  }

  lemma SmallMod(x: nat, w: nat)
    requires x < w
    ensures x % w == x
  {
    ModUnique(x, w, 0, x);
  }

  lemma QuotientBelow(d: nat, p: nat, hi: nat)
    requires p > 0 && d < p * hi
    ensures 0 <= d / p < hi
  {
    DivSmaller(d, p);
    if d / p >= hi { MulMonotone(hi, d / p, p); }
  }

  lemma QuotientAtLeast(d: nat, p: nat, lo: nat)
    requires p > 0 && p * lo <= d
    ensures lo <= d / p
  {
    DivSmaller(d, p);
    var q := d / p;
    assert p * (q + 1) == p * q + p;
    if q + 1 <= lo { MulMonotone(q + 1, lo, p); }
  }

  /** Two's complement reading of a word. */
  function Signed(a: Word): int { if a < TWO_63 then a else a - TWO_64 }

  function Low8(w: Word): Word { w % TWO_8 }

  function Low32(w: Word): Word { w % TWO_32 }

  /** Sign extension of the lower half. */
  function Sx32(w: Word): Word { if Low32(w) < 0x8000_0000 then Low32(w) else Low32(w) + (TWO_64 - TWO_32) }

  function Bool(b: bool): Word { if b then 1 else 0 }

  function SetLowByte(w: Word, b: bool): Word { w - w % TWO_8 + Bool(b) }

  // ----- the identities behind the fused sequences -----

  /** Shifting left by 32 keeps the lower half only. */
  lemma ShlBy32(x: Word)
    ensures Shl(x, 32) == Low32(x) * TWO_32
  {
    Pow2Values();
    var h, l := x / TWO_32, x % TWO_32;
    assert x * TWO_32 == TWO_64 * h + l * TWO_32;
    ModUnique(x * TWO_32, TWO_64, h, l * TWO_32);
  }

  lemma ShiftUpDown(x: Word)
    ensures Shr(Shl(x, 32), 32) == Low32(x)
  {
    Pow2Values();
    ShlBy32(x);
  }

  lemma ShiftUpDownLess(x: Word, k: Word)
    requires k < 32
    ensures Shr(Shl(x, 32), k) == Shl(Low32(x), 32 - k)
  {
    Pow2Values();
    Pow2Sum(32 - k, k);
    if k > 0 { Pow2Increasing(32 - k, 32); }
    hide *;
    ShlBy32(x);
    ShrDivides(Shl(x, 32), k);
    ShiftDivides(Low32(x), Pow2(k), Pow2(32 - k));
    LowBelow(x);
    ShlSmall(Low32(x), 32 - k);
  }

  lemma LowBelow(x: Word)
    ensures Low32(x) < TWO_32
  {
  }

  lemma ShlSmall(l: Word, n: Word)
    requires l < TWO_32 && n < 64 && Pow2(n) <= TWO_32
    ensures Shl(l, n) == l * Pow2(n)
  {
    hide Pow2;
    assert n % 64 == n;
    SmallProduct(l, Pow2(n));
  }

  lemma SmallProduct(l: nat, u: nat)
    requires l < TWO_32 && u <= TWO_32
    ensures 0 <= l * u < TWO_64 && l * u % TWO_64 == l * u
  {
    MulMonotone(u, TWO_32, l);
    MulMonotone(l, TWO_32 - 1, TWO_32);
  }

  lemma ShiftDivides(l: nat, p: nat, u: nat)
    requires p > 0 && u * p == TWO_32
    ensures Quotient(l * TWO_32, p) == l * u
  {
    assert l * TWO_32 == p * (l * u) by {
      assert l * (u * p) == p * (l * u);
    }
    ModUnique(l * TWO_32, p, l * u, 0);
  }

  lemma ShiftUpDownMore(x: Word, k: Word)
    requires 32 <= k < 64
    ensures Shr(Shl(x, 32), k) == Shr(Low32(x), k - 32)
  {
    Pow2Values();
    ShlBy32(x);
    Pow2Sum(32, k - 32);
    hide *;
    ScaledDivision(Low32(x), Pow2(k - 32));
    ShrDivides(Shl(x, 32), k);
    ShrDivides(Low32(x), k - 32);
  }

  lemma ShrDivides(x: Word, k: Word)
    requires k < 64
    ensures Shr(x, k) == Quotient(x, Pow2(k))
  {
    hide Quotient, Pow2;
    assert k % 64 == k;
  }

  lemma ScaledDivision(l: nat, p: nat)
    requires p > 0
    ensures TWO_32 * p > 0 && Quotient(l * TWO_32, TWO_32 * p) == Quotient(l, p)
  {
    var q, r := l / p, l % p;
    assert l == p * q + r;
    assert l * TWO_32 == (TWO_32 * p) * q + r * TWO_32 by {
      assert (TWO_32 * p) * q == TWO_32 * (p * q);
    }
    ModUnique(l * TWO_32, TWO_32 * p, q, r * TWO_32);
  }

  lemma LowOfExtended(x: Word)
    ensures Low32(Sx32(x)) == Low32(x)
  {
  }

  lemma ZeroExtendSum(x: Word, k: Word)
    ensures Shr(Shl(Sx32(Add(x, k)), 32), 32) == Low32(Add(x, k))
  {
    var y := Add(x, k);
    hide *;
    ShiftUpDown(Sx32(y));
    LowOfExtended(y);
  }

  lemma MaskLow8(x: Word)
    ensures And(x, 0xFF) == Low8(x)
  {
    Pow2Values();
    MaskIsMod(64, 8, x);
  }

  lemma LowByteOfSum(x: Word, k: Word)
    ensures And(Sx32(Add(x, k)), 0xFF) == Low8(Low32(Add(x, k)))
  {
    MaskLow8(Sx32(Add(x, k)));
  }

  lemma Low32OfSum(x: Word, k: Word)
    ensures Low32(Add(Low32(x), k)) == Low32(Add(x, k))
  {
    LowOfMod(Low32(x) + k);
    LowOfMod(x + k);
    SameRemainder(x + k, Low32(x) + k, x / TWO_32);
  }

  lemma LowIdempotent(x: Word)
    ensures Sx32(Low32(x)) == Sx32(x)
  {
  }

  lemma LowOfMod(a: int)
    ensures a % TWO_64 % TWO_32 == a % TWO_32
  {
  }

  lemma NegatedLow(x: Word)
    ensures Sx32(Low32(Sub(0, Low32(x)))) == Sx32(Sub(0, x))
  {
    LowOfNegated(x);
    hide *;
    LowIdempotent(Sub(0, Low32(x)));
    LowIdempotent(Sub(0, x));
  }

  lemma LowOfNegated(x: Word)
    ensures Low32(Sub(0, Low32(x))) == Low32(Sub(0, x))
  {
    var h, l := x / TWO_32, x % TWO_32;
    assert 0 - x == TWO_32 * (0 - h) + (0 - l);
    LowOfMod(0 - x);
    LowOfMod(0 - l);
    SameRemainder(0 - x, 0 - l, 0 - h);
  }

  lemma SameRemainder(a: int, b: int, k: int)
    requires a == TWO_32 * k + b
    ensures a % TWO_32 == b % TWO_32
  {
    ModUnique(a, TWO_32, k + b / TWO_32, b % TWO_32);
  }

  lemma ByteOfFlag(w: Word, b: bool)
    ensures Low8(SetLowByte(w, b)) == Bool(b)
  {
  }

  lemma LowOfLow(x: Word)
    ensures Low32(Low32(x)) == Low32(x)
  {
  }

  lemma AndWithSelf(x: Word)
    ensures And(x, x) == x
  {
    Pow2Values();
    AndSelf(64, x);
  }

  lemma NotByXor(x: Word)
    ensures Xor(x, TWO_64 - 1) == Not(x)
  {
    Pow2Values();
    XorOnes(64, x);
  }

  /** Only the lower half matters to a mask below 2^32. */
  lemma {:induction false} NarrowAnd(n: nat, k: nat, x: nat, y: nat)
    requires k <= n && y < Pow2(k)
    ensures AndBits(n, x, y) == AndBits(k, x, y) == AndBits(k, x % Pow2(k), y)
  {
    if k == 0 {
      AndZero(n, x);
    } else {
      NarrowAnd(n - 1, k - 1, x / 2, y / 2);
      HalfMod(x, Pow2(k - 1));
      HalfOfMod(x, Pow2(k - 1), Pow2(k));
    }
  }

  lemma HalfOfMod(x: nat, p: nat, p2: nat)
    requires p > 0 && p2 == 2 * p
    ensures x % p2 % 2 == x % 2 && x % p2 / 2 == x / 2 % p
  {
    HalfMod(x, p);
  }

  lemma AndBelow32(x: Word, y: Word)
    requires y < TWO_32
    ensures Low32(And(Low32(x), y)) == Low32(And(x, y)) == And(x, y)
  {
    Pow2Values();
    hide Pow2, AndBits;
    NarrowAnd(64, 32, x, y);
    NarrowAnd(64, 32, Low32(x), y);
    SmallMod(And(x, y), TWO_32);
  }

  lemma SubByNegation(a: Word, b: Word)
    ensures Add(Sub(0, b), a) == Sub(a, b)
  {
  }

  lemma SubLow(a: Word, b: Word)
    ensures Sx32(Low32(Add(Low32(Sub(0, b)), a))) == Sx32(Sub(a, b))
  {
    hide Sx32, Low32, Add, Sub;
    Low32OfSum(Sub(0, b), a);
    SubByNegation(a, b);
    LowIdempotent(Sub(a, b));
  }

  // ----- what the operations mean -----

  /** Bit k of a number. */
  predicate BitAt(x: nat, k: nat) { x / Pow2(k) % 2 == 1 }

  lemma BitOfHalf(x: nat, k: nat)
    requires k > 0
    ensures BitAt(x, k) == BitAt(x / 2, k - 1)
  {
    DivDiv(x, 2, Pow2(k - 1));
  }

  lemma HalfOf(b: bool, r: nat)
    ensures (Bit(b) + 2 * r) / 2 == r && ((Bit(b) + 2 * r) % 2 == 1 <==> b)
  {
  }

  /** The bitwise operations work on each bit of its own. */
  lemma {:induction false} BitsExact(n: nat, x: nat, y: nat, k: nat)
    requires k < n
    ensures BitAt(AndBits(n, x, y), k) == (BitAt(x, k) && BitAt(y, k))
    ensures BitAt(OrBits(n, x, y), k) == (BitAt(x, k) || BitAt(y, k))
    ensures BitAt(XorBits(n, x, y), k) == (BitAt(x, k) != BitAt(y, k))
  {
    HalfOf(x % 2 == 1 && y % 2 == 1, AndBits(n - 1, x / 2, y / 2));
    HalfOf(x % 2 == 1 || y % 2 == 1, OrBits(n - 1, x / 2, y / 2));
    HalfOf((x % 2 == 1) != (y % 2 == 1), XorBits(n - 1, x / 2, y / 2));
    var a, o, z := AndBits(n, x, y), OrBits(n, x, y), XorBits(n, x, y);
    if k == 0 {
      BitZero(x);
      BitZero(y);
      BitZero(a);
      BitZero(o);
      BitZero(z);
    } else {
      BitsExact(n - 1, x / 2, y / 2, k - 1);
      BitOfHalf(x, k);
      BitOfHalf(y, k);
      BitOfHalf(a, k);
      BitOfHalf(o, k);
      BitOfHalf(z, k);
    }
    hide BitAt, Bit, Pow2;
  }

  lemma BitZero(x: nat)
    ensures BitAt(x, 0) == (x % 2 == 1)
  {
    assert Pow2(0) == 1;
  }

  /** Reading a word as a signed number, and extending the sign of its lower half. */
  lemma SignsExact(w: Word)
    ensures -0x8000_0000_0000_0000 <= Signed(w) < 0x8000_0000_0000_0000 && Signed(w) % TWO_64 == w
    ensures -0x8000_0000 <= Signed(Sx32(w)) < 0x8000_0000 && Signed(Sx32(w)) % TWO_32 == w % TWO_32
  {
    var low := Low32(w);
    if low >= 0x8000_0000 { assert Signed(Sx32(w)) == low - TWO_32; }
  }
}
