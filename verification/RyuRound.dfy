/** The rounding stage of Ryu's fixed notation: which way to round, and the carry through the
    character buffer (round half to even, section 4.3.1 of IEEE 754-2008). */
module RyuRound {
  import opened Words
  import opened RyuDigits

  // ----- the tie test -----

  /** multipleOfPowerOf2 */
  predicate MultipleOfPowerOf2(value: Word, p: nat)
    requires value != 0 && p < 64
  {
    AndBits(64, value, Pow2(p) - 1) == 0
  }

  lemma MultipleOfPowerOf2Exact(value: Word, p: nat)
    requires value != 0 && p < 64
    ensures MultipleOfPowerOf2(value, p) <==> value % Pow2(p) == 0
  {
    MaskIsMod(64, p, value);
  }

  predicate TrailingZeros(m2: Word, e2: int, precision: nat)
    requires m2 != 0
  {
    var requiredTwos := -e2 - precision - 1;
    requiredTwos <= 0 || (requiredTwos < 60 && MultipleOfPowerOf2(m2, requiredTwos))
  }

  function Pow5(n: nat): (p: nat)
    ensures p > 0
  {
    if n == 0 then 1 else 5 * Pow5(n - 1)
  }

  lemma {:induction false} Pow10Factors(n: nat)
    ensures Pow10(n) == Pow2(n) * Pow5(n)
  {
    if n == 0 {
    } else {
      Pow10Factors(n - 1);
      assert (2 * Pow2(n - 1)) * (5 * Pow5(n - 1)) == 10 * (Pow2(n - 1) * Pow5(n - 1));
    }
  }

  lemma {:induction false} Pow5Odd(n: nat)
    ensures Pow5(n) % 2 == 1
  {
    if n == 0 {
    } else {
      Pow5Odd(n - 1);
      OddProduct(Pow5(n - 1), 5);
    }
  }

  lemma Multiple(x: nat, d: nat, q: int)
    requires d > 0 && x == d * q
    ensures x % d == 0
  {
    ModUnique(x, d, q, 0);
  }

  /** Common factors cancel. */
  lemma CancelFactor(x: nat, d: nat, p: nat)
    requires d > 0 && p > 0
    ensures 0 <= p * x && p * d > 0 && ((p * x) % (p * d) == 0 <==> x % d == 0)
  {
    MulMonotone(0, x, p);
    var q, r := x / d, x % d;
    assert p * x == (p * d) * q + p * r by { assert p * (d * q + r) == (p * d) * q + p * r; }
    MulMonotone(0, r, p);
    MulMonotone(r + 1, d, p);
    assert p * (r + 1) == p * r + p;
    ModUnique(p * x, p * d, q, p * r);
    if r > 0 { MulMonotone(1, r, p); }
  }

  /** An odd factor does not matter to divisibility by a power of two. */
  lemma {:induction false} OddFactor(m: nat, a: nat, r: nat)
    requires a % 2 == 1
    ensures 0 <= m * a && ((m * a) % Pow2(r) == 0 <==> m % Pow2(r) == 0)
  {
    MulMonotone(0, m, a);
    if r > 0 {
      if m % 2 == 0 {
        var h := m / 2;
        OddFactor(h, a, r - 1);
        CancelFactor(h, Pow2(r - 1), 2);
        CancelFactor(h * a, Pow2(r - 1), 2);
        assert m * a == 2 * (h * a);
      } else {
        OddProduct(m, a);
        OddNotMultiple(m, Pow2(r - 1));
        OddNotMultiple(m * a, Pow2(r - 1));
      }
    }
  }

  lemma OddProduct(m: nat, a: nat)
    requires m % 2 == 1 && a % 2 == 1
    ensures (m * a) % 2 == 1
  {
    var h := a / 2;
    assert m * a == 2 * (m * h) + m;
  }

  lemma EvenMultiple(x: int, p: nat, q: int)
    requires x == (2 * p) * q
    ensures x % 2 == 0
  {
    assert x == 2 * (p * q);
  }

  lemma OddNotMultiple(x: int, p: nat)
    requires x % 2 == 1 && p > 0
    ensures x % (2 * p) != 0
  {
    if x % (2 * p) == 0 { EvenMultiple(x, p, x / (2 * p)); }
  }

  /** The tie test is exact: it holds if and only if m2 * 10^(precision + 1) * 2^e2 is an
      integer.  The cut-off at 60 loses nothing because m2 has at most 53 bits. */
  lemma TieTestExact(m2: Word, e2: int, precision: nat)
    requires 0 < m2 < Pow2(53) && e2 < 0
    ensures TrailingZeros(m2, e2, precision) <==> (m2 * Pow10(precision + 1)) % Pow2(-e2) == 0
  {
    var k, n := precision + 1, -e2;
    hide Pow2, Pow10, MultipleOfPowerOf2;
    if n <= k {
      EnoughTwos(m2, k, n);
    } else {
      MissingTwos(m2, k, n);
      if n - k < 60 {
        MultipleOfPowerOf2Exact(m2, n - k);
      } else {
        Pow2Increasing(53, n - k);
        SmallMod(m2, Pow2(n - k));
      }
    }
  }

  lemma Regrouped(m: nat, k: nat)
    ensures 0 <= m * Pow5(k) && m * Pow10(k) == Pow2(k) * (m * Pow5(k))
  {
    Pow10Factors(k);
    hide Pow2, Pow5, Pow10;
    MulMonotone(0, m, Pow5(k));
    assert m * (Pow2(k) * Pow5(k)) == Pow2(k) * (m * Pow5(k));
  }

  lemma EnoughTwos(m: nat, k: nat, n: nat)
    requires n <= k
    ensures (m * Pow10(k)) % Pow2(n) == 0
  {
    Regrouped(m, k);
    Pow2Sum(n, k - n);
    hide Pow2, Pow5, Pow10;
    assert n + (k - n) == k;
    MultipleOfProduct(m * Pow10(k), Pow2(k), Pow2(n), Pow2(k - n), m * Pow5(k));
  }

  lemma MultipleOfProduct(y: nat, p: nat, a: nat, b: nat, x: nat)
    requires y == p * x && p == a * b && a > 0
    ensures y % a == 0
  {
    assert (a * b) * x == a * (b * x);
    Multiple(y, a, b * x);
  }

  lemma MissingTwos(m: nat, k: nat, n: nat)
    requires n > k
    ensures (m * Pow10(k)) % Pow2(n) == 0 <==> m % Pow2(n - k) == 0
  {
    Regrouped(m, k);
    Pow2Sum(k, n - k);
    Pow5Odd(k);
    hide Pow2, Pow5, Pow10;
    CancelFactor(m * Pow5(k), Pow2(n - k), Pow2(k));
    OddFactor(m, Pow5(k), n - k);
  }

  // ----- the direction of rounding -----

  datatype Direction = Down | Up | ToEven

  /** The choice of roundUp from the first digit dropped. */
  function RoundUp(lastDigit: nat, m2: Word, e2: int, precision: nat): Direction
    requires m2 != 0
  {
    if lastDigit != 5 then (if lastDigit > 5 then Up else Down)
    else if TrailingZeros(m2, e2, precision) then ToEven
    else Up
  }

  /** The direction for a remainder r of a division by d. */
  function Half(r: nat, d: nat): Direction {
    if 2 * r < d then Down else if 2 * r > d then Up else ToEven
  }

  /** The digit after the last one kept, as a part of the remainder. */
  lemma FirstDropped(n: nat, d: nat)
    requires d > 0
    ensures 0 <= 10 * n / d && 10 * n / d % 10 == 10 * (n % d) / d
    ensures (10 * n) % d == (10 * (n % d)) % d
  {
    DivSmaller(n, d);
    FirstDigitOf(n, d, n / d, n % d);
  }

  lemma FirstDigitOf(n: nat, d: nat, q: nat, r: nat)
    requires n == d * q + r && r < d
    ensures 0 <= 10 * n / d && 10 * n / d % 10 == 10 * r / d && (10 * n) % d == (10 * r) % d
  {
    DivSmaller(10 * r, d);
    QuotientBelow(10 * r, d, 10);
    TenfoldDivision(n, d, q, r, 10 * r / d, 10 * r % d);
  }

  lemma TenfoldDivision(n: nat, d: nat, q: nat, r: nat, h: nat, l: nat)
    requires n == d * q + r && 10 * r == d * h + l && l < d && h < 10
    ensures 10 * n / d == 10 * q + h && (10 * n) % d == l
  {
    assert d * (10 * q + h) == 10 * (d * q) + d * h;
    ModUnique(10 * n, d, 10 * q + h, l);
  }

  lemma HalfByDigit(r: nat, d: nat)
    requires r < d
    ensures var h := 10 * r / d;
            && (h < 5 ==> 2 * r < d) && (h > 5 ==> 2 * r > d)
            && (h == 5 ==> if (10 * r) % d == 0 then 2 * r == d else 2 * r > d)
  {
    var h, l := 10 * r / d, 10 * r % d;
    assert 10 * r == d * h + l;
    if h < 5 { MulMonotone(h, 4, d); }
    if h > 5 { MulMonotone(6, h, d); }
  }

  /** For the value m2 * 10^precision * 2^e2 cut to an integer: rounding goes down below one
      half, up above one half, and to even exactly on a tie. */
  lemma DirectionExact(m2: Word, e2: int, precision: nat, lastDigit: nat)
    requires 0 < m2 < Pow2(53) && e2 < 0
    requires 0 <= m2 * Pow10(precision) && 0 <= 10 * (m2 * Pow10(precision)) / Pow2(-e2)
    requires lastDigit == 10 * (m2 * Pow10(precision)) / Pow2(-e2) % 10
    ensures RoundUp(lastDigit, m2, e2, precision) == Half((m2 * Pow10(precision)) % Pow2(-e2), Pow2(-e2))
  {
    TieTestExact(m2, e2, precision);
    NextPower(m2, precision);
    hide Pow2, Pow10, TrailingZeros;
    var n, d := m2 * Pow10(precision), Pow2(-e2);
    FirstDropped(n, d);
    HalfByDigit(n % d, d);
  }

  lemma NextPower(m: nat, k: nat)
    ensures m * Pow10(k + 1) == 10 * (m * Pow10(k))
  {
    assert m * (10 * Pow10(k)) == 10 * (m * Pow10(k));
  }

  function Rounded(v: nat, dir: Direction): nat {
    match dir
    case Down => v
    case Up => v + 1
    case ToEven => if v % 2 == 0 then v else v + 1
  }

  lemma RoundedUp(v: nat, dir: Direction)
    ensures dir == Up || (dir == ToEven && v % 2 == 1) ==> Rounded(v, dir) == v + 1
  {
  }

  /** A decimal that is as near as can be to n/d, and even if there are two such. */
  predicate NearestTo(r: nat, n: nat, d: nat)
    requires d > 0
  {
    var off: int := 2 * (r * d - n);
    -(d as int) <= off <= d && (off == -(d as int) || off == d ==> r % 2 == 0)
  }

  /** Cutting n/d and adjusting in the right direction is rounding to nearest, ties to even. */
  lemma NearestEven(n: nat, d: nat)
    requires d > 0 && 0 <= n / d
    ensures NearestTo(Rounded(n / d, Half(n % d, d)), n, d)
  {
    var q := n / d;
    assert n == d * q + n % d;
    assert (q + 1) * d == d * q + d;
  }

  /** The loop in front: drops the digits behind the precision and keeps the first of them. */
  method DropDigits(digits: nat, maximum: nat) returns (rest: nat, lastDigit: nat)
    requires maximum < 9
    ensures rest == Upper(digits, 9 - maximum) && lastDigit == Upper(digits, 8 - maximum) % 10
  {
    hide Upper;
    UpperOne(digits);
    rest, lastDigit := digits, 0;
    for k := 0 to 9 - maximum
      invariant rest == Upper(digits, k) && (k > 0 ==> lastDigit == Upper(digits, k - 1) % 10)
    {
      NextPair(digits, k);
      lastDigit := rest % 10;
      rest := rest / 10;
    }
  }

  // ----- numbers as text -----

  /** The number that the digits of a text denote; a sign and a dot are passed over. */
  function Number(s: string): nat {
    if s == "" then 0
    else if IsDigit(s[|s| - 1]) then 10 * Number(s[..|s| - 1]) + DigitValue(s[|s| - 1])
    else Number(s[..|s| - 1])
  }

  function Digits(s: string): nat {
    if s == "" then 0 else Digits(s[..|s| - 1]) + (if IsDigit(s[|s| - 1]) then 1 else 0)
  }

  /** Where the text of a number has its parts: [-]digits[.digits] */
  datatype Layout = Layout(sign: bool, whole: nat, frac: nat) {
    function Start(): nat { if sign then 1 else 0 }
    function Dot(): nat { Start() + whole }
    function Length(): nat { Dot() + if frac > 0 then 1 + frac else 0 }
  }

  predicate Shape(s: string, l: Layout) {
    && l.whole > 0 && |s| == l.Length() && (l.sign ==> s[0] == '-')
    && (forall k :: l.Start() <= k < |s| && k != l.Dot() ==> IsDigit(s[k]))
    && (l.frac > 0 ==> s[l.Dot()] == '.')
  }

  predicate NineOrDot(s: string) { forall k :: 0 <= k < |s| ==> s[k] == '9' || s[k] == '.' }

  predicate ZeroOrDot(s: string) { forall k :: 0 <= k < |s| ==> s[k] == '0' || s[k] == '.' }

  function Zeroed(s: string): (z: string)
    ensures |z| == |s|
  {
    seq(|s|, k requires 0 <= k < |s| => if IsDigit(s[k]) then '0' else s[k])
  }

  lemma NumberLast(s: string, c: char)
    ensures Number(s + [c]) == if IsDigit(c) then 10 * Number(s) + DigitValue(c) else Number(s)
    ensures Digits(s + [c]) == Digits(s) + if IsDigit(c) then 1 else 0
  {
    assert (s + [c])[..|s|] == s;
  }

  lemma BehindNothing(a: string)
    ensures a + "" == a && Digits("") == 0 && Pow10(0) == 1
  {
  }

  lemma CharValue(c: char)
    ensures c == '9' ==> IsDigit(c) && DigitValue(c) == 9
    ensures c == '0' ==> IsDigit(c) && DigitValue(c) == 0
    ensures c == '.' ==> !IsDigit(c)
  {
  }

  /** Nines behind a number: one less than the next number with zeros. */
  lemma {:induction false} NinesBehind(a: string, b: string)
    requires NineOrDot(b)
    ensures Number(a + b) + 1 == (Number(a) + 1) * Pow10(Digits(b))
  {
    hide Number, Digits, Pow10, IsDigit;
    BehindNothing(a);
    if b == "" {
    } else {
      var n := |b| - 1;
      NinesBehind(a, b[..n]);
      assert a + b == (a + b[..n]) + [b[n]] && b == b[..n] + [b[n]];
      NumberLast(a + b[..n], b[n]);
      NumberLast(b[..n], b[n]);
      CharValue(b[n]);
      TenTimes(Number(a) + 1, Digits(b[..n]));
    }
  }

  lemma {:induction false} ZerosBehind(a: string, b: string)
    requires ZeroOrDot(b)
    ensures Number(a + b) == Number(a) * Pow10(Digits(b))
  {
    hide Number, Digits, Pow10, IsDigit;
    BehindNothing(a);
    if b == "" {
    } else {
      var n := |b| - 1;
      ZerosBehind(a, b[..n]);
      assert a + b == (a + b[..n]) + [b[n]] && b == b[..n] + [b[n]];
      NumberLast(a + b[..n], b[n]);
      NumberLast(b[..n], b[n]);
      CharValue(b[n]);
      TenTimes(Number(a), Digits(b[..n]));
    }
  }

  lemma TenTimes(x: nat, k: nat)
    ensures x * Pow10(k + 1) == 10 * (x * Pow10(k))
  {
    assert x * (10 * Pow10(k)) == 10 * (x * Pow10(k));
  }

  lemma {:induction false} ZeroedKeepsDigits(s: string)
    ensures Digits(Zeroed(s)) == Digits(s)
  {
    if s == "" {
    } else {
      var n := |s| - 1;
      ZeroedKeepsDigits(s[..n]);
      assert Zeroed(s) == Zeroed(s[..n]) + [Zeroed(s)[n]] && s == s[..n] + [s[n]];
      NumberLast(Zeroed(s[..n]), Zeroed(s)[n]);
      NumberLast(s[..n], s[n]);
    }
  }

  /** The carry has reached a digit that takes it. */
  lemma CarryTaken(a: string, c: char, b: string)
    requires NineOrDot(b) && IsDigit(c) && c != '9'
    ensures Number(a + [c + 1 as char] + Zeroed(b)) == Number(a + [c] + b) + 1
  {
    NinesBehind(a + [c], b);
    ZerosBehind(a + [c + 1 as char], Zeroed(b));
    ZeroedKeepsDigits(b);
    NumberLast(a, c);
    NumberLast(a, c + 1 as char);
  }

  /** A text of digits in which at most position p is not a digit. */
  lemma {:induction false} CountDigits(s: string, p: nat)
    requires forall k :: 0 <= k < |s| ==> (IsDigit(s[k]) <==> k != p)
    ensures Digits(s) == |s| - (if p < |s| then 1 else 0)
  {
    if s == "" {
    } else {
      var n := |s| - 1;
      CountDigits(s[..n], p);
    }
  }

  /** The carry has passed all digits: a one in front, and one more zero. */
  lemma CarryPassed(sign: string, b: string, z: string)
    requires Number(sign) == 0 && NineOrDot(b) && ZeroOrDot(z) && Digits(z) == Digits(b)
    ensures Number(sign + ['1'] + z) == Number(sign + b) + 1
  {
    hide Number, Digits, Pow10, NineOrDot, ZeroOrDot, IsDigit;
    OneBehind(sign);
    NinesBehind(sign, b);
    ZerosBehind(sign + ['1'], z);
  }

  lemma OneBehind(sign: string)
    requires Number(sign) == 0
    ensures Number(sign + ['1']) == 1
  {
    NumberLast(sign, '1');
  }

  // ----- the carry loop -----

  /** The buffer while the carry is on its way: everything from r on was nines and has been
      cleared. */
  ghost predicate Carrying(b: string, buf: string, index: nat, r: nat) {
    && r <= index <= |b| == |buf|
    && (forall k :: 0 <= k < |b| && (k < r || k >= index) ==> buf[k] == b[k])
    && (forall k :: r <= k < index ==> if b[k] == '9' then buf[k] == '0' else b[k] == '.' && buf[k] == '.')
  }

  lemma CarryStart(b: string, index: nat)
    requires index <= |b|
    ensures Carrying(b, b, index, index)
  {
  }

  lemma CarryFacts(b: string, buf: string, index: nat, r: nat)
    requires Carrying(b, buf, index, r)
    ensures r <= index <= |b| == |buf| && (r > 0 ==> buf[r - 1] == b[r - 1])
  {
  }

  lemma CarryDot(b: string, buf: string, index: nat, r: nat)
    requires 0 < r && Carrying(b, buf, index, r) && b[r - 1] == '.'
    ensures Carrying(b, buf, index, r - 1)
  {
  }

  lemma CarryNine(b: string, buf: string, index: nat, r: nat)
    requires 0 < r && Carrying(b, buf, index, r) && b[r - 1] == '9'
    ensures Carrying(b, buf[r - 1 := '0'], index, r - 1)
  {
  }

  /** What is in front of position r. */
  lemma ShapeBefore(b: string, index: nat, l: Layout, r: nat)
    requires index <= |b| && Shape(b[..index], l) && l.Start() <= r <= index
    ensures r == l.Start() <==> r == 0 || b[r - 1] == '-'
    ensures r > l.Start() ==> if r - 1 == l.Dot() then b[r - 1] == '.' else b[r - 1] != '.' && IsDigit(b[r - 1])
    ensures r == index ==> r - 1 != l.Dot() && Number(b[..index]) % 2 == b[r - 1] as int % 2
  {
    if r > 0 { assert b[..index][r - 1] == b[r - 1]; }
  }

  lemma ShapeLength(s: string, l: Layout)
    requires Shape(s, l)
    ensures l.whole > 0 && |s| == l.Length()
  {
  }

  /** Digits may change, everything else must not. */
  lemma ShapeKept(s: string, t: string, l: Layout)
    requires Shape(s, l) && |t| == |s|
    requires forall k :: 0 <= k < |s| ==> if IsDigit(s[k]) then IsDigit(t[k]) else t[k] == s[k]
    ensures Shape(t, l)
  {
  }

  lemma CarryStopsText(b: string, buf: string, index: nat, r: nat)
    requires 0 < r && Carrying(b, buf, index, r) && IsDigit(b[r - 1]) && b[r - 1] != '9'
    ensures var buf' := buf[r - 1 := b[r - 1] + 1 as char];
            buf'[..index] == b[..r - 1] + [b[r - 1] + 1 as char] + Zeroed(b[r..index])
    ensures b[..index] == b[..r - 1] + [b[r - 1]] + b[r..index] && NineOrDot(b[r..index])
  {
  }

  /** The carry stops at a digit that is not nine. */
  lemma CarryStops(b: string, buf: string, index: nat, r: nat, l: Layout)
    requires 0 < r && Carrying(b, buf, index, r) && Shape(b[..index], l)
    requires IsDigit(b[r - 1]) && b[r - 1] != '9'
    ensures var buf' := buf[r - 1 := b[r - 1] + 1 as char];
            Shape(buf'[..index], l) && Number(buf'[..index]) == Number(b[..index]) + 1 && buf'[index..] == b[index..]
  {
    hide Shape, Number;
    var buf' := buf[r - 1 := b[r - 1] + 1 as char];
    CarryStopsText(b, buf, index, r);
    CarryTaken(b[..r - 1], b[r - 1], b[r..index]);
    ShapeKept(b[..index], buf'[..index], l);
  }

  /** The buffer after the carry has run off the front: '1' in the first place, the dot moved
      by one, a zero appended. */
  function Overflowed(buf: string, index: nat, l: Layout): (r: string)
    requires l.whole > 0 && index == l.Length() < |buf|
    ensures |r| == |buf|
  {
    var b := buf[l.Start() := '1'];
    (if l.frac > 0 then b[l.Dot() := '0'][l.Dot() + 1 := '.'] else b)[index := '0']
  }

  /** Behind the new '1'. */
  function Behind(r: string, index: nat, l: Layout): (z: string)
    requires l.Start() <= index < |r|
    ensures |z| == index - l.Start()
  {
    r[l.Start() + 1..index + 1]
  }

  lemma OverflowAt(b: string, buf: string, index: nat, l: Layout, k: nat)
    requires l.whole > 0 && index == l.Length() < |b| && Shape(b[..index], l) && Carrying(b, buf, index, l.Start())
    requires k < |b|
    ensures Overflowed(buf, index, l)[k]
         == if k < l.Start() || k > index then b[k]
            else if k == l.Start() then '1'
            else if l.frac > 0 && k == l.Dot() + 1 then '.'
            else '0'
  {
    if l.Start() < k < index { assert b[..index][k] == b[k]; }
  }

  lemma OverflowText(b: string, buf: string, index: nat, l: Layout)
    requires l.whole > 0 && index == l.Length() < |b| && Shape(b[..index], l) && Carrying(b, buf, index, l.Start())
    ensures var r := Overflowed(buf, index, l);
            var z := Behind(r, index, l);
            && |r| == |b|
            && r[..index + 1] == b[..l.Start()] + ['1'] + z && r[index + 1..] == b[index + 1..]
            && (forall k :: 0 <= k < |z| ==> z[k] == if k == l.whole then '.' else '0')
  {
    hide Shape, Overflowed;
    var r := Overflowed(buf, index, l);
    forall k | 0 <= k < |b|
      ensures k < l.Start() || k > index ==> r[k] == b[k]
      ensures k == l.Start() ==> r[k] == '1'
      ensures l.Start() < k <= index ==> r[k] == if k == l.Dot() + 1 then '.' else '0'
    {
      OverflowAt(b, buf, index, l, k);
    }
  }

  lemma OverflowDigits(b: string, z: string, index: nat, l: Layout)
    requires l.whole > 0 && index == l.Length() <= |b| && Shape(b[..index], l) && |z| == index - l.Start()
    requires forall k :: 0 <= k < |z| ==> z[k] == if k == l.whole then '.' else '0'
    ensures Digits(z) == Digits(b[l.Start()..index]) && ZeroOrDot(z)
  {
    var t := b[l.Start()..index];
    forall k | 0 <= k < |t| ensures IsDigit(t[k]) <==> k != l.whole { assert t[k] == b[..index][l.Start() + k]; }
    CountDigits(t, l.whole);
    CountDigits(z, l.whole);
  }

  lemma SignIsNothing(b: string, buf: string, index: nat, l: Layout)
    requires l.whole > 0 && index == l.Length() <= |b| && Shape(b[..index], l) && Carrying(b, buf, index, l.Start())
    ensures NineOrDot(b[l.Start()..index])
    ensures Number(b[..l.Start()]) == 0 && b[..index] == b[..l.Start()] + b[l.Start()..index]
  {
    if l.sign {
      assert b[..1] == ['-'];
      assert ['-'][..0] == "";
    }
  }

  /** The carry runs off the front. */
  lemma CarryOverflows(b: string, buf: string, index: nat, l: Layout)
    requires l.whole > 0 && index == l.Length() < |b| && Shape(b[..index], l) && Carrying(b, buf, index, l.Start())
    ensures var r := Overflowed(buf, index, l);
            && Shape(r[..index + 1], Layout(l.sign, l.whole + 1, l.frac))
            && Number(r[..index + 1]) == Number(b[..index]) + 1
            && r[index + 1..] == b[index + 1..]
  {
    var r := Overflowed(buf, index, l);
    var z := Behind(r, index, l);
    OverflowText(b, buf, index, l);
    OverflowShape(b, r, index, l);
    hide Shape, Number, Overflowed, Behind, Digits, Carrying, NineOrDot, ZeroOrDot;
    OverflowDigits(b, z, index, l);
    SignIsNothing(b, buf, index, l);
    CarryPassed(b[..l.Start()], b[l.Start()..index], z);
  }

  lemma OverflowShape(b: string, r: string, index: nat, l: Layout)
    requires l.whole > 0 && index == l.Length() < |b| == |r| && Shape(b[..index], l)
    requires var z := Behind(r, index, l);
             && r[..index + 1] == b[..l.Start()] + ['1'] + z
             && (forall k :: 0 <= k < |z| ==> z[k] == if k == l.whole then '.' else '0')
    ensures Shape(r[..index + 1], Layout(l.sign, l.whole + 1, l.frac))
  {
    var s, z := r[..index + 1], Behind(r, index, l);
    forall k | l.Start() < k < |s| ensures s[k] == z[k - l.Start() - 1] {}
    if l.sign { assert s[0] == b[..index][0]; }
  }

  /** The carry has reached the front: a new digit there, and the dot moves. */
  method Overflow(result: array<char>, index: nat, front: nat, dotIndex: nat, ghost b: string, ghost l: Layout)
    returns (length: nat)
    requires l.whole > 0 && index == l.Length() < |b| && Shape(b[..index], l)
    requires Carrying(b, result[..], index, l.Start())
    requires front == l.Start() && dotIndex == (if l.frac > 0 then l.Dot() else 0)
    modifies result
    ensures length == index + 1 <= result.Length && Shape(result[..length], Layout(l.sign, l.whole + 1, l.frac))
    ensures Number(result[..length]) == Number(b[..index]) + 1 && result[length..] == b[length..]
  {
    hide Shape, Number;
    CarryFacts(b, result[..], index, l.Start());
    hide Carrying;
    CarryOverflows(b, result[..], index, l);
    ghost var r := Overflowed(result[..], index, l);
    result[front] := '1';
    if dotIndex > 0 {
      result[dotIndex] := '0';
      result[dotIndex + 1] := '.';
    }
    result[index] := '0';
    length := index + 1;
    assert result[..] == r;
  }

  lemma Unrounded(b: string, buf: string, index: nat, l: Layout)
    requires Carrying(b, buf, index, index)
    ensures |buf| == |b| && buf[..index] == b[..index] && buf[index..] == b[index..]
  {
  }

  /** The carry has reached a digit other than nine. */
  method StopAt(result: array<char>, index: nat, pos: nat, c: char, ghost roundUp: Direction, dir: Direction,
                ghost b: string, ghost l: Layout)
    requires pos < index <= |b| && Carrying(b, result[..], index, pos + 1) && Shape(b[..index], l)
    requires c == b[pos] && IsDigit(c) && c != '9' && roundUp != Down
    requires dir == if pos + 1 == index then roundUp else Up
    requires pos + 1 == index ==> Number(b[..index]) % 2 == c as int % 2
    requires pos + 1 < index && roundUp == ToEven ==> Number(b[..index]) % 2 == 1
    modifies result
    ensures index <= result.Length && Shape(result[..index], l) && result[index..] == b[index..]
    ensures Number(result[..index]) == Rounded(Number(b[..index]), roundUp)
  {
    hide Shape, Number;
    if dir == ToEven && c as int % 2 == 0 {
      Unrounded(b, result[..], index, l);
      return;
    }
    CarryStops(b, result[..], index, pos + 1, l);
    result[pos] := c + 1 as char;
  }

  /** The loop that adds one unit in the last place, or rounds to the even neighbour.  The
      text stays well formed with as many fraction digits, and only the place behind it may
      be used in addition. */
  method RoundInPlace(result: array<char>, index: nat, roundUp: Direction, ghost l: Layout) returns (length: nat)
    requires index < result.Length && Shape(result[..index], l)
    modifies result
    ensures length == index || length == index + 1
    ensures length <= result.Length && Shape(result[..length], Layout(l.sign, l.whole + (length - index), l.frac))
    ensures Number(result[..length]) == Rounded(old(Number(result[..index])), roundUp)
    ensures result[length..] == old(result[length..])
  {
    length := index;
    if roundUp == Down { return; }
    ghost var b := result[..];
    hide Shape, Number, Overflowed, Carrying, IsDigit, Rounded;
    RoundedUp(Number(b[..index]), roundUp);
    var dir := roundUp;
    var roundIndex, dotIndex := index, 0;
    ShapeLength(b[..index], l);
    CarryStart(b, index);
    while true
      invariant l.Start() <= roundIndex <= index && Carrying(b, result[..], index, roundIndex)
      invariant dir == (if roundIndex == index then roundUp else Up)
      invariant roundIndex < index && roundUp == ToEven ==> Number(b[..index]) % 2 == 1
      invariant dotIndex == (if l.frac > 0 && roundIndex <= l.Dot() then l.Dot() else 0)
      decreases roundIndex
    {
      CarryFacts(b, result[..], index, roundIndex);
      ShapeBefore(b, index, l, roundIndex);
      ghost var buf := result[..];
      if roundIndex == 0 || result[roundIndex - 1] == '-' {
        length := Overflow(result, index, roundIndex, dotIndex, b, l);
        return;
      }
      roundIndex := roundIndex - 1;
      var c := result[roundIndex];
      if c == '.' {
        CarryDot(b, buf, index, roundIndex + 1);
        dotIndex := roundIndex;
      } else if c == '9' {
        CarryNine(b, buf, index, roundIndex + 1);
        result[roundIndex] := '0';
        dir := Up;
      } else {
        StopAt(result, index, roundIndex, c, roundUp, dir, b, l);
        return;
      }
    }
  }

  /** The rounding stage as a whole.  If the text holds m2 * 2^e2 cut to `precision` fraction
      digits, and lastDigit is the next digit, the text that is left is m2 * 2^e2 correctly
      rounded, with as many fraction digits. */
  method RoundText(result: array<char>, index: nat, m2: Word, e2: int, precision: nat, lastDigit: nat, ghost l: Layout)
    returns (length: nat)
    requires 0 < m2 < Pow2(53) && e2 < 0 && l.frac == precision
    requires index < result.Length && Shape(result[..index], l)
    requires 0 <= m2 * Pow10(precision) && 0 <= 10 * (m2 * Pow10(precision)) / Pow2(-e2)
    requires lastDigit == 10 * (m2 * Pow10(precision)) / Pow2(-e2) % 10
    requires Number(result[..index]) == m2 * Pow10(precision) / Pow2(-e2)
    modifies result
    ensures index <= length <= result.Length && result[length..] == old(result[length..])
    ensures Shape(result[..length], Layout(l.sign, l.whole + (length - index), precision))
    ensures NearestTo(Number(result[..length]), m2 * Pow10(precision), Pow2(-e2))
  {
    hide Shape, Number, Pow2, Pow10, RoundUp, Rounded;
    DirectionExact(m2, e2, precision, lastDigit);
    NearestEven(m2 * Pow10(precision), Pow2(-e2));
    var roundUp := RoundUp(lastDigit, m2, e2, precision);
    length := RoundInPlace(result, index, roundUp, l);
  }
}
