/** The decimal digit writers of Ryu: they fill a field of a character buffer in place, two
    digits at a time from a table. */
module RyuDigits {
  import opened Words

  function Pow10(n: nat): (p: nat)
    ensures p > 0
  {
    if n == 0 then 1 else 10 * Pow10(n - 1)
  }

  lemma {:induction false} Pow10Sum(a: nat, b: nat)
    ensures Pow10(a + b) == Pow10(a) * Pow10(b)
  {
    if a == 0 {
    } else {
      Pow10Sum(a - 1, b);
      assert Pow10(a + b) == 10 * Pow10((a - 1) + b);
    }
  }

  lemma {:induction false} Pow10Monotone(a: nat, b: nat)
    requires a <= b
    ensures Pow10(a) <= Pow10(b)
  {
    if a >= b {
    } else {
      Pow10Monotone(a, b - 1);
    }
  }

  // ----- decimal text -----

  function Digit(d: nat): char
    requires d < 10
  {
    '0' + d as char
  }

  predicate IsDigit(c: char) { '0' <= c <= '9' }

  function DigitValue(c: char): (d: nat)
    requires IsDigit(c)
    ensures d < 10
  {
    c as int - '0' as int
  }

  /** The last n decimal digits of v. */
  function Decimal(v: nat, n: nat): (s: string)
    ensures |s| == n
  {
    if n == 0 then "" else Decimal(v / 10, n - 1) + [Digit(v % 10)]
  }

  /** The number that a text of digits denotes. */
  function Parse(s: string): nat
    requires forall c :: c in s ==> IsDigit(c)
  {
    if s == "" then 0 else 10 * Parse(s[..|s| - 1]) + DigitValue(s[|s| - 1])
  }

  lemma {:induction false} DecimalIsDigits(v: nat, n: nat)
    ensures forall c :: c in Decimal(v, n) ==> IsDigit(c)
  {
    if n == 0 {
    } else {
      DecimalIsDigits(v / 10, n - 1);
    }
  }

  lemma ModTimesTen(v: nat, p: nat)
    requires p > 0
    ensures v % (10 * p) == 10 * (v / 10 % p) + v % 10
  {
    var q, r := v / 10 / p, v / 10 % p;
    assert v == (10 * p) * q + (10 * r + v % 10) by {
      assert v / 10 == p * q + r;
      assert v == 10 * (v / 10) + v % 10;
    }
    ModUnique(v, 10 * p, q, 10 * r + v % 10);
  }

  /** The digits written parse back to the number modulo 10^n. */
  lemma {:induction false} ParseDecimal(v: nat, n: nat)
    ensures forall c :: c in Decimal(v, n) ==> IsDigit(c)
    ensures Parse(Decimal(v, n)) == v % Pow10(n)
  {
    DecimalIsDigits(v, n);
    if n == 0 {
    } else {
      ParseDecimal(v / 10, n - 1);
      ModTimesTen(v, Pow10(n - 1));
      assert Decimal(v, n)[..n - 1] == Decimal(v / 10, n - 1);
    }
  }

  /** What is left of v without its last i digits. */
  function Upper(v: nat, i: nat): nat { Quotient(v, Pow10(i)) }

  lemma UpperSum(v: nat, a: nat, b: nat)
    ensures Upper(Upper(v, a), b) == Upper(v, a + b)
  {
    Pow10Sum(a, b);
    hide Pow10;
    DivDiv(v, Pow10(a), Pow10(b));
  }

  /** Digits in two parts. */
  lemma {:induction false} DecimalSplit(v: nat, a: nat, b: nat)
    ensures Decimal(v, a + b) == Decimal(Upper(v, b), a) + Decimal(v, b)
  {
    if b == 0 {
    } else {
      UpperSum(v, 1, b - 1);
      UpperOne(v);
      DecimalSplit(v / 10, a, b - 1);
      assert a + b - 1 == a + (b - 1);
    }
  }

  lemma UpperOne(v: nat)
    ensures Upper(v, 0) == v && Upper(v, 1) == v / 10
  {
    assert Pow10(1) == 10;
  }

  /** A number with exactly n digits is written without a leading zero. */
  lemma {:induction false} NoLeadingZero(v: nat, n: nat)
    requires n > 0 && Pow10(n - 1) <= v < Pow10(n)
    ensures Decimal(v, n)[0] != '0'
  {
    if n <= 1 {
    } else {
      NoLeadingZero(v / 10, n - 1);
    }
  }

  /** The precondition of the digit writers: v has n digits. */
  predicate HasLength(v: nat, n: nat) {
    n > 0 && v < Pow10(n) && (n > 1 ==> Pow10(n - 1) <= v)
  }

  function DecimalLength9(v: nat): (n: nat)
    requires v < 1_000_000_000
  {
    if v >= 100_000_000 then 9
    else if v >= 10_000_000 then 8
    else if v >= 1_000_000 then 7
    else if v >= 100_000 then 6
    else if v >= 10_000 then 5
    else if v >= 1_000 then 4
    else if v >= 100 then 3
    else if v >= 10 then 2
    else 1
  }

  lemma Pow10Values()
    ensures Pow10(0) == 1 && Pow10(1) == 10 && Pow10(2) == 100 && Pow10(3) == 1000 && Pow10(4) == 10_000
    ensures Pow10(5) == 100_000 && Pow10(6) == 1_000_000 && Pow10(7) == 10_000_000
    ensures Pow10(8) == 100_000_000 && Pow10(9) == 1_000_000_000
  {
    assert Pow10(4) == 10_000;
    Pow10Sum(4, 4);
    Pow10Sum(4, 3);
    Pow10Sum(4, 2);
    Pow10Sum(4, 1);
    Pow10Sum(4, 5);
  }

  /** decimalLength9 establishes the precondition of the digit writers and is the only length
      that does. */
  lemma DecimalLength9Exact(v: nat)
    requires v < 1_000_000_000
    ensures HasLength(v, DecimalLength9(v))
    ensures forall n :: HasLength(v, n) ==> n == DecimalLength9(v)
  {
    Pow10Values();
    forall n | HasLength(v, n) ensures n == DecimalLength9(v) { OneLength(v, n, DecimalLength9(v)); }
  }

  lemma OneLength(v: nat, a: nat, b: nat)
    requires HasLength(v, a) && HasLength(v, b)
    ensures a == b
  {
    if a < b { Pow10Monotone(a, b - 1); }
    if b < a { Pow10Monotone(b, a - 1); }
  }

  // ----- the digit writers -----

  /** All two-digit numbers, "00" to "99". */
  const DIGIT_TABLE: string :=
    seq(200, i requires 0 <= i < 200 => if i % 2 == 0 then Digit(i / 20) else Digit(i / 2 % 10))

  /** A buffer after the characters from `from` on were replaced by `s`. */
  function Written(b: string, from: nat, s: string): (r: string)
    requires from + |s| <= |b|
    ensures |r| == |b|
  {
    b[..from] + s + b[from + |s|..]
  }

  lemma WrittenNone(b: string, from: nat)
    requires from <= |b|
    ensures Written(b, from, "") == b
  {
  }

  /** Writing a piece in front of a piece. */
  lemma WrittenBefore(b: string, from: nat, s: string, t: string)
    requires |s| <= from && from + |t| <= |b|
    ensures Written(Written(b, from, t), from - |s|, s) == Written(b, from - |s|, s + t)
  {
  }

  /** One more piece of digits in front of the last b. */
  lemma DecimalBefore(v: nat, a: nat, b: nat, c: nat)
    requires c == Upper(v, b) % Pow10(a)
    ensures Decimal(c, a) + Decimal(v, b) == Decimal(v, a + b)
  {
    DecimalSplit(v, a, b);
    DecimalOfMod(Upper(v, b), a);
  }

  lemma {:induction false} DecimalOfMod(v: nat, n: nat)
    ensures Decimal(v % Pow10(n), n) == Decimal(v, n)
  {
    if n == 0 {
    } else {
      ModTimesTen(v, Pow10(n - 1));
      DecimalOfMod(v / 10, n - 1);
    }
  }

  /** Two digits from the table. */
  lemma TablePair(c: nat)
    requires c < 100
    ensures Decimal(c, 2) == [DIGIT_TABLE[2 * c], DIGIT_TABLE[2 * c + 1]]
  {
    assert Decimal(c / 10, 1) == [Digit(c / 10 % 10)];
  }

  /** Copies the pair at 2c of the table in front of the i digits of v written so far. */
  method CopyPair(result: array<char>, to: nat, c: nat, ghost b: string, ghost v: nat, ghost i: nat)
    requires to + 2 + i <= |b| && result[..] == Written(b, to + 2, Decimal(v, i))
    requires c == Upper(v, i) % 100
    modifies result
    ensures result[..] == Written(b, to, Decimal(v, i + 2))
  {
    hide Decimal, Pow10, Digit, Upper;
    TablePair(c);
    DecimalBefore(v, 2, i, c) by { Pow10Values(); }
    WrittenBefore(b, to + 2, Decimal(c, 2), Decimal(v, i));
    result[to], result[to + 1] := DIGIT_TABLE[2 * c], DIGIT_TABLE[2 * c + 1];
    assert result[..] == Written(Written(b, to + 2, Decimal(v, i)), to, Decimal(c, 2));
  }

  /** Writes one character in front of a piece. */
  method WriteChar(result: array<char>, to: nat, c: char, ghost b: string, ghost t: string)
    requires to + 1 + |t| <= |b| && result[..] == Written(b, to + 1, t)
    modifies result
    ensures result[..] == Written(b, to, [c] + t)
  {
    WrittenBefore(b, to + 1, [c], t);
    result[to] := c;
    assert result[..] == Written(Written(b, to + 1, t), to, [c]);
  }

  lemma Shorter(d: nat, n: nat, k: nat)
    requires HasLength(d, n) && d >= Pow10(k)
    ensures n > k && HasLength(Upper(d, k), n - k)
  {
    if n <= k { Pow10Monotone(n, k); }
    Pow10Sum(k, n - k);
    if n - k > 1 {
      Pow10Sum(k, n - k - 1);
      assert n - 1 == k + (n - k - 1);
    }
    hide Pow10;
    QuotientBelow(d, Pow10(k), Pow10(n - k));
    if n - k > 1 { QuotientAtLeast(d, Pow10(k), Pow10(n - k - 1)); }
  }

  lemma Start(v: nat, olength: nat, b: string, end: nat)
    requires end <= |b| && HasLength(v, olength)
    ensures olength > 0 && Upper(v, 0) == v && Written(b, end, Decimal(v, 0)) == b
  {
    UpperOne(v);
    WrittenNone(b, end);
  }

  lemma UpperValues(d: nat)
    ensures Upper(d, 2) == d / 100 && Upper(d, 4) == d / 10_000
  {
    Pow10Values();
  }

  lemma TwoPairs(d: nat)
    ensures d % 10_000 % 100 == d % 100 && d % 10_000 / 100 == d / 100 % 100
  {
  }

  lemma ShorterFour(v: nat, olength: nat, i: nat)
    requires i < olength && HasLength(Upper(v, i), olength - i) && Upper(v, i) >= 10_000
    ensures i + 4 < olength && HasLength(Upper(v, i + 4), olength - i - 4)
    ensures var d := Upper(v, i);
            Upper(v, i + 4) == d / 10_000 && d % 10_000 % 100 == d % 100 && d % 10_000 / 100 == Upper(v, i + 2) % 100
  {
    hide Pow10, HasLength, Upper;
    Pow10Values();
    var d := Upper(v, i);
    UpperSum(v, i, 2);
    UpperSum(v, i, 4);
    UpperValues(d);
    Shorter(d, olength - i, 4);
    TwoPairs(d);
  }

  lemma ShorterTwo(v: nat, olength: nat, i: nat)
    requires i < olength && HasLength(Upper(v, i), olength - i) && Upper(v, i) >= 100
    ensures i + 2 < olength && HasLength(Upper(v, i + 2), olength - i - 2)
    ensures Upper(v, i + 2) == Upper(v, i) / 100
  {
    hide Pow10, HasLength, Upper;
    Pow10Values();
    UpperSum(v, i, 2);
    UpperValues(Upper(v, i));
    Shorter(Upper(v, i), olength - i, 2);
  }

  /** The last one or two digits. */
  lemma LastDigits(d: nat, n: nat)
    requires HasLength(d, n) && d < 100
    ensures n == if d >= 10 then 2 else 1
    ensures d < 10 ==> Decimal(d, 1) == [Digit(d)]
  {
    Pow10Values();
    OneLength(d, n, if d >= 10 then 2 else 1);
  }

  /** The loop of append_n_digits and append_d_digits and the pair after it: digits from the
      right until one or two are left. */
  method WritePairs(result: array<char>, end: nat, v: nat, olength: nat) returns (digits: nat, i: nat)
    requires HasLength(v, olength) && olength <= end <= result.Length
    modifies result
    ensures i < olength && result[..] == Written(old(result[..]), end - i, Decimal(v, i))
    ensures digits == Upper(v, i) < 100 && HasLength(digits, olength - i)
  {
    hide Decimal, Pow10, HasLength, Upper;
    ghost var b := result[..];
    i, digits := 0, v;
    Start(v, olength, b, end);
    while digits >= 10_000
      invariant i < olength && result[..] == Written(b, end - i, Decimal(v, i))
      invariant digits == Upper(v, i) && HasLength(digits, olength - i)
    {
      ShorterFour(v, olength, i);
      var c := digits % 10_000;
      digits := digits / 10_000;
      CopyPair(result, end - i - 2, c % 100, b, v, i);
      CopyPair(result, end - i - 4, c / 100, b, v, i + 2);
      i := i + 4;
    }
    if digits >= 100 {
      ShorterTwo(v, olength, i);
      var c := digits % 100;
      digits := digits / 100;
      CopyPair(result, end - i - 2, c, b, v, i);
      i := i + 2;
    }
  }

  lemma DecimalWhole(v: nat, i: nat, k: nat, d: nat)
    requires d == Upper(v, i) && d < Pow10(k)
    ensures Decimal(v, i + k) == Decimal(d, k) + Decimal(v, i)
  {
    hide Pow10, Decimal, Upper;
    SmallMod(d, Pow10(k));
    DecimalBefore(v, k, i, d);
  }

  /** append_n_digits: exactly the field of olength characters changes. */
  method AppendNDigits(result: array<char>, start: nat, olength: nat, digits: nat)
    requires HasLength(digits, olength) && start + olength <= result.Length
    modifies result
    ensures result[..] == Written(old(result[..]), start, Decimal(digits, olength))
  {
    hide Decimal, Pow10, HasLength, Upper;
    ghost var b := result[..];
    var d, i := WritePairs(result, start + olength, digits, olength);
    Pow10Values();
    LastDigits(d, olength - i);
    if d >= 10 {
      CopyPair(result, start + olength - i - 2, d, b, digits, i);
    } else {
      DecimalWhole(digits, i, 1, d);
      WriteChar(result, start, Digit(d), b, Decimal(digits, i));
    }
  }

  /** Digits with a dot after the first one. */
  function Dotted(s: string): string
    requires s != ""
  {
    [s[0], '.'] + s[1..]
  }

  /** append_d_digits */
  method AppendDDigits(result: array<char>, start: nat, olength: nat, digits: nat)
    requires HasLength(digits, olength) && start + olength + 1 <= result.Length
    modifies result
    ensures olength > 0 && result[..] == Written(old(result[..]), start, Dotted(Decimal(digits, olength)))
  {
    hide Decimal, Pow10, HasLength, Upper, Written, Digit;
    ghost var b := result[..];
    var d, i := WritePairs(result, start + olength + 1, digits, olength);
    ghost var t := Decimal(digits, i);
    Pow10Values();
    LastDigits(d, olength - i);
    DecimalWhole(digits, i, olength - i, d);
    if d >= 10 {
      TablePair(d);
      WriteChar(result, start + 2, DIGIT_TABLE[2 * d + 1], b, t);
      t := [DIGIT_TABLE[2 * d + 1]] + t;
      WriteChar(result, start + 1, '.', b, t);
      WriteChar(result, start, DIGIT_TABLE[2 * d], b, ['.'] + t);
      assert Dotted(Decimal(digits, olength)) == [DIGIT_TABLE[2 * d]] + (['.'] + t);
    } else {
      WriteChar(result, start + 1, '.', b, t);
      WriteChar(result, start, Digit(d), b, ['.'] + t);
      assert Dotted(Decimal(digits, olength)) == [Digit(d)] + (['.'] + t);
    }
  }

  lemma NoDigits(v: nat)
    ensures Decimal(v, 0) == ""
  {
  }

  lemma NextPair(v: nat, i: nat)
    ensures Upper(v, i + 2) == Upper(v, i) / 100
    ensures Upper(v, i + 1) == Upper(v, i) / 10
  {
    hide Pow10, Upper;
    UpperSum(v, i, 2);
    UpperSum(v, i, 1);
    UpperOne(Upper(v, i));
    UpperValues(Upper(v, i));
  }

  lemma OneDigit(v: nat, i: nat)
    ensures Decimal(v, i + 1) == [Digit(Upper(v, i) % 10)] + Decimal(v, i)
  {
    Pow10Values();
    DecimalBefore(v, 1, i, Upper(v, i) % 10);
    assert Decimal(Upper(v, i) % 10, 1) == [Digit(Upper(v, i) % 10)];
  }

  /** append_c_digits: the last `count` digits; the caller makes sure that there is at least
      one. */
  method AppendCDigits(result: array<char>, start: nat, count: nat, digits: nat)
    requires count > 0 && start + count <= result.Length
    modifies result
    ensures result[..] == Written(old(result[..]), start, Decimal(digits, count))
  {
    hide Decimal, Pow10, Upper, Written, Digit;
    ghost var b := result[..];
    var i, d := 0, digits;
    UpperOne(digits);
    NoDigits(digits);
    WrittenNone(b, start + count);
    while i < count - 1
      invariant i <= count && d == Upper(digits, i)
      invariant result[..] == Written(b, start + count - i, Decimal(digits, i))
    {
      var c := d % 100;
      NextPair(digits, i);
      d := d / 100;
      CopyPair(result, start + count - i - 2, c, b, digits, i);
      i := i + 2;
    }
    if i < count {
      OneDigit(digits, i);
      WriteChar(result, start + count - i - 1, Digit(d % 10), b, Decimal(digits, i));
    }
  }

  lemma {:induction false} ZeroDigits(n: nat)
    ensures Decimal(0, n) == seq(n, i => '0')
  {
    if n == 0 {
    } else {
      ZeroDigits(n - 1);
    }
  }

  /** The first character that append_nine_digits writes: not a digit if there are more than
      nine. */
  function LeadingChar(digits: nat): char
    requires digits < TWO_32
  {
    '0' + (digits / 100_000_000) as char
  }

  method WriteZeros(result: array<char>, start: nat)
    requires start + 9 <= result.Length
    modifies result
    ensures result[..] == Written(old(result[..]), start, seq(9, i => '0'))
  {
    for k := 0 to 9
      invariant result[..] == Written(old(result[..]), start, seq(k, i => '0'))
    {
      result[start + k] := '0';
    }
  }

  /** append_nine_digits.  Additional digits are not dropped: they spoil the first character,
      so the field holds the last nine digits exactly when there are no more than nine. */
  method AppendNineDigits(result: array<char>, start: nat, digits: nat)
    requires digits < TWO_32 && start + 9 <= result.Length
    modifies result
    ensures result[..] == Written(old(result[..]), start, [LeadingChar(digits)] + Decimal(digits, 8))
    ensures [LeadingChar(digits)] + Decimal(digits, 8) == Decimal(digits, 9) <==> digits < 1_000_000_000
  {
    hide Decimal, Pow10, Upper, Digit, Written;
    ghost var b := result[..];
    NineField(digits);
    UpperEight(digits);
    if digits == 0 {
      WriteZeros(result, start);
      ZeroDigits(8);
      assert seq(9, i => '0') == ['0'] + seq(8, i => '0');
      return;
    }
    var i, d := 0, digits;
    UpperOne(digits);
    NoDigits(digits);
    WrittenNone(b, start + 9);
    while i < 5
      invariant (i == 0 || i == 4 || i == 8) && d == Upper(digits, i)
      invariant result[..] == Written(b, start + 9 - i, Decimal(digits, i))
    {
      var c := d % 10_000;
      TwoPairs(d);
      NextPair(digits, i);
      NextPair(digits, i + 2);
      d := d / 10_000;
      CopyPair(result, start + 7 - i, c % 100, b, digits, i);
      CopyPair(result, start + 5 - i, c / 100, b, digits, i + 2);
      i := i + 4;
    }
    WriteChar(result, start, '0' + d as char, b, Decimal(digits, 8));
  }

  lemma UpperEight(v: nat)
    ensures Upper(v, 8) == v / 100_000_000
  {
    Pow10Values();
  }

  lemma NineField(digits: nat)
    requires digits < TWO_32
    ensures [LeadingChar(digits)] + Decimal(digits, 8) == Decimal(digits, 9) <==> digits < 1_000_000_000
    ensures digits == 0 ==> LeadingChar(digits) == '0'
  {
    OneDigit(digits, 8);
    UpperEight(digits);
    hide Decimal, Upper;
    var s, t := [LeadingChar(digits)] + Decimal(digits, 8), Decimal(digits, 9);
    assert s[1..] == t[1..];
    assert s == t <==> s[0] == t[0];
  }

  /** With at most nine digits the field parses back to the number. */
  lemma NineDigitsParse(digits: nat)
    requires digits < 1_000_000_000
    ensures forall c :: c in Decimal(digits, 9) ==> IsDigit(c)
    ensures Parse(Decimal(digits, 9)) == digits
  {
    ParseDecimal(digits, 9);
    Pow10Values();
  }

  /** A number of n digits is read back from what append_n_digits writes. */
  lemma NDigitsParse(v: nat, n: nat)
    requires HasLength(v, n)
    ensures forall c :: c in Decimal(v, n) ==> IsDigit(c)
    ensures Parse(Decimal(v, n)) == v
    ensures v > 0 ==> Decimal(v, n)[0] != '0'
  {
    ParseDecimal(v, n);
    SmallMod(v, Pow10(n));
    if v > 0 {
      Pow10Values();
      NoLeadingZero(v, n);
    }
  }
}
