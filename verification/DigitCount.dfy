/** Counting the decimal digits of a number: by a shift and one look into a table of powers of ten, and by
    groups of four digits. */
module DigitCount {
  import opened Arithmetic
  import opened Bits
  import opened Decimal

  function Pow10(k: nat): (r: nat)
    ensures r > 0
  {
    if k == 0 then 1 else 10 * Pow10(k - 1)
  }

  function BitLength(n: nat): nat {
    if n == 0 then 0 else 1 + BitLength(n / 2)
  }

  /** The number of leading zeros among `width` bits, as the compiler's builtin counts them for n > 0. */
  function CountLeadingZeros(n: nat, width: nat): int {
    width - BitLength(n)
  }

  lemma PowerIsEven(k: nat)
    requires k > 0
    ensures Pow2(k) == 2 * Pow2(k - 1)
  {
  }

  lemma {:induction false} BitLengthOfHalf(n: nat)
    requires n > 0
    ensures BitLength(n) == 1 + BitLength(n / 2)
  {
  }

  lemma {:induction false} BitLengthBounds(n: nat)
    requires n > 0
    ensures BitLength(n) > 0 && Pow2(BitLength(n) - 1) <= n < Pow2(BitLength(n))
  {
    if n == 1 {
      assert BitLength(1) == 1 && Pow2(0) == 1;
    } else {
      hide BitLength, Pow2;
      BitLengthBounds(n / 2);
      BitLengthOfHalf(n);
      PowerIsEven(BitLength(n));
      PowerIsEven(BitLength(n) - 1);
    }
  }

  lemma {:induction false} PowersGrow(base2: bool, j: nat, k: nat)
    requires j <= k
    ensures if base2 then Pow2(j) <= Pow2(k) else Pow10(j) <= Pow10(k)
    decreases k
  {
    if j < k { PowersGrow(base2, j, k - 1); }
  }

  lemma BitLengthAtMost(n: nat, width: nat)
    requires 0 < n < Pow2(width)
    ensures 1 <= BitLength(n) <= width
  {
    BitLengthBounds(n);
    if BitLength(n) > width { PowersGrow(true, width, BitLength(n) - 1); }
  }

  /** The number of digits is the one d with 10^(d-1) <= n < 10^d. */
  lemma {:induction false} DigitsAre(n: nat, d: nat)
    requires d >= 1 && n < Pow10(d) && (d > 1 ==> Pow10(d - 1) <= n)
    ensures |Numeral(n)| == d
    decreases n
  {
    if d == 1 {
      assert Pow10(1) == 10 * Pow10(0) == 10;
    } else {
      assert Pow10(d) == 10 * Pow10(d - 1) && Pow10(d - 1) == 10 * Pow10(d - 2);
      DigitsAre(n / 10, d - 1);
    }
  }

  // The shift and the table

  /** log10 of a power of two, from below, as `bits * 1233 >> 12`. */
  function Approximate(bits: nat): nat {
    bits * 1233 / 4096
  }

  /** The greatest number of bits for which the approximation is t. */
  function HighestBits(t: nat): nat {
    (4096 * (t + 1) - 1) / 1233
  }

  lemma Next(h: nat, t: nat)
    ensures Pow2(h + 3) == 8 * Pow2(h) && Pow2(h + 4) == 16 * Pow2(h) && Pow10(t + 1) == 10 * Pow10(t)
  {
    assert Pow2(h + 1) == 2 * Pow2(h);
    assert Pow2(h + 2) == 2 * Pow2(h + 1);
    assert Pow2(h + 3) == 2 * Pow2(h + 2);
  }

  lemma Start()
    ensures Pow2(3) == 8 && Pow10(0) == 1
  {
    assert Pow2(0) == 1 && Pow2(1) == 2 && Pow2(2) == 4;
  }

  /** The powers between which the digit counts change. */
  lemma Powers()
    ensures Pow10(0) == 1 && Pow10(1) == 10 && Pow10(2) == 100
    ensures Pow10(3) == 1000 && Pow10(4) == 10000 && Pow10(5) == 100000
    ensures Pow10(6) == 1000000 && Pow10(7) == 10000000 && Pow10(8) == 100000000
    ensures Pow10(9) == 1000000000 && Pow10(10) == 10000000000 && Pow10(11) == 100000000000
    ensures Pow10(12) == 1000000000000 && Pow10(13) == 10000000000000 && Pow10(14) == 100000000000000
    ensures Pow10(15) == 1000000000000000 && Pow10(16) == 10000000000000000 && Pow10(17) == 100000000000000000
    ensures Pow10(18) == 1000000000000000000 && Pow10(19) == 10000000000000000000 && Pow10(20) == 100000000000000000000
    ensures Pow2(3) == 8 && Pow2(6) == 64 && Pow2(9) == 512
    ensures Pow2(13) == 8192 && Pow2(16) == 65536 && Pow2(19) == 524288
    ensures Pow2(23) == 8388608 && Pow2(26) == 67108864 && Pow2(29) == 536870912
    ensures Pow2(33) == 8589934592 && Pow2(36) == 68719476736 && Pow2(39) == 549755813888
    ensures Pow2(43) == 8796093022208 && Pow2(46) == 70368744177664 && Pow2(49) == 562949953421312
    ensures Pow2(53) == 9007199254740992 && Pow2(56) == 72057594037927936 && Pow2(59) == 576460752303423488
    ensures Pow2(63) == 9223372036854775808 && Pow2(66) == 73786976294838206464
  {
    hide Pow2, Pow10;
    Start();
    Next(3, 0); Next(6, 1); Next(9, 2); Next(13, 3); Next(16, 4);
    Next(19, 5); Next(23, 6); Next(26, 7); Next(29, 8); Next(33, 9);
    Next(36, 10); Next(39, 11); Next(43, 12); Next(46, 13); Next(49, 14);
    Next(53, 15); Next(56, 16); Next(59, 17); Next(63, 18); Next(66, 19);
  }

  /** The bits for which the approximation is t end between 10^t and 10^(t+1). */
  lemma Between(t: nat)
    requires t < 20
    ensures Pow10(t) <= Pow2(HighestBits(t)) <= Pow10(t + 1)
  {
    hide Pow2, Pow10;
    Powers();
    assert HighestBits(0) == 3; assert HighestBits(1) == 6; assert HighestBits(2) == 9; assert HighestBits(3) == 13;
    assert HighestBits(4) == 16; assert HighestBits(5) == 19; assert HighestBits(6) == 23; assert HighestBits(7) == 26;
    assert HighestBits(8) == 29; assert HighestBits(9) == 33;
    assert HighestBits(10) == 36; assert HighestBits(11) == 39;
    assert HighestBits(12) == 43; assert HighestBits(13) == 46;
    assert HighestBits(14) == 49; assert HighestBits(15) == 53;
    assert HighestBits(16) == 56; assert HighestBits(17) == 59;
    assert HighestBits(18) == 63; assert HighestBits(19) == 66;
  }

  /** n | 1 has the bits of n, and one bit when n is 0. */
  lemma {:induction false} WithLastBit(n: nat)
    ensures Or(n, 1) == if n % 2 == 0 then n + 1 else n
  {
    assert 1 / 2 == 0 && Or(n / 2, 0) == n / 2;
  }

  lemma HighestBitsBound(bits: nat)
    requires bits <= 64
    ensures var t := Approximate(bits);
      t < 20 && bits <= HighestBits(t) && (t > 0 ==> 2 <= bits && HighestBits(t - 1) <= bits - 1)
  {
  }

  lemma ApproximationIsClose(n: nat, bits: nat)
    requires bits == BitLength(Or(n, 1)) && bits <= 64
    ensures var t := Approximate(bits);
      t < 20 && (t > 0 ==> Pow10(t - 1) <= n) && n < Pow10(t + 1)
  {
    hide Pow2, Pow10, BitLength, Or, Approximate, HighestBits;
    WithLastBit(n);
    BitLengthBounds(Or(n, 1));
    HighestBitsBound(bits);
    var t := Approximate(bits);
    Between(t);
    PowersGrow(true, bits, HighestBits(t));
    if t > 0 {
      Between(t - 1);
      PowersGrow(true, HighestBits(t - 1), bits - 1);
      PowerIsEven(bits - 1);
    }
  }

  /** Entry 0 of the tables is 0, the others are powers of ten: ten entries for 32 bits, twenty for 64. */
  function PowerTable(entries: nat): seq<nat> {
    seq(entries, i requires 0 <= i < entries => if i == 0 then 0 else Pow10(i))
  }

  const POWERS_OF_10_32: seq<nat> := PowerTable(10)
  const POWERS_OF_10_64: seq<nat> := PowerTable(20)

  lemma TableGivesDigits(n: nat, bits: nat)
    requires bits == BitLength(Or(n, 1)) && bits <= 64
    ensures var t := Approximate(bits);
      |Numeral(n)| == t - (if n < (if t == 0 then 0 else Pow10(t)) then 1 else 0) + 1
  {
    hide Pow10, BitLength, Or;
    ApproximationIsClose(n, bits);
    var t := Approximate(bits);
    if t == 0 {
      DigitsAre(n, 1);
    } else if n < Pow10(t) {
      DigitsAre(n, t);
    } else {
      DigitsAre(n, t + 1);
    }
  }

  lemma BelowEven(n: nat, half: nat)
    requires n < 2 * half
    ensures n % 2 == 0 ==> n + 1 < 2 * half
  {
  }

  lemma BitsOfWord(n: nat, width: nat)
    requires width > 0 && n < Pow2(width)
    ensures 1 <= BitLength(Or(n, 1)) <= width
  {
    hide Pow2, BitLength, Or;
    WithLastBit(n);
    PowerIsEven(width);
    BelowEven(n, Pow2(width - 1));
    BitLengthAtMost(Or(n, 1), width);
  }

  lemma TableIsRight32(n: nat)
    requires n < Pow2(32)
    ensures var t := (32 - CountLeadingZeros(Or(n, 1), 32)) * 1233 / 4096;
      0 <= t < |POWERS_OF_10_32| && |Numeral(n)| == t - (if n < POWERS_OF_10_32[t] then 1 else 0) + 1
  {
    hide Pow2, Pow10, BitLength, Or, Numeral;
    BitsOfWord(n, 32);
    TableGivesDigits(n, BitLength(Or(n, 1)));
  }

  lemma TableIsRight64(n: nat)
    requires n < Pow2(64)
    ensures var t := (64 - CountLeadingZeros(Or(n, 1), 64)) * 1233 / 4096;
      0 <= t < |POWERS_OF_10_64| && |Numeral(n)| == t - (if n < POWERS_OF_10_64[t] then 1 else 0) + 1
  {
    hide Pow2, Pow10, BitLength, Or, Numeral;
    BitsOfWord(n, 64);
    TableGivesDigits(n, BitLength(Or(n, 1)));
  }

  /** For every 64-bit number the count is the number of its decimal digits, and the table has the entry. */
  function CountDigits64(n: nat): (count: nat)
    requires n < Pow2(64)
    ensures count == |Numeral(n)|
  {
    TableIsRight64(n);
    var t := (64 - CountLeadingZeros(Or(n, 1), 64)) * 1233 / 4096;
    t - (if n < POWERS_OF_10_64[t] then 1 else 0) + 1
  }

  /** The same for every 32-bit number with the shorter table. */
  function CountDigits32(n: nat): (count: nat)
    requires n < Pow2(32)
    ensures count == |Numeral(n)|
  {
    TableIsRight32(n);
    var t := (32 - CountLeadingZeros(Or(n, 1), 32)) * 1233 / 4096;
    t - (if n < POWERS_OF_10_32[t] then 1 else 0) + 1
  }

  // The fallback

  lemma {:induction false} FourDigitsLess(n: nat)
    requires n >= 10000
    ensures |Numeral(n)| == |Numeral(n / 10000)| + 4
  {
    var a, b, c: nat := n / 10, n / 100, n / 1000;
    assert a / 10 == b && b / 10 == c && c / 10 == n / 10000;
    assert |Numeral(n)| == |Numeral(a)| + 1 && |Numeral(a)| == |Numeral(b)| + 1;
    assert |Numeral(b)| == |Numeral(c)| + 1 && |Numeral(c)| == |Numeral(n / 10000)| + 1;
  }

  lemma {:induction false} UpToFourDigits(n: nat)
    requires n < 10000
    ensures |Numeral(n)| == if n < 10 then 1 else if n < 100 then 2 else if n < 1000 then 3 else 4
  {
    var d := if n < 10 then 1 else if n < 100 then 2 else if n < 1000 then 3 else 4;
    assert Pow10(0) == 1 && Pow10(1) == 10 && Pow10(2) == 100 && Pow10(3) == 1000 && Pow10(4) == 10000;
    DigitsAre(n, d);
  }

  /** Four digits at a time, for numbers of any size. */
  method CountDigitsByFour(n: nat) returns (count: nat)
    ensures count == |Numeral(n)|
  {
    count := 1;
    var rest := n;
    while true
      invariant count >= 1 && count - 1 + |Numeral(rest)| == |Numeral(n)|
      decreases rest
    {
      if rest >= 10000 { FourDigitsLess(rest); } else { UpToFourDigits(rest); }
      if rest < 10 { return count; }
      if rest < 100 { return count + 1; }
      if rest < 1000 { return count + 2; }
      if rest < 10000 { return count + 3; }
      rest := rest / 10000;
      count := count + 4;
    }
  }
}
