/** Bitwise operations on natural numbers, with the facts that turn masks and shifts into arithmetic. */
module Bits {
  import opened Arithmetic

  function Pow2(k: nat): (r: nat)
    ensures r > 0
  {
    if k == 0 then 1 else 2 * Pow2(k - 1)
  }

  function And(x: nat, y: nat): nat {
    if x == 0 || y == 0 then 0 else (if x % 2 == 1 && y % 2 == 1 then 1 else 0) + 2 * And(x / 2, y / 2)
  }

  function Or(x: nat, y: nat): nat {
    if x == 0 then y
    else if y == 0 then x
    else (if x % 2 == 1 || y % 2 == 1 then 1 else 0) + 2 * Or(x / 2, y / 2)
  }

  lemma {:induction false} AndSelf(x: nat)
    ensures And(x, x) == x
  {
    if x == 0 {
    } else {
      AndSelf(x / 2);
    }
  }

  lemma AndOddMask(x: nat, h: nat)
    requires h > 0 && x > 0
    ensures And(x, 2 * h - 1) == x % 2 + 2 * And(x / 2, h - 1)
  {
    var y: nat := 2 * h - 1;
    assert y % 2 == 1 && y / 2 == h - 1;
  }

  /** Masking with 2^k - 1 is the remainder modulo 2^k. */
  lemma {:induction false} MaskIsMod(x: nat, k: nat)
    ensures And(x, Pow2(k) - 1) == x % Pow2(k)
  {
    if k == 0 {
      assert x % 1 == 0;
    } else if x == 0 {
      ModUnique(0, Pow2(k), 0, 0);
    } else {
      var h := Pow2(k - 1);
      calc {
        And(x, Pow2(k) - 1);
        { AndOddMask(x, h); }
        x % 2 + 2 * And(x / 2, h - 1);
        { MaskIsMod(x / 2, k - 1); }
        x % 2 + 2 * ((x / 2) % h);
        { HalveMod(x, h); }
        x % (2 * h);
      }
    }
  }

  lemma BitsNeeded(lo: nat, k: nat)
    requires 0 < lo < Pow2(k)
    ensures k > 0
  {
  }

  lemma OrWithNothing(x: nat)
    ensures Or(x, 0) == x && Or(0, x) == x
  {
  }

  lemma HalfShifted(hi: nat, k: nat, lo: nat)
    requires k > 0 && lo < Pow2(k)
    ensures hi * Pow2(k) == 2 * (hi * Pow2(k - 1)) && lo / 2 < Pow2(k - 1)
  {
  }

  lemma OrStep(h: nat, lo: nat)
    requires lo > 0
    ensures Or(2 * h, lo) == lo % 2 + 2 * Or(h, lo / 2)
  {
    if h == 0 {
      OrWithNothing(lo / 2);
    } else {
      assert 2 * h / 2 == h && 2 * h % 2 == 0;
    }
  }

  /** An or whose operands share no bit is a sum. */
  lemma {:induction false} DisjointOr(hi: nat, k: nat, lo: nat)
    requires lo < Pow2(k)
    ensures Or(hi * Pow2(k), lo) == hi * Pow2(k) + lo
  {
    hide Pow2, Or;
    if lo == 0 {
      OrWithNothing(hi * Pow2(k));
    } else if hi == 0 {
      OrWithNothing(lo);
    } else {
      BitsNeeded(lo, k);
      var h := hi * Pow2(k - 1);
      HalfShifted(hi, k, lo);
      DisjointOr(hi, k - 1, lo / 2);
      OrStep(h, lo);
    }
  }

  ghost predicate IsPowerOfTwo(n: nat) {
    exists k: nat :: n == Pow2(k)
  }

  lemma HalvePowerOfTwo(m: nat)
    requires m > 0
    ensures IsPowerOfTwo(2 * m) <==> IsPowerOfTwo(m)
  {
    if k: nat :| m == Pow2(k) {
      assert 2 * m == Pow2(k + 1);
    }
    if k: nat :| 2 * m == Pow2(k) {
      assert k != 0;
      assert m == Pow2(k - 1);
    }
  }

  lemma AndEvenPred(m: nat)
    requires m > 0
    ensures And(2 * m, 2 * m - 1) == 2 * And(m, m - 1)
  {
    var x: nat, y: nat := 2 * m, 2 * m - 1;
    assert x % 2 == 0 && x / 2 == m && y / 2 == m - 1;
  }

  /** The test `n & (n - 1) == 0` recognises exactly the powers of two. */
  lemma {:induction false} PowerOfTwoTest(n: nat)
    requires n > 0
    ensures And(n, n - 1) == 0 <==> IsPowerOfTwo(n)
  {
    var m := n / 2;
    if n == 1 {
      assert n == Pow2(0);
    } else if n % 2 == 1 {
      AndSelf(m);
      assert (n - 1) / 2 == m;
      forall k: nat ensures n != Pow2(k) {
        if k > 0 {
          assert Pow2(k) == 2 * Pow2(k - 1);
        }
      }
    } else {
      PowerOfTwoTest(m);
      HalvePowerOfTwo(m);
      assert n == 2 * m;
      AndEvenPred(m);
    }
  }
}
