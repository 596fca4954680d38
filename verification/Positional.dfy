/** Numbers written with the digits of a table, in the base that is the table's length. */
module Positional {
  import opened Arithmetic

  lemma TwiceAtMost(q: nat, base: nat)
    requires base >= 2
    ensures q * base >= q * 2
  {
  }

  lemma QuotientSmaller(n: nat, base: nat)
    requires base >= 2
    ensures n >= base ==> 0 < n / base < n
    ensures n < base ==> n / base == 0
  {
    if n < base {
      ModUnique(n, base, 0, n);
    } else {
      var q, r := n / base, n % base;
      assert n == q * base + r;
      TwiceAtMost(q, base);
    }
  }

  function Quotient(n: nat, base: nat): (r: nat)
    requires base >= 2
    ensures n >= base ==> 0 < r < n
    ensures n < base ==> r == 0
  {
    QuotientSmaller(n, base);
    n / base
  }

  function Remainder(n: nat, base: nat): (r: nat)
    requires base >= 2
    ensures r < base
    ensures n < base ==> r == n
  {
    if n < base then ModUnique(n, base, 0, n); n else n % base
  }

  lemma Recompose(n: nat, base: nat)
    requires base >= 2
    ensures Quotient(n, base) * base + Remainder(n, base) == n
  {
    if n < base {
      assert Quotient(n, base) == 0;
    }
  }

  /** Without leading zeros, most significant digit first. */
  function Digits(n: nat, table: string): (digits: string)
    requires |table| >= 2
    ensures digits != ""
    decreases n
  {
    if n < |table| then [table[n]] else Digits(Quotient(n, |table|), table) + [table[Remainder(n, |table|)]]
  }

  predicate Different(table: string) {
    forall a, b :: 0 <= a < b < |table| ==> table[a] != table[b]
  }

  /** The first position of a digit in the table. */
  function Position(c: char, table: string): (i: nat)
    ensures i <= |table|
    ensures i < |table| ==> table[i] == c
    ensures forall j :: 0 <= j < i ==> table[j] != c
  {
    if table == "" || table[0] == c then 0 else 1 + Position(c, table[1..])
  }

  /** The number that digits stand for. */
  function Value(digits: string, table: string): nat {
    if digits == "" then 0 else Value(digits[..|digits| - 1], table) * |table| + Position(digits[|digits| - 1], table)
  }

  lemma PositionOf(table: string, i: nat)
    requires i < |table| && Different(table)
    ensures Position(table[i], table) == i
  {
  }

  /** Every digit comes from the table. */
  lemma {:induction false} DigitsFromTable(n: nat, table: string)
    requires |table| >= 2
    ensures forall i :: 0 <= i < |Digits(n, table)| ==> Digits(n, table)[i] in table
    decreases n
  {
    if n >= |table| { DigitsFromTable(Quotient(n, |table|), table); }
  }

  /** The digits read back are the number, for every table of different digits. */
  lemma {:induction false} ValueOfDigits(n: nat, table: string)
    requires |table| >= 2 && Different(table)
    ensures Value(Digits(n, table), table) == n
    decreases n
  {
    hide Quotient, Remainder, Position, Different;
    var digits := Digits(n, table);
    PositionOf(table, Remainder(n, |table|));
    if n < |table| {
      assert Value("", table) == 0 && digits[..0] == "";
    } else {
      assert digits[..|digits| - 1] == Digits(Quotient(n, |table|), table);
      ValueOfDigits(Quotient(n, |table|), table);
      Recompose(n, |table|);
    }
  }
}
