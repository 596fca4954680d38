/** Writing decimal integers from right to left, two digits at a time, with thousands separators. */
module IntFormat {
  import opened Arithmetic
  import opened Decimal

  // What is written

  /** Digits in groups of three from the right. */
  function Grouped(digits: string, sep: string): string {
    if |digits| <= 3 then digits else Grouped(digits[..|digits| - 3], sep) + sep + digits[|digits| - 3..]
  }

  /** What the functor puts to the left of the k-th digit from the right. */
  function SepAfter(k: nat, sep: string): string {
    if k % 3 == 0 then sep else []
  }

  /** The text of v when k digits stand already to its right. */
  function Emit(v: nat, k: nat, sep: string): (text: string)
    ensures text != []
  {
    if v < 10 then [Digit(v)] else Emit(v / 10, k + 1, sep) + (SepAfter(k + 1, sep) + [Digit(v % 10)])
  }

  lemma {:induction false} EmitEveryThree(v: nat, k: nat, sep: string)
    ensures Emit(v, k + 3, sep) == Emit(v, k, sep)
    decreases v
  {
    assert (k + 4) % 3 == (k + 1) % 3;
    if v >= 10 { EmitEveryThree(v / 10, k + 1, sep); }
  }

  lemma {:induction false} LastThree(v: nat)
    requires v >= 1000
    ensures |Numeral(v)| == |Numeral(v / 1000)| + 3
    ensures Numeral(v) == Numeral(v / 1000) + [Digit(v / 100 % 10), Digit(v / 10 % 10), Digit(v % 10)]
  {
    var a, b: nat := v / 10, v / 100;
    assert a / 10 == b && b / 10 == v / 1000;
    assert Numeral(v) == Numeral(a) + [Digit(v % 10)];
    assert Numeral(a) == Numeral(b) + [Digit(a % 10)];
    assert Numeral(b) == Numeral(v / 1000) + [Digit(b % 10)];
  }

  lemma {:induction false} EmitThree(v: nat, sep: string)
    requires v >= 1000
    ensures Emit(v, 0, sep) == Emit(v / 1000, 3, sep) + sep + [Digit(v / 100 % 10), Digit(v / 10 % 10), Digit(v % 10)]
  {
    var a, b: nat := v / 10, v / 100;
    assert a / 10 == b && b / 10 == v / 1000;
    assert Emit(v, 0, sep) == Emit(a, 1, sep) + [Digit(v % 10)];
    assert Emit(a, 1, sep) == Emit(b, 2, sep) + [Digit(a % 10)];
    assert Emit(b, 2, sep) == Emit(v / 1000, 3, sep) + (sep + [Digit(b % 10)]);
  }

  lemma {:induction false} ShortNumeral(v: nat, sep: string)
    requires v < 1000
    ensures |Numeral(v)| <= 3 && Emit(v, 0, sep) == Numeral(v)
  {
    var a: nat := v / 10;
    if v >= 10 {
      assert Numeral(v) == Numeral(a) + [Digit(v % 10)] && Emit(v, 0, sep) == Emit(a, 1, sep) + [Digit(v % 10)];
      if a >= 10 {
        assert a / 10 < 10;
        assert Numeral(a) == [Digit(a / 10)] + [Digit(a % 10)] && Emit(a, 1, sep) == [Digit(a / 10)] + [Digit(a % 10)];
      }
    }
  }

  /** Written digit by digit, the text is the numeral in groups of three. */
  lemma {:induction false} EmitIsGrouped(v: nat, sep: string)
    ensures Emit(v, 0, sep) == Grouped(Numeral(v), sep)
  {
    if v >= 1000 {
      EmitThree(v, sep);
      EmitEveryThree(v / 1000, 0, sep);
      EmitIsGrouped(v / 1000, sep);
      LastThree(v);
      var n := Numeral(v);
      assert n[..|n| - 3] == Numeral(v / 1000);
    } else {
      ShortNumeral(v, sep);
    }
  }

  lemma OneMore(a: nat, k: nat)
    ensures a * (k + 1) == a * k + a
  {
  }

  /** The length that the caller computes. */
  lemma {:induction false} GroupedLength(digits: string, sep: string)
    requires digits != []
    ensures |Grouped(digits, sep)| == |digits| + |sep| * ((|digits| - 1) / 3)
    decreases |digits|
  {
    if |digits| <= 3 {
    } else {
      var front := digits[..|digits| - 3];
      var groups: nat := (|front| - 1) / 3;
      GroupedLength(front, sep);
      assert (|digits| - 1) / 3 == groups + 1;
      OneMore(|sep|, groups);
    }
  }

  /** Without a separator nothing is added. */
  lemma {:induction false} GroupedWithout(digits: string)
    ensures Grouped(digits, "") == digits
    decreases |digits|
  {
    if |digits| <= 3 {
    } else {
      GroupedWithout(digits[..|digits| - 3]);
      assert digits[..|digits| - 3] + "" + digits[|digits| - 3..] == digits;
    }
  }

  function IfDigit(c: char): string {
    if IsDigit(c) then [c] else []
  }

  function Ungroup(text: string): string {
    if text == [] then [] else IfDigit(text[0]) + Ungroup(text[1..])
  }

  lemma UngroupStep(text: string)
    requires text != []
    ensures Ungroup(text) == IfDigit(text[0]) + Ungroup(text[1..])
  {
  }

  lemma {:induction false} UngroupAppend(a: string, b: string)
    ensures Ungroup(a + b) == Ungroup(a) + Ungroup(b)
    decreases |a|
  {
    if a == [] {
      assert a + b == b;
    } else {
      hide Ungroup, IfDigit;
      assert (a + b)[1..] == a[1..] + b && (a + b)[0] == a[0];
      UngroupStep(a + b);
      UngroupStep(a);
      UngroupAppend(a[1..], b);
      assert IfDigit(a[0]) + (Ungroup(a[1..]) + Ungroup(b)) == IfDigit(a[0]) + Ungroup(a[1..]) + Ungroup(b);
    }
  }

  lemma {:induction false} UngroupDigits(s: string)
    requires forall i :: 0 <= i < |s| ==> IsDigit(s[i])
    ensures Ungroup(s) == s
  {
    if s != [] { UngroupDigits(s[1..]); }
  }

  lemma {:induction false} UngroupNone(s: string)
    requires forall i :: 0 <= i < |s| ==> !IsDigit(s[i])
    ensures Ungroup(s) == []
  {
    if s != [] { UngroupNone(s[1..]); }
  }

  lemma GroupedStep(digits: string, sep: string)
    ensures Grouped(digits, sep) == if |digits| <= 3
      then digits else Grouped(digits[..|digits| - 3], sep) + sep + digits[|digits| - 3..]
  {
  }

  /** A separator without digits can be read away again: the digits are what is left. */
  lemma {:induction false} GroupsReadBack(digits: string, sep: string)
    requires forall i :: 0 <= i < |digits| ==> IsDigit(digits[i])
    requires forall i :: 0 <= i < |sep| ==> !IsDigit(sep[i])
    ensures Ungroup(Grouped(digits, sep)) == digits
    decreases |digits|
  {
    hide Ungroup, Grouped;
    GroupedStep(digits, sep);
    if |digits| <= 3 {
      UngroupDigits(digits);
    } else {
      var front, back := digits[..|digits| - 3], digits[|digits| - 3..];
      UngroupAppend(Grouped(front, sep) + sep, back);
      UngroupAppend(Grouped(front, sep), sep);
      UngroupNone(sep);
      UngroupDigits(back);
      GroupsReadBack(front, sep);
      assert front + [] + back == digits;
    }
  }

  // How it is written

  /** The numerals from 00 to 99, one after the other. */
  const DIGITS: string := seq(200, i requires 0 <= i < 200 => if i % 2 == 0 then Digit(i / 20) else Digit(i / 2 % 10))

  /** One character of the buffer moved over by the separator, if it is due; gives the new front end. */
  method PutSeparator(buffer: array<char>, pos: nat, digitIndex: nat, sep: string) returns (front: nat)
    requires |SepAfter(digitIndex, sep)| <= pos <= buffer.Length
    modifies buffer
    ensures front == pos - |SepAfter(digitIndex, sep)|
    ensures buffer[front..pos] == SepAfter(digitIndex, sep)
    ensures forall j :: 0 <= j < front || pos <= j < buffer.Length ==> buffer[j] == old(buffer[j])
  {
    if digitIndex % 3 != 0 {
      return pos;
    }
    front := pos - |sep|;
    for i := 0 to |sep|
      invariant buffer[front..front + i] == sep[..i]
      invariant forall j :: 0 <= j < front || pos <= j < buffer.Length ==> buffer[j] == old(buffer[j])
    {
      buffer[front + i] := sep[i];
    }
  }

  /** A digit is put in front of position pos, and then something in front of it. */
  lemma DigitAndSeparator(before: string, mid: string, after: string, front: nat, pos: nat, end: nat, c: char)
    requires front < pos <= end <= |before| && |mid| == |after| == |before|
    requires mid == before[pos - 1 := c] && forall j :: pos - 1 <= j < |mid| ==> after[j] == mid[j]
    ensures after[front..end] == after[front..pos - 1] + ([c] + before[pos..end])
  {
    assert after[pos..end] == before[pos..end];
  }

  /** A digit in front of position pos, and the separator that follows it to the left. */
  method PutDigit(buffer: array<char>, pos: nat, c: char, digitIndex: nat, sep: string, ghost end: nat)
    returns (front: nat)
    requires |SepAfter(digitIndex, sep)| + 1 <= pos <= end <= buffer.Length
    modifies buffer
    ensures front == pos - 1 - |SepAfter(digitIndex, sep)|
    ensures buffer[front..end] == SepAfter(digitIndex, sep) + ([c] + old(buffer[pos..end]))
    ensures forall j :: 0 <= j < front || end <= j < buffer.Length ==> buffer[j] == old(buffer[j])
  {
    hide SepAfter;
    ghost var before := buffer[..];
    buffer[pos - 1] := c;
    ghost var mid := buffer[..];
    front := PutSeparator(buffer, pos - 1, digitIndex, sep);
    DigitAndSeparator(before, mid, buffer[..], front, pos, end, c);
    assert buffer[front..end] == buffer[..][front..end] && buffer[front..pos - 1] == buffer[..][front..pos - 1];
    assert before[pos..end] == old(buffer[pos..end]);
  }

  /** What two digits and their separators put in front of a text. */
  function Pair(v: nat, k: nat, sep: string, tail: string): string {
    SepAfter(k + 2, sep) + ([Digit(v / 10 % 10)] + (SepAfter(k + 1, sep) + ([Digit(v % 10)] + tail)))
  }

  lemma {:induction false} EmitStep(v: nat, k: nat, sep: string, tail: string)
    requires v >= 10
    ensures Emit(v, k, sep) + tail == Emit(v / 10, k + 1, sep) + (SepAfter(k + 1, sep) + ([Digit(v % 10)] + tail))
  {
  }

  lemma EmitPair(v: nat, k: nat, sep: string, tail: string)
    requires v >= 100
    ensures Emit(v, k, sep) + tail == Emit(v / 100, k + 2, sep) + Pair(v, k, sep, tail)
  {
    EmitStep(v, k, sep, tail);
    EmitStep(v / 10, k + 1, sep, SepAfter(k + 1, sep) + ([Digit(v % 10)] + tail));
    assert v / 10 / 10 == v / 100;
  }

  /** The last one or two digits, with the separator between them. */
  function LastDigits(v: nat, k: nat, sep: string, tail: string): string
    requires v < 100
  {
    if v < 10 then [Digit(v)] + tail else [Digit(v / 10)] + (SepAfter(k + 1, sep) + ([Digit(v % 10)] + tail))
  }

  lemma {:induction false} EmitLast(v: nat, k: nat, sep: string, tail: string)
    requires v < 100
    ensures Emit(v, k, sep) + tail == LastDigits(v, k, sep, tail)
  {
  }

  lemma DigitsOfRemainder(v: nat)
    ensures v % 100 / 10 == v / 10 % 10 && v % 100 % 10 == v % 10
  {
    var q, t, u := v / 100, v % 100 / 10, v % 100 % 10;
    assert v == 10 * (10 * q + t) + u;
  }

  lemma TwoDigits(v: nat)
    ensures |DIGITS| == 200
    ensures var index := v % 100 * 2; DIGITS[index] == Digit(v / 10 % 10) && DIGITS[index + 1] == Digit(v % 10)
  {
    var r := v % 100;
    DigitsOfRemainder(v);
    assert r * 2 / 20 == r / 10 && (r * 2 + 1) / 2 == r;
  }

  method PutPair(buffer: array<char>, pos: nat, v: nat, k: nat, sep: string, ghost end: nat) returns (front: nat)
    requires |SepAfter(k + 1, sep)| + |SepAfter(k + 2, sep)| + 2 <= pos <= end <= buffer.Length
    modifies buffer
    ensures front <= pos
    ensures buffer[front..end] == Pair(v, k, sep, old(buffer[pos..end]))
    ensures forall j :: 0 <= j < front || end <= j < buffer.Length ==> buffer[j] == old(buffer[j])
  {
    var index := v % 100 * 2;
    TwoDigits(v);
    front := PutDigit(buffer, pos, DIGITS[index + 1], k + 1, sep, end);
    front := PutDigit(buffer, front, DIGITS[index], k + 2, sep, end);
  }

  lemma LastFits(v: nat, k: nat, sep: string, tail: string)
    requires v < 100
    ensures |LastDigits(v, k, sep, tail)| == |tail| + if v < 10 then 1 else 2 + |SepAfter(k + 1, sep)|
    ensures LastDigits(v, k, sep, tail) == if v < 10
      then [Digit(v)] + tail else [Digit(v / 10)] + (SepAfter(k + 1, sep) + ([Digit(v % 10)] + tail))
  {
  }

  lemma BelowHundred(v: nat)
    requires v < 100
    ensures v % 100 == v && v / 10 % 10 == v / 10
  {
  }

  lemma LastTwoDigits(v: nat)
    requires 10 <= v < 100
    ensures |DIGITS| == 200 && DIGITS[v * 2] == Digit(v / 10) && DIGITS[v * 2 + 1] == Digit(v % 10)
  {
    hide *;
    TwoDigits(v);
    BelowHundred(v);
  }

  method PutFirst(buffer: array<char>, pos: nat, c: char, ghost end: nat)
    requires 0 < pos <= end <= buffer.Length
    modifies buffer
    ensures buffer[pos - 1..end] == [c] + old(buffer[pos..end])
    ensures forall j :: 0 <= j < pos - 1 || end <= j < buffer.Length ==> buffer[j] == old(buffer[j])
  {
    buffer[pos - 1] := c;
  }

  method PutLastDigits(buffer: array<char>, pos: nat, v: nat, k: nat, sep: string, ghost end: nat)
    requires v < 100 && pos <= end <= buffer.Length && |LastDigits(v, k, sep, buffer[pos..end])| <= end
    modifies buffer
    ensures var text := LastDigits(v, k, sep, old(buffer[pos..end]));
      && buffer[end - |text|..end] == text
      && forall j :: 0 <= j < end - |text| || end <= j < buffer.Length ==> buffer[j] == old(buffer[j])
  {
    hide *;
    LastFits(v, k, sep, buffer[pos..end]);
    if v < 10 {
      PutFirst(buffer, pos, Digit(v), end);
      return;
    }
    LastTwoDigits(v);
    var front := PutDigit(buffer, pos, DIGITS[v * 2 + 1], k + 1, sep, end);
    PutFirst(buffer, front, DIGITS[v * 2], end);
  }

  lemma PairFits(v: nat, k: nat, sep: string, tail: string)
    ensures |Pair(v, k, sep, tail)| == |SepAfter(k + 1, sep)| + |SepAfter(k + 2, sep)| + 2 + |tail|
  {
  }

  /** Fills the buffer to the left of `at + numDigits` with the grouped numeral of the value and changes
      nothing else; the functor that adds no separators is the case of an empty one. */
  method FormatDecimal(buffer: array<char>, at: nat, value: nat, numDigits: nat, sep: string)
    requires |Grouped(Numeral(value), sep)| <= at + numDigits <= buffer.Length
    modifies buffer
    ensures var (text, end) := (Grouped(Numeral(value), sep), at + numDigits);
      && buffer[end - |text|..end] == text
      && forall j :: 0 <= j < end - |text| || end <= j < buffer.Length ==> buffer[j] == old(buffer[j])
  {
    hide Grouped, Numeral, Emit, Pair, LastDigits;
    EmitIsGrouped(value, sep);
    var end := at + numDigits;
    var pos: nat, rest: nat, digitIndex: nat := end, value, 0;
    assert Emit(value, 0, sep) + [] == Emit(value, 0, sep);
    while rest >= 100
      invariant pos <= end
      invariant Emit(value, 0, sep) == Emit(rest, digitIndex, sep) + buffer[pos..end]
      invariant forall j :: 0 <= j < pos || end <= j < buffer.Length ==> buffer[j] == old(buffer[j])
      decreases rest
    {
      EmitPair(rest, digitIndex, sep, buffer[pos..end]);
      PairFits(rest, digitIndex, sep, buffer[pos..end]);
      pos := PutPair(buffer, pos, rest, digitIndex, sep, end);
      rest, digitIndex := rest / 100, digitIndex + 2;
    }
    EmitLast(rest, digitIndex, sep, buffer[pos..end]);
    PutLastDigits(buffer, pos, rest, digitIndex, sep, end);
  }
}
