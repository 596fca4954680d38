/** 128-bit identifiers: the packing of their fields and their two text forms. */
module Uuid {
  import opened Wrappers
  import opened Arithmetic
  import opened Bits
  import opened Positional

  const WORD: nat := 0x1_0000_0000_0000_0000

  type Word = x: int | 0 <= x < WORD

  datatype Uuid = Uuid(ab: Word, cd: Word)

  /** x << k in 64 bits */
  function Shl(x: nat, k: nat): Word {
    x * Pow2(k) % WORD
  }

  lemma NotNegative(x: nat, m: nat)
    requires m > 0
    ensures x / m >= 0
  {
    var q, r := x / m, x % m;
    assert x == q * m + r;
    MulBound(q, m);
  }

  /** x >> k */
  function Shr(x: nat, k: nat): nat {
    NotNegative(x, Pow2(k));
    x / Pow2(k)
  }

  lemma Times16(k: nat)
    ensures Pow2(k + 4) == 16 * Pow2(k) && Pow2(0) == 1
  {
    assert Pow2(k + 2) == 2 * Pow2(k + 1);
    assert Pow2(k + 4) == 2 * Pow2(k + 3) == 4 * Pow2(k + 2);
  }

  lemma WordIsPower()
    ensures Pow2(16) == 0x1_0000 && Pow2(32) == 0x1_0000_0000 && Pow2(48) == 0x1_0000_0000_0000 && Pow2(64) == WORD
    ensures Pow2(12) == 0x1000
  {
    hide Pow2;
    Times16(0); Times16(4); Times16(8); Times16(12);
    Times16(16); Times16(20); Times16(24); Times16(28);
    Times16(32); Times16(36); Times16(40); Times16(44);
    Times16(48); Times16(52); Times16(56); Times16(60);
  }

  /** An or of numbers below 2^k is below 2^k. */
  lemma {:induction false} OrBelow(x: nat, y: nat, k: nat)
    requires x < Pow2(k) && y < Pow2(k)
    ensures Or(x, y) < Pow2(k)
    decreases k
  {
    if k > 0 && x > 0 && y > 0 {
      OrBelow(x / 2, y / 2, k - 1);
    }
  }

  function OrWord(x: Word, y: Word): Word {
    WordIsPower();
    OrBelow(x, y, 64);
    Or(x, y)
  }

  const HEX := "0123456789abcdef"

  function Letter62(i: nat): char
    requires i < 62
  {
    if i < 10 then ('0' as int + i) as char else if i < 36
      then ('A' as int + (i - 10)) as char else ('a' as int + (i - 36)) as char
  }

  /** Digits, upper-case letters, lower-case letters. */
  function Base62Map(): (t: string)
    ensures |t| == 62 && forall i :: 0 <= i < 62 ==> t[i] == Letter62(i)
  {
    seq(62, i requires 0 <= i < 62 => Letter62(i))
  }

  lemma LettersDiffer()
    ensures Different(Base62Map())
  {
  }

  lemma HexDiffers()
    ensures Different(HEX) && |HEX| == 16
  {
    forall i | 0 <= i < 16 ensures HEX[i] as int == if i < 10 then 0x30 + i else 0x61 + (i - 10) {
    }
  }

  lemma TablesDiffer()
    ensures Different(HEX) && Different(Base62Map()) && |HEX| == 16
  {
    hide *;
    LettersDiffer();
    HexDiffers();
  }

  // Base 62

  lemma NextDigit(rest: nat, table: string, written: string)
    requires |table| >= 2 && rest > 0
    ensures var next := Quotient(rest, |table|);
      Digits(rest, table) + written
        == (if next == 0 then "" else Digits(next, table)) + ([table[Remainder(rest, |table|)]] + written)
  {
    hide Quotient, Remainder;
  }

  /** The digits of a number, last one first. */
  method RebaseNumber(input: nat, basemap: string) returns (res: string)
    requires |basemap| >= 2
    ensures res == Digits(input, basemap)
  {
    var size := |basemap|;
    res := [basemap[Remainder(input, size)]];
    var rest := Quotient(input, size);
    while rest > 0
      invariant Digits(input, basemap) == (if rest == 0 then "" else Digits(rest, basemap)) + res
      decreases rest
    {
      NextDigit(rest, basemap, res);
      res := [basemap[Remainder(rest, size)]] + res;
      rest := Quotient(rest, size);
    }
  }

  /** The position of a character, or the greatest 64-bit number. */
  function Strpos(chars: string, c: char): Word {
    if Position(c, chars) < |chars| && Position(c, chars) < WORD then Position(c, chars) else WORD - 1
  }

  function DecodeStep(res: Word, basemap: string, c: char): Word {
    (|basemap| * res + Strpos(basemap, c)) % WORD
  }

  /** What the decoding loop computes, with arithmetic modulo 2^64; the first character of an empty text is
      the terminating NUL. */
  function Decoded(input: string, basemap: string): Word {
    if |input| <= 1 then Strpos(basemap, if input == "" then 0 as char else input[0])
    else DecodeStep(Decoded(input[..|input| - 1], basemap), basemap, input[|input| - 1])
  }

  method RebaseText(input: string, basemap: string) returns (res: Word)
    ensures res == Decoded(input, basemap)
  {
    res := Strpos(basemap, if input == "" then 0 as char else input[0]);
    var i := 1;
    while i < |input|
      invariant i <= |input| || i == 1
      invariant res == Decoded(if i <= |input| then input[..i] else input, basemap)
    {
      assert input[..i + 1][..i] == input[..i] && input[..i + 1][i] == input[i];
      hide DecodeStep, Strpos;
      res := DecodeStep(res, basemap, input[i]);
      i := i + 1;
    }
    assert input != "" ==> input[..|input|] == input;
  }

  lemma StepIs(res: Word, table: string, c: char)
    requires c in table && res * |table| + Position(c, table) < WORD
    ensures DecodeStep(res, table, c) == res * |table| + Position(c, table)
  {
    var n := res * |table| + Position(c, table);
    assert |table| * res + Strpos(table, c) == n;
    ModUnique(n, WORD, 0, n);
  }

  /** As long as the number fits the word, no step of the loop wraps around. */
  lemma {:induction false} DecodedIsValue(digits: string, table: string)
    requires digits != "" && |table| >= 2 && forall i :: 0 <= i < |digits| ==> digits[i] in table
    requires Value(digits, table) < WORD
    ensures Decoded(digits, table) == Value(digits, table)
    decreases |digits|
  {
    hide DecodeStep, Position;
    var front, last := digits[..|digits| - 1], digits[|digits| - 1];
    assert last in table;
    if |digits| == 1 {
      assert front == "" && Value(front, table) == 0;
    } else {
      TwiceAtMost(Value(front, table), |table|);
      DecodedIsValue(front, table);
      StepIs(Value(front, table), table, last);
    }
  }

  /** Decoding what was encoded gives every 64-bit number back. */
  lemma RebaseRoundTrip(n: nat, table: string)
    requires |table| >= 2 && Different(table) && n < WORD
    ensures Decoded(Digits(n, table), table) == n
  {
    DigitsFromTable(n, table);
    ValueOfDigits(n, table);
    DecodedIsValue(Digits(n, table), table);
  }

  function Base62(u: Uuid): string {
    Digits(u.ab, Base62Map()) + ("-" + Digits(u.cd, Base62Map()))
  }

  // Hexadecimal

  function Zeros(n: nat): string {
    seq(n, i => '0')
  }

  /** A number printed in hexadecimal with a least width. */
  function Padded(width: nat, n: nat): string {
    var digits := Digits(n, HEX);
    (if |digits| < width then Zeros(width - |digits|) else "") + digits
  }

  /** The fields of the classic form: the last of its five groups holds two of them. */
  function Classic(a: nat, b: nat, c: nat, d: nat, high: nat, low: nat): string {
    Padded(8, a) + ("-" + (Padded(4, b) + ("-" + (Padded(4, c)
    + ("-" + (Padded(4, d) + ("-" + (Padded(4, high) + Padded(8, low)))))))))
  }

  /** Groups of 8, 4, 4, 4 and 12 digits. */
  function Str(u: Uuid): string {
    var a, b := Shr(u.ab, 32), And(u.ab, 0xFFFF_FFFF);
    var c, d := Shr(u.cd, 32), And(u.cd, 0xFFFF_FFFF);
    Classic(a, Shr(b, 16), And(b, 0xFFFF), Shr(c, 16), And(c, 0xFFFF), d)
  }

  function HexValue(c: char): Option<nat> {
    if '0' <= c <= '9' then Some(c as int - '0' as int)
    else if 'a' <= c <= 'f' then Some(c as int - 'a' as int + 10)
    else if 'A' <= c <= 'F' then Some(c as int - 'A' as int + 10)
    else None
  }

  function HexRun(s: string): (r: string)
    ensures r <= s && forall i :: 0 <= i < |r| ==> HexValue(r[i]).Some?
  {
    if s == "" || HexValue(s[0]) == None then "" else [s[0]] + HexRun(s[1..])
  }

  function HexNumber(run: string): nat
    requires forall i :: 0 <= i < |run| ==> HexValue(run[i]).Some?
  {
    if run == "" then 0 else
      assert HexValue(run[|run| - 1]).Some?;
      16 * HexNumber(run[..|run| - 1]) + HexValue(run[|run| - 1]).value
  }

  /** Extraction of one hexadecimal number from a stream: it fails without digits and past 64 bits. */
  function ReadHex(s: string): Option<(Word, string)> {
    var run := HexRun(s);
    if run == "" || HexNumber(run) >= WORD then None else Some((HexNumber(run), s[|run|..]))
  }

  /** Extraction of a number and the character behind it. */
  function ReadField(s: string): Option<(Word, string)> {
    match ReadHex(s)
    case None => None
    case Some((n, rest)) => if rest == "" then None else Some((n, rest[1..]))
  }

  function Joined(a: Word, b: Word, c: Word, d: Word, e: Word): Uuid {
    Uuid(OrWord(OrWord(Shl(a, 32), Shl(b, 16)), c), OrWord(Shl(d, 48), e))
  }

  function ReadClassic(s: string): Option<Uuid> {
    match ReadField(s)
    case None => None
    case Some((a, s1)) => match ReadField(s1)
      case None => None
      case Some((b, s2)) => match ReadField(s2)
        case None => None
        case Some((c, s3)) => match ReadField(s3)
          case None => None
          case Some((d, s4)) => match ReadHex(s4)
            case None => None
            case Some((e, _)) => Some(Joined(a, b, c, d, e))
  }

  function FindDash(s: string, from: nat): (i: nat)
    requires from <= |s|
    ensures from <= i <= |s| && (i < |s| ==> s[i] == '-') && forall j :: from <= j < i ==> s[j] != '-'
    decreases |s| - from
  {
    if from == |s| || s[from] == '-' then from else FindDash(s, from + 1)
  }

  /** One dash means base 62, more the classic form, none neither. */
  function Rebuild(s: string): Uuid {
    var idx := FindDash(s, 0);
    if idx == |s| then Uuid(0, 0)
    else if FindDash(s, idx + 1) == |s| then Uuid(Decoded(s[..idx], Base62Map()), Decoded(s[idx + 1..], Base62Map()))
    else match ReadClassic(s)
      case Some(u) => u
      case None => Uuid(0, 0)
  }

  // Both text forms can be read back

  predicate Dashless(s: string) {
    forall i :: 0 <= i < |s| ==> s[i] != '-'
  }

  lemma {:induction false} NoDash(n: nat, table: string)
    requires |table| >= 2 && Dashless(table)
    ensures Dashless(Digits(n, table))
  {
    DigitsFromTable(n, table);
  }

  lemma {:induction false} DashIsAt(s: string, from: nat, at: nat)
    requires from <= at <= |s| && (at < |s| ==> s[at] == '-') && forall j :: from <= j < at ==> s[j] != '-'
    ensures FindDash(s, from) == at
    decreases at - from
  {
    if from < at { DashIsAt(s, from + 1, at); }
  }

  lemma AroundDash(front: string, rest: string)
    ensures var s := front + ("-" + rest);
      && |s| == |front| + 1 + |rest| && s[..|front|] == front && s[|front|] == '-' && s[|front| + 1..] == rest
  {
  }

  lemma DashAfter(front: string, rest: string)
    requires Dashless(front)
    ensures FindDash(front + ("-" + rest), 0) == |front|
  {
    hide FindDash;
    DashIsAt(front + ("-" + rest), 0, |front|);
  }

  lemma BehindDash(front: string, rest: string, j: nat)
    requires |front| < j <= |front| + |rest|
    ensures (front + ("-" + rest))[j] == rest[j - |front| - 1]
  {
  }

  lemma NoOtherDash(front: string, rest: string)
    requires Dashless(rest)
    ensures FindDash(front + ("-" + rest), |front| + 1) == |front| + 1 + |rest|
  {
    hide FindDash;
    var s := front + ("-" + rest);
    forall j | |front| < j < |s| ensures s[j] != '-' {
      BehindDash(front, rest, j);
    }
    DashIsAt(s, |front| + 1, |s|);
  }

  lemma AnotherDash(front: string, rest: string)
    requires !Dashless(rest)
    ensures FindDash(front + ("-" + rest), |front| + 1) < |front| + 1 + |rest|
  {
    hide FindDash;
    var i :| 0 <= i < |rest| && rest[i] == '-';
    BehindDash(front, rest, |front| + 1 + i);
  }

  /** Where the first two dashes are when none is in the pieces. */
  lemma FirstDash(front: string, rest: string)
    requires Dashless(front)
    ensures var s := front + ("-" + rest);
      FindDash(s, 0) == |front| && s[..|front|] == front && s[|front| + 1..] == rest
    ensures Dashless(rest) ==> FindDash(front + ("-" + rest), |front| + 1) == |front| + 1 + |rest|
    ensures !Dashless(rest) ==> FindDash(front + ("-" + rest), |front| + 1) < |front| + 1 + |rest|
  {
    hide FindDash, Dashless;
    DashAfter(front, rest);
    AroundDash(front, rest);
    if Dashless(rest) { NoOtherDash(front, rest); } else { AnotherDash(front, rest); }
  }

  lemma DashInNeither()
    ensures Dashless(Base62Map()) && Dashless(HEX)
  {
  }

  /** For every identifier: the base 62 form gives it back. */
  lemma RebuildInvertsBase62(u: Uuid)
    ensures Rebuild(Base62(u)) == u
  {
    hide Base62Map, Digits, Decoded, Different, FindDash;
    TablesDiffer();
    DashInNeither();
    NoDash(u.ab, Base62Map());
    NoDash(u.cd, Base62Map());
    FirstDash(Digits(u.ab, Base62Map()), Digits(u.cd, Base62Map()));
    RebaseRoundTrip(u.ab, Base62Map());
    RebaseRoundTrip(u.cd, Base62Map());
  }

  // The classic form

  function Pow16(k: nat): (r: nat)
    ensures r > 0
  {
    if k == 0 then 1 else 16 * Pow16(k - 1)
  }

  predicate AllHex(s: string) {
    forall i :: 0 <= i < |s| ==> HexValue(s[i]).Some?
  }

  /** Digits with k places have at most k characters. */
  lemma {:induction false} ShortHex(n: nat, k: nat)
    requires k >= 1 && n < Pow16(k)
    ensures |Digits(n, HEX)| <= k
    decreases k
  {
    TablesDiffer();
    assert Pow16(1) == 16 * Pow16(0);
    if n < 16 {
    } else {
      Recompose(n, 16);
      assert Pow16(k) == 16 * Pow16(k - 1);
      ShortHex(Quotient(n, 16), k - 1);
    }
  }

  lemma HexDigitValue(d: nat)
    requires d < 16
    ensures |HEX| == 16 && HexValue(HEX[d]) == Some(d)
  {
  }

  lemma {:induction false} HexOfDigits(n: nat)
    ensures |HEX| == 16 && AllHex(Digits(n, HEX)) && HexNumber(Digits(n, HEX)) == n
  {
    TablesDiffer();
    var digits := Digits(n, HEX);
    HexDigitValue(Remainder(n, 16));
    if n < 16 {
      assert HexNumber(digits[..0]) == 0;
    } else {
      HexOfDigits(Quotient(n, 16));
      Recompose(n, 16);
      assert digits[..|digits| - 1] == Digits(Quotient(n, 16), HEX);
    }
  }

  lemma ShiftOnce(a: nat, p: nat, f: nat, d: nat)
    ensures 16 * (a * p + f) + d == a * (16 * p) + (16 * f + d)
  {
  }

  /** Digits behind digits shift the number in front. */
  lemma {:induction false} HexAppend(a: string, b: string)
    requires AllHex(a) && AllHex(b)
    ensures AllHex(a + b) && HexNumber(a + b) == HexNumber(a) * Pow16(|b|) + HexNumber(b)
    decreases |b|
  {
    if b == "" {
      assert a + b == a;
    } else {
      var front, last := b[..|b| - 1], b[|b| - 1];
      HexAppend(a, front);
      assert (a + b)[..|a + b| - 1] == a + front;
      ShiftOnce(HexNumber(a), Pow16(|front|), HexNumber(front), HexValue(last).value);
    }
  }

  lemma {:induction false} HexOfZeros(k: nat)
    ensures AllHex(Zeros(k)) && HexNumber(Zeros(k)) == 0
  {
    if k == 0 {
    } else {
      HexOfZeros(k - 1);
      assert Zeros(k)[..k - 1] == Zeros(k - 1);
    }
  }

  /** A padded number has exactly the width asked for, and its value. */
  lemma PaddedIs(width: nat, n: nat)
    requires width >= 1 && n < Pow16(width)
    ensures |Padded(width, n)| == width && AllHex(Padded(width, n)) && HexNumber(Padded(width, n)) == n
  {
    hide HexNumber, Digits;
    ShortHex(n, width);
    HexOfDigits(n);
    HexOfZeros(width - |Digits(n, HEX)|);
    HexAppend(Zeros(width - |Digits(n, HEX)|), Digits(n, HEX));
    assert Zeros(0) + Digits(n, HEX) == Digits(n, HEX);
  }

  lemma {:induction false} HexRunOf(run: string, rest: string)
    requires AllHex(run) && (rest == "" || HexValue(rest[0]) == None)
    ensures HexRun(run + rest) == run
  {
    if run == "" {
      assert run + rest == rest;
    } else {
      assert (run + rest)[1..] == run[1..] + rest;
      HexRunOf(run[1..], rest);
    }
  }

  lemma FieldIsRead(width: nat, n: nat, rest: string)
    requires width >= 1 && n < Pow16(width) && n < WORD
    ensures ReadField(Padded(width, n) + ("-" + rest)) == Some((n, rest))
  {
    hide HexNumber, Padded, HexRun;
    PaddedIs(width, n);
    HexRunOf(Padded(width, n), "-" + rest);
    var s := Padded(width, n) + ("-" + rest);
    assert s[width..] == "-" + rest && ("-" + rest)[1..] == rest;
  }

  lemma LastFieldIsRead(high: nat, low: nat)
    requires high < Pow16(4) && low < Pow16(8) && high * Pow16(8) + low < WORD
    ensures ReadHex(Padded(4, high) + Padded(8, low)) == Some((high * Pow16(8) + low, ""))
  {
    hide HexNumber, Padded, HexRun;
    PaddedIs(4, high);
    PaddedIs(8, low);
    var run := Padded(4, high) + Padded(8, low);
    HexAppend(Padded(4, high), Padded(8, low));
    HexRunOf(run, "");
    assert run + "" == run && run[|run|..] == "";
  }

  lemma Powers()
    ensures Pow16(4) == 0x1_0000 && Pow16(8) == 0x1_0000_0000
  {
    assert Pow16(2) == 256;
    assert Pow16(4) == 16 * (16 * Pow16(2));
    assert Pow16(6) == 16 * (16 * Pow16(4));
    assert Pow16(8) == 16 * (16 * Pow16(6));
  }

  // Shifts and masks of words

  lemma MaskOf(x: nat)
    ensures And(x, 0xFFFF) == x % 0x1_0000 && And(x, 0xFFFF_FFFF) == x % 0x1_0000_0000 && And(x, 0xFFF) == x % 0x1000
  {
    hide Pow2, And;
    WordIsPower();
    MaskIsMod(x, 16);
    MaskIsMod(x, 32);
    MaskIsMod(x, 12);
  }

  lemma ShiftsOf(x: nat)
    ensures Shr(x, 16) == x / 0x1_0000 && Shr(x, 32) == x / 0x1_0000_0000
    ensures x * 0x1_0000 < WORD ==> Shl(x, 16) == x * 0x1_0000
    ensures x * 0x1_0000_0000 < WORD ==> Shl(x, 32) == x * 0x1_0000_0000
    ensures x * 0x1_0000_0000_0000 < WORD ==> Shl(x, 48) == x * 0x1_0000_0000_0000
  {
    hide Pow2;
    WordIsPower();
  }

  /** Fields that do not overlap are put together by or as by addition. */
  lemma JoinedIs(a: Word, b: Word, c: Word, d: Word, e: Word)
    requires a < 0x1_0000_0000 && b < 0x1_0000 && c < 0x1_0000 && d < 0x1_0000 && e < 0x1_0000_0000_0000
    ensures Joined(a, b, c, d, e) == Uuid(a * 0x1_0000_0000 + b * 0x1_0000 + c, d * 0x1_0000_0000_0000 + e)
  {
    hide Pow2, Or, Shl;
    WordIsPower();
    ShiftsOf(a);
    ShiftsOf(b);
    ShiftsOf(d);
    DisjointOr(a, 32, b * 0x1_0000);
    DisjointOr(a * 0x1_0000 + b, 16, c);
    DisjointOr(d, 48, e);
  }

  lemma HexHasNoDash(s: string)
    requires AllHex(s)
    ensures Dashless(s)
  {
  }

  /** Five groups with dashes between them are read as the classic form. */
  lemma FieldsAreRead(a: nat, b: nat, c: nat, d: nat, high: nat, low: nat)
    requires a < 0x1_0000_0000 && b < 0x1_0000 && c < 0x1_0000 && d < 0x1_0000 && high < 0x1_0000 && low < 0x1_0000_0000
    ensures ReadClassic(Classic(a, b, c, d, high, low)) == Some(Joined(a, b, c, d, high * 0x1_0000_0000 + low))
  {
    hide Padded, ReadField, ReadHex, Joined, Pow16, HexNumber;
    Powers();
    var s5 := Padded(4, high) + Padded(8, low);
    var s4 := Padded(4, d) + ("-" + s5);
    var s3 := Padded(4, c) + ("-" + s4);
    var s2 := Padded(4, b) + ("-" + s3);
    FieldIsRead(8, a, s2);
    FieldIsRead(4, b, s3);
    FieldIsRead(4, c, s4);
    FieldIsRead(4, d, s5);
    LastFieldIsRead(high, low);
  }

  lemma ClassicIsRead(a: nat, b: nat, c: nat, d: nat, high: nat, low: nat)
    requires a < 0x1_0000_0000 && b < 0x1_0000 && c < 0x1_0000 && d < 0x1_0000 && high < 0x1_0000 && low < 0x1_0000_0000
    ensures Rebuild(Classic(a, b, c, d, high, low)) == Joined(a, b, c, d, high * 0x1_0000_0000 + low)
  {
    hide Padded, ReadClassic, Joined, FindDash, Pow16, HexNumber;
    Powers();
    var rest := Padded(4, c) + ("-" + (Padded(4, d) + ("-" + (Padded(4, high) + Padded(8, low)))));
    var s2 := Padded(4, b) + ("-" + rest);
    FieldsAreRead(a, b, c, d, high, low);
    PaddedIs(8, a);
    PaddedIs(4, b);
    HexHasNoDash(Padded(8, a));
    FirstDash(Padded(8, a), s2);
    assert s2[|Padded(4, b)|] == '-';
  }

  /** The halves and quarters of a word. */
  lemma HalvesOf(x: Word)
    ensures var high, low := Shr(x, 32), And(x, 0xFFFF_FFFF);
      && high == x / 0x1_0000_0000 && low == x % 0x1_0000_0000
      && Shr(high, 16) == high / 0x1_0000 && And(high, 0xFFFF) == high % 0x1_0000
      && Shr(low, 16) == low / 0x1_0000 && And(low, 0xFFFF) == low % 0x1_0000
  {
    hide Shr, And;
    MaskOf(x);
    ShiftsOf(x);
    MaskOf(x / 0x1_0000_0000);
    ShiftsOf(x / 0x1_0000_0000);
    MaskOf(x % 0x1_0000_0000);
    ShiftsOf(x % 0x1_0000_0000);
  }

  lemma WordOfParts(x: Word)
    ensures var high, low := x / 0x1_0000_0000, x % 0x1_0000_0000;
      && high < 0x1_0000_0000 && high / 0x1_0000 < 0x1_0000 && low / 0x1_0000 < 0x1_0000
      && high * 0x1_0000_0000 + low / 0x1_0000 * 0x1_0000 + low % 0x1_0000 == x
      && high / 0x1_0000 * 0x1_0000_0000_0000 + (high % 0x1_0000 * 0x1_0000_0000 + low) == x
      && high % 0x1_0000 * 0x1_0000_0000 + low < 0x1_0000_0000_0000
  {
  }

  /** For every identifier: the classic form gives it back. */
  lemma RebuildInvertsStr(u: Uuid)
    ensures Rebuild(Str(u)) == u
  {
    hide Classic, Rebuild, Joined, And, Shr;
    HalvesOf(u.ab);
    HalvesOf(u.cd);
    WordOfParts(u.ab);
    WordOfParts(u.cd);
    var a, b := u.ab / 0x1_0000_0000, u.ab % 0x1_0000_0000;
    var c, d := u.cd / 0x1_0000_0000, u.cd % 0x1_0000_0000;
    ClassicIsRead(a, b / 0x1_0000, b % 0x1_0000, c / 0x1_0000, c % 0x1_0000, d);
    JoinedIs(a, b / 0x1_0000, b % 0x1_0000, c / 0x1_0000, c % 0x1_0000 * 0x1_0000_0000 + d);
  }

  // Other texts

  function Dashed(fields: seq<string>): string {
    if fields == [] then "" else if |fields| == 1 then fields[0] else fields[0] + ("-" + Dashed(fields[1..]))
  }

  /** Hexadecimal digits of a number that fits 64 bits. */
  predicate IsWordText(field: string) {
    field != "" && AllHex(field) && HexNumber(field) < WORD
  }

  lemma HexIsExtracted(field: string, rest: string)
    requires AllHex(field) && (rest == "" || HexValue(rest[0]) == None)
    ensures ReadHex(field + rest) == if IsWordText(field) then Some((HexNumber(field), rest)) else None
  {
    hide HexNumber, HexRun;
    HexRunOf(field, rest);
    assert (field + rest)[|field|..] == rest;
  }

  lemma DashedFieldIsRead(fields: seq<string>)
    requires fields != [] && AllHex(fields[0])
    ensures ReadField(Dashed(fields))
      == if IsWordText(fields[0]) && |fields| > 1 then Some((HexNumber(fields[0]), Dashed(fields[1..]))) else None
    ensures ReadHex(Dashed(fields)).Some? <==> IsWordText(fields[0])
    ensures IsWordText(fields[0]) ==> ReadHex(Dashed(fields)).value.0 == HexNumber(fields[0])
  {
    hide HexNumber, ReadHex, IsWordText, AllHex;
    if |fields| == 1 {
      assert fields[0] + "" == fields[0];
      HexIsExtracted(fields[0], "");
    } else {
      var rest := "-" + Dashed(fields[1..]);
      assert rest[0] == '-' && rest[1..] == Dashed(fields[1..]);
      HexIsExtracted(fields[0], rest);
    }
  }

  lemma DashedIsRead(fields: seq<string>)
    requires |fields| >= 3 && forall i :: 0 <= i < |fields| ==> AllHex(fields[i])
    ensures ReadClassic(Dashed(fields)) ==
      if |fields| >= 5 && forall i :: 0 <= i < 5 ==> IsWordText(fields[i])
      then Some(Joined(HexNumber(fields[0]), HexNumber(fields[1]), HexNumber(fields[2]), HexNumber(fields[3]),
                  HexNumber(fields[4])))
      else None
  {
    hide HexNumber, ReadHex, ReadField, Dashed, Joined, AllHex, IsWordText;
    DashedFieldIsRead(fields);
    DashedFieldIsRead(fields[1..]);
    DashedFieldIsRead(fields[2..]);
    assert fields[1..][1..] == fields[2..] && fields[2..][1..] == fields[3..];
    if |fields| >= 4 {
      DashedFieldIsRead(fields[3..]);
      assert fields[3..][1..] == fields[4..];
      if |fields| >= 5 { DashedFieldIsRead(fields[4..]); }
    }
  }

  /** Three or more fields of hexadecimal digits with dashes between them: five numbers that fit 64 bits are
      joined, whatever comes behind them, and everything else gives the identifier 0. */
  lemma RebuildOfFields(fields: seq<string>)
    requires |fields| >= 3 && forall i :: 0 <= i < |fields| ==> AllHex(fields[i]) && fields[i] != ""
    ensures Rebuild(Dashed(fields)) ==
      if |fields| >= 5 && forall i :: 0 <= i < 5 ==> IsWordText(fields[i])
      then Joined(HexNumber(fields[0]), HexNumber(fields[1]), HexNumber(fields[2]), HexNumber(fields[3]),
             HexNumber(fields[4]))
      else Uuid(0, 0)
  {
    hide HexNumber, ReadClassic, Joined, AllHex, IsWordText, FindDash;
    DashedIsRead(fields);
    var rest := Dashed(fields[1..]);
    HexHasNoDash(fields[0]);
    FirstDash(fields[0], rest);
    assert rest[|fields[1]|] == '-';
  }

  /** A text without a dash gives the identifier 0. */
  lemma NoDashGivesZero(s: string)
    requires Dashless(s)
    ensures Rebuild(s) == Uuid(0, 0)
  {
  }

  function UpperCase(c: char): char {
    if 'a' <= c <= 'z' then (c as int - 32) as char else c
  }

  function Upper(s: string): (r: string)
    ensures |r| == |s|
  {
    seq(|s|, i requires 0 <= i < |s| => UpperCase(s[i]))
  }

  lemma UpperAppend(a: string, b: string)
    ensures Upper(a + ("-" + b)) == Upper(a) + ("-" + Upper(b))
  {
  }

  lemma {:induction false} UpperHex(s: string)
    requires AllHex(s)
    ensures AllHex(Upper(s)) && HexNumber(Upper(s)) == HexNumber(s)
    decreases |s|
  {
    if s == "" {
    } else {
      var last := |s| - 1;
      UpperHex(s[..last]);
      assert Upper(s)[..last] == Upper(s[..last]) && Upper(s)[last] == UpperCase(s[last]);
      assert HexValue(s[last]).Some?;
    }
  }

  lemma DashedStep(field: string, more: seq<string>)
    requires more != []
    ensures Dashed([field] + more) == field + ("-" + Dashed(more))
  {
    assert ([field] + more)[1..] == more;
  }

  lemma FiveFields(a: string, b: string, c: string, d: string, e: string)
    ensures Dashed([a, b, c, d, e]) == a + ("-" + (b + ("-" + (c + ("-" + (d + ("-" + e)))))))
  {
    DashedStep(a, [b, c, d, e]);
    DashedStep(b, [c, d, e]);
    DashedStep(c, [d, e]);
    DashedStep(d, [e]);
  }

  lemma UpperClassic(a: string, b: string, c: string, d: string, e: string)
    ensures Upper(a + ("-" + (b + ("-" + (c + ("-" + (d + ("-" + e))))))))
      == Dashed([Upper(a), Upper(b), Upper(c), Upper(d), Upper(e)])
  {
    hide Upper, Dashed;
    UpperAppend(a, b + ("-" + (c + ("-" + (d + ("-" + e))))));
    UpperAppend(b, c + ("-" + (d + ("-" + e))));
    UpperAppend(c, d + ("-" + e));
    UpperAppend(d, e);
    FiveFields(Upper(a), Upper(b), Upper(c), Upper(d), Upper(e));
  }

  lemma UpperField(field: string, n: nat)
    requires AllHex(field) && field != "" && HexNumber(field) == n && n < WORD
    ensures IsWordText(Upper(field)) && AllHex(Upper(field)) && HexNumber(Upper(field)) == n
  {
    UpperHex(field);
  }

  lemma LastGroupIs(high: nat, low: nat)
    requires high < 0x1_0000 && low < 0x1_0000_0000
    ensures var e := Padded(4, high) + Padded(8, low);
      AllHex(e) && e != "" && HexNumber(e) == high * 0x1_0000_0000 + low
  {
    hide Padded, HexNumber, Pow16;
    Powers();
    PaddedIs(4, high);
    PaddedIs(8, low);
    HexAppend(Padded(4, high), Padded(8, low));
  }

  lemma UpperClassicIsRead(a: nat, b: nat, c: nat, d: nat, high: nat, low: nat)
    requires a < 0x1_0000_0000 && b < 0x1_0000 && c < 0x1_0000 && d < 0x1_0000 && high < 0x1_0000 && low < 0x1_0000_0000
    ensures Rebuild(Upper(Classic(a, b, c, d, high, low))) == Joined(a, b, c, d, high * 0x1_0000_0000 + low)
  {
    hide Padded, Joined, Rebuild, Upper, Dashed, HexNumber, AllHex, IsWordText, Pow16;
    Powers();
    PaddedIs(8, a);
    PaddedIs(4, b);
    PaddedIs(4, c);
    PaddedIs(4, d);
    LastGroupIs(high, low);
    var e := Padded(4, high) + Padded(8, low);
    UpperField(Padded(8, a), a);
    UpperField(Padded(4, b), b);
    UpperField(Padded(4, c), c);
    UpperField(Padded(4, d), d);
    UpperField(e, high * 0x1_0000_0000 + low);
    UpperClassic(Padded(8, a), Padded(4, b), Padded(4, c), Padded(4, d), e);
    RebuildOfFields([Upper(Padded(8, a)), Upper(Padded(4, b)), Upper(Padded(4, c)), Upper(Padded(4, d)), Upper(e)]);
  }

  /** For every identifier: the classic form is read back with letters of the other case as well. */
  lemma RebuildIgnoresCase(u: Uuid)
    ensures Rebuild(Upper(Str(u))) == u
  {
    hide Classic, Rebuild, Joined, And, Shr, Upper;
    HalvesOf(u.ab);
    HalvesOf(u.cd);
    WordOfParts(u.ab);
    WordOfParts(u.cd);
    var a, b := u.ab / 0x1_0000_0000, u.ab % 0x1_0000_0000;
    var c, d := u.cd / 0x1_0000_0000, u.cd % 0x1_0000_0000;
    UpperClassicIsRead(a, b / 0x1_0000, b % 0x1_0000, c / 0x1_0000, c % 0x1_0000, d);
    JoinedIs(a, b / 0x1_0000, b % 0x1_0000, c / 0x1_0000, c % 0x1_0000 * 0x1_0000_0000 + d);
  }

  function Before(n: Word): Word {
    if n == 0 then WORD - 1 else n - 1
  }

  lemma LessOne(n: nat)
    ensures (n + (WORD - 1)) % WORD == Before(n % WORD)
  {
    var q, r := n / WORD, n % WORD;
    if r == 0 {
      ModUnique(n + (WORD - 1), WORD, q, WORD - 1);
    } else {
      ModUnique(n + (WORD - 1), WORD, q + 1, r - 1);
    }
  }

  /** A character that is no digit of the base does not stop the decoding: it counts as minus one. */
  lemma StrangeCountsAsMinusOne(front: string, c: char)
    requires c !in Base62Map()
    ensures Decoded(front + [c], Base62Map()) == Before(Decoded(front + "0", Base62Map()))
  {
    hide Base62Map;
    var table := Base62Map();
    assert Strpos(table, c) == WORD - 1;
    assert Strpos(table, '0') == 0 by { assert table[0] == Letter62(0); }
    if front != "" {
      assert (front + [c])[..|front|] == front && (front + "0")[..|front|] == front;
      var high := |table| * Decoded(front, table);
      LessOne(high);
    }
  }

  // What the two forms look like

  predicate IsLowerHex(c: char) {
    '0' <= c <= '9' || 'a' <= c <= 'f'
  }

  lemma HexIsLower(i: nat)
    requires i < 16
    ensures |HEX| == 16 && IsLowerHex(HEX[i])
  {
  }

  lemma PaddedIsLower(width: nat, n: nat)
    ensures forall i :: 0 <= i < |Padded(width, n)| ==> IsLowerHex(Padded(width, n)[i])
  {
    hide Digits;
    HexDiffers();
    DigitsFromTable(n, HEX);
    forall i | 0 <= i < |Digits(n, HEX)| ensures IsLowerHex(Digits(n, HEX)[i]) {
      var k :| 0 <= k < |HEX| && HEX[k] == Digits(n, HEX)[i];
      HexIsLower(k);
    }
  }

  /** The five groups of the classic form without the dashes. */
  function Groups(s: string): string
    requires |s| == 36
  {
    s[..8] + (s[9..13] + (s[14..18] + (s[19..23] + s[24..])))
  }

  lemma ClassicForm(a: nat, b: nat, c: nat, d: nat, high: nat, low: nat)
    requires a < 0x1_0000_0000 && b < 0x1_0000 && c < 0x1_0000 && d < 0x1_0000 && high < 0x1_0000 && low < 0x1_0000_0000
    ensures var s := Classic(a, b, c, d, high, low);
      && |s| == 36 && s[8] == '-' && s[13] == '-' && s[18] == '-' && s[23] == '-'
      && s[..8] == Padded(8, a) && s[9..13] == Padded(4, b) && s[14..18] == Padded(4, c)
      && s[19..23] == Padded(4, d) && s[24..28] == Padded(4, high) && s[28..] == Padded(8, low)
  {
    hide Padded, Pow16, HexNumber, AllHex;
    Powers();
    PaddedIs(8, a);
    PaddedIs(4, b);
    PaddedIs(4, c);
    PaddedIs(4, d);
    PaddedIs(4, high);
    PaddedIs(8, low);
  }

  lemma FourMore(k: nat)
    ensures Pow16(k + 4) == 0x1_0000 * Pow16(k)
  {
    assert Pow16(k + 4) == 16 * Pow16(k + 3) && Pow16(k + 3) == 16 * Pow16(k + 2);
    assert Pow16(k + 2) == 16 * Pow16(k + 1) && Pow16(k + 1) == 16 * Pow16(k);
  }

  lemma PowersOfGroups()
    ensures Pow16(12) == 0x1_0000_0000_0000 && Pow16(16) == WORD && Pow16(20) == 0x1_0000 * WORD
    ensures Pow16(24) == 0x1_0000_0000 * WORD
  {
    hide Pow16;
    Powers();
    FourMore(8);
    FourMore(12);
    FourMore(16);
    FourMore(20);
  }

  lemma GroupsTogether(a: nat, b: nat, c: nat, d: nat, high: nat, low: nat)
    ensures a * (0x1_0000_0000 * WORD)
      + (b * (0x1_0000 * WORD) + (c * WORD + (d * 0x1_0000_0000_0000 + (high * 0x1_0000_0000 + low))))
      == (a * 0x1_0000_0000 + b * 0x1_0000 + c) * WORD + (d * 0x1_0000_0000_0000 + high * 0x1_0000_0000 + low)
  {
  }

  lemma GroupsValue(a: nat, b: nat, c: nat, d: nat, high: nat, low: nat)
    requires a < 0x1_0000_0000 && b < 0x1_0000 && c < 0x1_0000 && d < 0x1_0000 && high < 0x1_0000 && low < 0x1_0000_0000
    ensures var s := Classic(a, b, c, d, high, low);
      && |s| == 36 && AllHex(Groups(s))
      && HexNumber(Groups(s)) ==
        (a * 0x1_0000_0000 + b * 0x1_0000 + c) * WORD + (d * 0x1_0000_0000_0000 + high * 0x1_0000_0000 + low)
  {
    hide Classic, Padded, Pow16, HexNumber, AllHex;
    Powers();
    ClassicForm(a, b, c, d, high, low);
    var s := Classic(a, b, c, d, high, low);
    PaddedIs(8, a);
    PaddedIs(4, b);
    PaddedIs(4, c);
    PaddedIs(4, d);
    PaddedIs(4, high);
    PaddedIs(8, low);
    assert s[24..] == Padded(4, high) + Padded(8, low);
    HexAppend(Padded(4, high), Padded(8, low));
    HexAppend(Padded(4, d), s[24..]);
    HexAppend(Padded(4, c), s[19..23] + s[24..]);
    HexAppend(Padded(4, b), s[14..18] + (s[19..23] + s[24..]));
    HexAppend(Padded(8, a), s[9..13] + (s[14..18] + (s[19..23] + s[24..])));
    PowersOfGroups();
    GroupsTogether(a, b, c, d, high, low);
  }

  lemma GroupIsLower(s: string, from: nat, to: nat, n: nat)
    requires from <= to <= |s| && s[from..to] == Padded(to - from, n)
    ensures forall i :: from <= i < to ==> IsLowerHex(s[i])
  {
    hide Padded, IsLowerHex;
    PaddedIsLower(to - from, n);
    forall i | from <= i < to ensures IsLowerHex(s[i]) { assert s[i] == s[from..to][i - from]; }
  }

  lemma ClassicIsLower(a: nat, b: nat, c: nat, d: nat, high: nat, low: nat)
    requires a < 0x1_0000_0000 && b < 0x1_0000 && c < 0x1_0000 && d < 0x1_0000 && high < 0x1_0000 && low < 0x1_0000_0000
    ensures var s := Classic(a, b, c, d, high, low);
      && |s| == 36
      && forall i :: 0 <= i < 36 ==> if i == 8 || i == 13 || i == 18 || i == 23 then s[i] == '-' else IsLowerHex(s[i])
  {
    hide Classic, Padded, IsLowerHex;
    ClassicForm(a, b, c, d, high, low);
    var s := Classic(a, b, c, d, high, low);
    GroupIsLower(s, 0, 8, a);
    GroupIsLower(s, 9, 13, b);
    GroupIsLower(s, 14, 18, c);
    GroupIsLower(s, 19, 23, d);
    GroupIsLower(s, 24, 28, high);
    GroupIsLower(s, 28, 36, low);
  }

  /** Every identifier: the classic form has 36 characters, dashes after 8, 12, 16 and 20 lower-case hexadecimal
      digits, and these are the number of 128 bits that the two words make. */
  lemma StrHasForm(u: Uuid)
    ensures var s := Str(u);
      && |s| == 36
      && (forall i :: 0 <= i < 36 ==> if i == 8 || i == 13 || i == 18 || i == 23 then s[i] == '-' else IsLowerHex(s[i]))
      && AllHex(Groups(s)) && HexNumber(Groups(s)) == u.ab * WORD + u.cd
  {
    hide Classic, Padded, And, Shr, HexNumber, AllHex, Groups, IsLowerHex;
    HalvesOf(u.ab);
    HalvesOf(u.cd);
    WordOfParts(u.ab);
    WordOfParts(u.cd);
    var a, b := u.ab / 0x1_0000_0000, u.ab % 0x1_0000_0000;
    var c, d := u.cd / 0x1_0000_0000, u.cd % 0x1_0000_0000;
    GroupsValue(a, b / 0x1_0000, b % 0x1_0000, c / 0x1_0000, c % 0x1_0000, d);
    ClassicIsLower(a, b / 0x1_0000, b % 0x1_0000, c / 0x1_0000, c % 0x1_0000, d);
  }

  predicate IsAlphanumeric(c: char) {
    '0' <= c <= '9' || 'A' <= c <= 'Z' || 'a' <= c <= 'z'
  }

  /** The 62 digits are the digits and letters in ascending order, all of them, so two of them compare as the
      numbers they stand for. */
  lemma Base62Ascends()
    ensures |Base62Map()| == 62 && forall i :: 0 <= i < 62 ==> IsAlphanumeric(Base62Map()[i])
    ensures forall i, j :: 0 <= i < j < 62 ==> Base62Map()[i] < Base62Map()[j]
    ensures forall c :: IsAlphanumeric(c) ==> c in Base62Map()
  {
    forall c | IsAlphanumeric(c) ensures c in Base62Map() {
      var i := if c <= '9' then c as int - '0' as int else if c <= 'Z'
        then c as int - 'A' as int + 10 else c as int - 'a' as int + 36;
      assert Base62Map()[i] == c;
    }
  }

  // The fields of a version 0 identifier

  lemma AndOfZero()
    ensures And(0, 0) == 0
  {
  }

  lemma Double(a: nat, h: nat, b: nat)
    ensures a * (2 * h) + b == 2 * (a * h + b / 2) + b % 2
  {
  }

  lemma {:induction false} AndUnfolds(p: nat, q: nat)
    ensures And(p, q) == (if p % 2 == 1 && q % 2 == 1 then 1 else 0) + 2 * And(p / 2, q / 2)
  {
  }

  lemma AndStep(x: nat, i: nat, y: nat, j: nat)
    requires i < 2 && j < 2
    ensures And(2 * x + i, 2 * y + j) == (if i == 1 && j == 1 then 1 else 0) + 2 * And(x, y)
  {
    hide And;
    var p, q := 2 * x + i, 2 * y + j;
    AndUnfolds(p, q);
    assert p % 2 == i && p / 2 == x && q % 2 == j && q / 2 == y;
  }

  /** The and of two numbers split at the same bit. */
  lemma {:induction false} AndSplit(a: nat, b: nat, c: nat, d: nat, k: nat)
    requires b < Pow2(k) && d < Pow2(k)
    ensures And(a * Pow2(k) + b, c * Pow2(k) + d) == And(a, c) * Pow2(k) + And(b, d)
    decreases k
  {
    hide And;
    if k == 0 {
      AndOfZero();
    } else {
      var h := Pow2(k - 1);
      AndSplit(a, b / 2, c, d / 2, k - 1);
      Double(a, h, b);
      Double(c, h, d);
      Double(And(a, c), h, And(b, d));
      AndStep(a * h + b / 2, b % 2, c * h + d / 2, d % 2);
      AndStep(b / 2, b % 2, d / 2, d % 2);
    }
  }

  /** 64-bit complement of 0xF000. */
  const NOT_VERSION: Word := 0xFFFF_FFFF_FFFF_0FFF

  /** Clearing the four version bits. */
  lemma ClearVersion(hi: nat, lo: nat)
    requires hi < 0x1_0000_0000_0000 && lo < 0x1_0000
    ensures And(hi * 0x1_0000 + lo, NOT_VERSION) == hi * 0x1_0000 + lo % 0x1000
  {
    hide Pow2, And;
    WordIsPower();
    AndSplit(hi, lo, 0xFFFF_FFFF_FFFF, 0xFFF, 16);
    MaskIsMod(hi, 48);
    MaskIsMod(lo, 12);
  }

  lemma {:induction false} AndBelow(x: nat, y: nat)
    ensures And(x, y) <= x
    decreases x
  {
    if x > 0 && y > 0 { AndBelow(x / 2, y / 2); }
  }

  function AndWord(x: Word, y: nat): Word {
    AndBelow(x, y);
    And(x, y)
  }

  /** What the identifier shows of its fields: version, time, process and network address. */
  datatype Fields = Fields(version: nat, timestamp: nat, pid: nat, mac: nat)

  function Pretty(u: Uuid): Fields {
    var a, b := Shr(u.ab, 32), And(u.ab, 0xFFFF_FFFF);
    var c, d := Shr(u.cd, 32), And(u.cd, 0xFFFF_FFFF);
    Fields(Shr(And(b, 0xF000), 12), Or(Or(Shl(And(b, 0xFFF), 48), Shl(Shr(b, 16), 32)), a), Shr(c, 16),
      And(c, 0xFFFF) * 0x1_0000_0000 + d)
  }

  lemma AndWithZero(x: nat)
    ensures And(x, 0) == 0
  {
  }

  lemma VersionBits(b: nat)
    ensures And(b, 0xF000) == b / 0x1000 % 16 * 0x1000
  {
    hide Pow2, And;
    WordIsPower();
    AndSplit(b / 0x1000, b % 0x1000, 15, 0, 12);
    MaskIsMod(b / 0x1000, 4);
    Times16(0);
    AndWithZero(b % 0x1000);
  }

  function VersionOf(ab: Word): nat {
    ab % 0x1_0000_0000 / 0x1000 % 16
  }

  function TimeOf(ab: Word): nat {
    var b: nat, a: nat := ab % 0x1_0000_0000, ab / 0x1_0000_0000;
    var high: nat, middle: nat := b % 0x1000, b / 0x1_0000;
    high * 0x1_0000_0000_0000 + middle * 0x1_0000_0000 + a
  }

  lemma ShiftBy12(v: nat)
    ensures Shr(v * 0x1000, 12) == v
  {
    hide Pow2;
    WordIsPower();
  }

  lemma TimeBits(high: nat, middle: nat, low: nat)
    requires high < 0x1000 && middle < 0x1_0000 && low < 0x1_0000_0000
    ensures Or(Or(high * 0x1_0000_0000_0000, middle * 0x1_0000_0000), low)
      == high * 0x1_0000_0000_0000 + middle * 0x1_0000_0000 + low
  {
    hide Pow2, Or;
    WordIsPower();
    DisjointOr(high, 48, middle * 0x1_0000_0000);
    DisjointOr(high * 0x1_0000 + middle, 32, low);
  }

  /** Version and the upper parts of the time, which share the lower half of the first word. */
  lemma LowFieldsOf(b: nat)
    requires b < 0x1_0000_0000
    ensures Shr(And(b, 0xF000), 12) == b / 0x1000 % 16 && Shl(And(b, 0xFFF), 48) == b % 0x1000 * 0x1_0000_0000_0000
    ensures Shr(b, 16) == b / 0x1_0000 && Shl(Shr(b, 16), 32) == b / 0x1_0000 * 0x1_0000_0000
  {
    hide Pow2, And, Shl, Shr;
    MaskOf(b);
    ShiftsOf(b);
    VersionBits(b);
    ShiftBy12(b / 0x1000 % 16);
    ShiftsOf(b % 0x1000);
    ShiftsOf(b / 0x1_0000);
  }

  lemma ProcessOf(x: Word)
    ensures x / 0x1_0000_0000 / 0x1_0000 == x / 0x1_0000_0000_0000
    ensures x / 0x1_0000_0000 % 0x1_0000 * 0x1_0000_0000 + x % 0x1_0000_0000 == x % 0x1_0000_0000_0000
  {
  }

  /** The fields as digits of the two words. */
  lemma PrettyIs(u: Uuid)
    ensures Pretty(u) == Fields(VersionOf(u.ab), TimeOf(u.ab), u.cd / 0x1_0000_0000_0000, u.cd % 0x1_0000_0000_0000)
  {
    hide Pow2, And, Or, Shl, Shr;
    HalvesOf(u.ab);
    HalvesOf(u.cd);
    LowFieldsOf(u.ab % 0x1_0000_0000);
    TimeBits(u.ab % 0x1_0000_0000 % 0x1000, u.ab % 0x1_0000_0000 / 0x1_0000, u.ab / 0x1_0000_0000);
    ProcessOf(u.cd);
  }

  lemma NoShift()
    ensures Shl(0, 12) == 0
  {
  }

  lemma OrWithZero(x: nat)
    ensures Or(x, 0) == x
  {
  }

  function Shr48(x: Word): (r: Word)
    ensures r == x / 0x1_0000_0000_0000
  {
    WordIsPower();
    Shr(x, 48)
  }

  function Shr32(x: Word): (r: Word)
    ensures r == x / 0x1_0000_0000
  {
    WordIsPower();
    Shr(x, 32)
  }

  lemma PartsOfTime(time: Word)
    ensures AndWord(time, 0xFFFF_FFFF) == time % 0x1_0000_0000
    ensures AndWord(Shr32(time), 0xFFFF) == time / 0x1_0000_0000 % 0x1_0000
    ensures AndWord(Shr48(time), 0xFFF) == time / 0x1_0000_0000_0000 % 0x1000
  {
    hide And, Shr;
    MaskOf(time);
    MaskOf(Shr32(time));
    MaskOf(Shr48(time));
  }

  lemma PartsTogether(low: nat, mid: nat, hi: nat)
    requires low < 0x1_0000_0000 && mid < 0x1_0000 && hi < 0x1000
    ensures var upper := OrWord(OrWord(low * 0x1_0000_0000, mid * 0x1_0000), hi);
      OrWord(AndWord(upper, NOT_VERSION), Shl(0, 12)) == low * 0x1_0000_0000 + mid * 0x1_0000 + hi
  {
    hide Pow2, And, Or, Shl;
    WordIsPower();
    DisjointOr(low, 32, mid * 0x1_0000);
    DisjointOr(low * 0x1_0000 + mid, 16, hi);
    ClearVersion(low * 0x1_0000 + mid, hi);
    NoShift();
    OrWithZero(low * 0x1_0000_0000 + mid * 0x1_0000 + hi);
  }

  lemma PackedTime(time: Word)
    ensures var upper :=
      OrWord(OrWord(Shl(AndWord(time, 0xFFFF_FFFF), 32), Shl(AndWord(Shr32(time), 0xFFFF), 16)),
        AndWord(Shr48(time), 0xFFF));
      OrWord(AndWord(upper, NOT_VERSION), Shl(0, 12))
        == time % 0x1_0000_0000 * 0x1_0000_0000 + time / 0x1_0000_0000 % 0x1_0000 * 0x1_0000
          + time / 0x1_0000_0000_0000 % 0x1000
  {
    hide Pow2, And, Or, Shl, Shr, AndWord, OrWord, Shr32, Shr48;
    var low, mid, hi := time % 0x1_0000_0000, time / 0x1_0000_0000 % 0x1_0000, time / 0x1_0000_0000_0000 % 0x1000;
    PartsOfTime(time);
    ShiftsOf(low);
    ShiftsOf(mid);
    PartsTogether(low, mid, hi);
  }

  /** Sixteen bits taken apart into bytes and put together again. */
  lemma LowByte(x: nat)
    requires x < 0x1_0000
    ensures Or(Shl(And(Shr(x, 8) % WORD, 0xFF), 8), And(x, 0xFF)) == x
  {
    hide And, Or;
    assert Pow2(8) == 256 by { Times16(0); Times16(4); }
    MaskIsMod(x, 8);
    MaskIsMod(x / 256, 8);
    DisjointOr(x / 256, 8, x % 256);
  }

  lemma PackedProcess(pid: Word, mac: Word)
    requires mac < 0x1_0000_0000_0000
    ensures var pid16 := AndWord(pid, 0xFFFF);
      OrWord(Shl(OrWord(Shl(AndWord(Shr(pid16, 8) % WORD, 0xFF), 8), AndWord(pid16, 0xFF)), 48), mac)
        == pid % 0x1_0000 * 0x1_0000_0000_0000 + mac
  {
    hide Pow2, And, Or, Shl, Shr;
    var pid16 := pid % 0x1_0000;
    WordIsPower();
    MaskOf(pid);
    LowByte(pid16);
    ShiftsOf(pid16);
    DisjointOr(pid16, 48, mac);
  }

  /** The two words of a version 0 identifier. */
  lemma Packed(time: Word, pid: Word, mac: Word)
    requires mac < 0x1_0000_0000_0000
    ensures var upper :=
      OrWord(OrWord(Shl(AndWord(time, 0xFFFF_FFFF), 32), Shl(AndWord(Shr32(time), 0xFFFF), 16)),
        AndWord(Shr48(time), 0xFFF));
      OrWord(AndWord(upper, NOT_VERSION), Shl(0, 12))
        == time % 0x1_0000_0000 * 0x1_0000_0000 + time / 0x1_0000_0000 % 0x1_0000 * 0x1_0000
          + time / 0x1_0000_0000_0000 % 0x1000
    ensures var pid16 := AndWord(pid, 0xFFFF);
      OrWord(Shl(OrWord(Shl(AndWord(Shr(pid16, 8) % WORD, 0xFF), 8), AndWord(pid16, 0xFF)), 48), mac)
        == pid % 0x1_0000 * 0x1_0000_0000_0000 + mac
  {
    PackedTime(time);
    PackedProcess(pid, mac);
  }

  lemma SixtyBits(time: Word)
    ensures time % 0x1000_0000_0000_0000
      == time / 0x1_0000_0000_0000 % 0x1000 * 0x1_0000_0000_0000 + time / 0x1_0000_0000 % 0x1_0000 * 0x1_0000_0000
        + time % 0x1_0000_0000
  {
    var upper := time / 0x1_0000_0000;
    assert time == upper * 0x1_0000_0000 + time % 0x1_0000_0000;
    assert upper / 0x1_0000 == time / 0x1_0000_0000_0000;
  }

  lemma LowHalf(low: nat, mid: nat, hi: nat)
    requires low < 0x1_0000_0000 && mid < 0x1_0000 && hi < 0x1000
    ensures var ab := low * 0x1_0000_0000 + mid * 0x1_0000 + hi;
      ab % 0x1_0000_0000 == mid * 0x1_0000 + hi && ab / 0x1_0000_0000 == low && ab < WORD
    ensures var b := mid * 0x1_0000 + hi; b / 0x1000 % 16 == 0 && b % 0x1000 == hi && b / 0x1_0000 == mid
  {
    ModUnique(low * 0x1_0000_0000 + (mid * 0x1_0000 + hi), 0x1_0000_0000, low, mid * 0x1_0000 + hi);
    ModUnique(mid * 0x1_0000 + hi, 0x1_0000, mid, hi);
    ModUnique(mid * 0x1_0000 + hi, 0x1000, mid * 16, hi);
    ModUnique(mid * 16, 16, mid, 0);
  }

  lemma FieldsFound(low: nat, mid: nat, hi: nat, pid: nat, mac: nat)
    requires low < 0x1_0000_0000 && mid < 0x1_0000 && hi < 0x1000 && pid < 0x1_0000 && mac < 0x1_0000_0000_0000
    ensures var (ab, cd) := (low * 0x1_0000_0000 + mid * 0x1_0000 + hi, pid * 0x1_0000_0000_0000 + mac);
      ab < WORD && cd < WORD
        && Pretty(Uuid(ab, cd)) == Fields(0, hi * 0x1_0000_0000_0000 + mid * 0x1_0000_0000 + low, pid, mac)
  {
    hide Pretty;
    LowHalf(low, mid, hi);
    ModUnique(pid * 0x1_0000_0000_0000 + mac, 0x1_0000_0000_0000, pid, mac);
    PrettyIs(Uuid(low * 0x1_0000_0000 + mid * 0x1_0000 + hi, pid * 0x1_0000_0000_0000 + mac));
  }

  /** Packs 60 bits of the time, 16 bits of the process number and a 48-bit network address; the shifts that
      show the identifier's fields find them again. */
  method Uuid0(time: Word, pid: Word, mac: Word) returns (u: Uuid)
    requires mac < 0x1_0000_0000_0000
    ensures Pretty(u) == Fields(0, time % 0x1000_0000_0000_0000, pid % 0x1_0000, mac)
  {
    hide Pow2, And, Or, Shl, Shr, OrWord, AndWord, Pretty;
    var pid16 := AndWord(pid, 0xFFFF);
    var timeLow := AndWord(time, 0xFFFF_FFFF);
    var timeMid := AndWord(Shr32(time), 0xFFFF);
    var timeHi := AndWord(Shr48(time), 0xFFF);
    var pidLow := AndWord(pid16, 0xFF);
    var pidHi := AndWord(Shr(pid16, 8) % WORD, 0xFF);
    var upper := Shl(timeLow, 32);
    upper := OrWord(upper, Shl(timeMid, 16));
    upper := OrWord(upper, timeHi);
    var lower := Shl(OrWord(Shl(pidHi, 8), pidLow), 48);
    lower := OrWord(lower, mac);
    upper := AndWord(upper, NOT_VERSION);
    upper := OrWord(upper, Shl(0, 12));
    u := Uuid(upper, lower);
    Packed(time, pid, mac);
    SixtyBits(time);
    FieldsFound(time % 0x1_0000_0000, time / 0x1_0000_0000 % 0x1_0000, time / 0x1_0000_0000_0000 % 0x1000,
      pid % 0x1_0000, mac);
  }
}
