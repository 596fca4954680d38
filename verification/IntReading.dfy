/** Reading a formatted integer back: a reader of its own for signs, base prefixes and digits, and what fill
    characters may stand around them. */
module IntReading {
  import opened Decimal
  import opened IntFormat
  import opened IntWriter
  import P = Positional
  import opened Wrappers

  // The reader

  function DigitOf(c: char): Option<nat> {
    if '0' <= c <= '9' then Some(c as int - '0' as int)
    else if 'a' <= c <= 'f' then Some(c as int - 'a' as int + 10)
    else if 'A' <= c <= 'F' then Some(c as int - 'A' as int + 10)
    else None
  }

  /** One more digit behind a number that has been read. */
  function WithDigit(high: Option<nat>, c: char, base: nat): Option<nat> {
    if high.Some? && DigitOf(c).Some? && DigitOf(c).value < base
    then Some(high.value * base + DigitOf(c).value) else None
  }

  function ReadDigits(text: string, base: nat): Option<nat> {
    if text == "" then Some(0) else WithDigit(ReadDigits(text[..|text| - 1], base), text[|text| - 1], base)
  }

  function BaseOf(kind: Kind): nat {
    match kind
    case Hex(_) => 16
    case Binary(_) => 2
    case Octal => 8
    case _ => 10
  }

  predicate IsSign(c: char) {
    c == '-' || c == '+' || c == ' '
  }

  /** What follows the two characters that stand for the base, where the format asks for them. */
  function AfterBase(spec: Spec, text: string): Option<string> {
    if !spec.hash then Some(text) else
      match spec.kind
      case Hex(upper) => if (if upper then "0X" else "0x") <= text then Some(text[2..]) else None
      case Binary(upper) => if (if upper then "0B" else "0b") <= text then Some(text[2..]) else None
      case _ => Some(text)
  }

  function ReadUnsigned(spec: Spec, text: string): Option<nat> {
    match AfterBase(spec, text)
    case None => None
    case Some(rest) =>
      var digits := if spec.kind.Localized? then Ungroup(rest) else rest;
      if digits == "" then None else ReadDigits(digits, BaseOf(spec.kind))
  }

  /** A sign, the characters for the base, and digits. */
  function ReadNumber(spec: Spec, text: string): Option<int> {
    var signed := text != "" && IsSign(text[0]);
    match ReadUnsigned(spec, if signed then text[1..] else text)
    case None => None
    case Some(n) =>
      Some(if signed && text[0] == '-' then -(n as int) else n as int)
  }

  function Drop(text: string, c: char): string {
    if text == "" then "" else (if text[0] == c then "" else [text[0]]) + Drop(text[1..], c)
  }

  /** A fill character that no number contains but as the sign that stands for nothing. */
  predicate FillIsApart(fill: char) {
    DigitOf(fill) == None && fill != '-' && fill != '+' && fill != 'x' && fill != 'X'
  }

  /** The number in a field: the fill is left out, if it can be told from a number. */
  function ReadInt(spec: Spec, text: string): Option<int> {
    ReadNumber(spec, if FillIsApart(spec.fill) then Drop(text, spec.fill) else text)
  }

  // Digits are read back

  lemma NoDigitsRead(base: nat)
    ensures ReadDigits("", base) == Some(0)
  {
  }

  lemma OneMoreRead(front: string, c: char, base: nat)
    ensures ReadDigits(front + [c], base) == WithDigit(ReadDigits(front, base), c, base)
  {
    hide WithDigit;
    assert (front + [c])[..|front|] == front;
  }

  lemma OneRead(c: char, base: nat)
    ensures ReadDigits([c], base) == WithDigit(Some(0), c, base)
  {
    hide ReadDigits, DigitOf;
    NoDigitsRead(base);
    OneMoreRead("", c, base);
    assert "" + [c] == [c];
  }

  lemma {:induction false} NumeralIsRead(n: nat)
    ensures ReadDigits(Numeral(n), 10) == Some(n)
  {
    hide ReadDigits;
    if n < 10 {
      OneRead(Digit(n), 10);
    } else {
      NumeralIsRead(n / 10);
      OneMoreRead(Numeral(n / 10), Digit(n % 10), 10);
    }
  }

  /** The characters of the table are the digits in order. */
  predicate Ordered(table: string) {
    forall i :: 0 <= i < |table| ==> DigitOf(table[i]) == Some(i)
  }

  lemma {:induction false} DigitsAreRead(n: nat, table: string)
    requires |table| >= 2 && Ordered(table)
    ensures ReadDigits(P.Digits(n, table), |table|) == Some(n)
    decreases n
  {
    hide P.Quotient, P.Remainder, ReadDigits, DigitOf;
    var base := |table|;
    if n < base {
      OneRead(table[n], base);
    } else {
      DigitsAreRead(P.Quotient(n, base), table);
      OneMoreRead(P.Digits(P.Quotient(n, base), table), table[P.Remainder(n, base)], base);
      P.Recompose(n, base);
    }
  }

  lemma LowerAt(i: nat)
    requires i < 16
    ensures DigitOf(LOWER[i]) == Some(i)
  {
    if i < 10 {
      assert LOWER[i] == "0123456789"[i];
    } else {
      assert LOWER[i] == "abcdef"[i - 10];
    }
  }

  lemma LowerIsOrdered()
    ensures Ordered(LOWER) && |LOWER| == 16
  {
    forall i | 0 <= i < |LOWER| ensures DigitOf(LOWER[i]) == Some(i) {
      LowerAt(i);
    }
  }

  lemma UpperAt(i: nat)
    requires i < 16
    ensures DigitOf(UPPER[i]) == Some(i)
  {
    if i < 10 {
      assert UPPER[i] == "0123456789"[i];
    } else {
      assert UPPER[i] == "ABCDEF"[i - 10];
    }
  }

  lemma UpperIsOrdered()
    ensures Ordered(UPPER) && |UPPER| == 16
  {
    forall i | 0 <= i < |UPPER| ensures DigitOf(UPPER[i]) == Some(i) {
      UpperAt(i);
    }
  }

  lemma SmallIsOrdered(table: string)
    requires table == "01" || table == "01234567"
    ensures Ordered(table) && |table| == if table == "01" then 2 else 8
  {
    assert "01" != "01234567" by { assert |"01"| != |"01234567"|; }
    forall i | 0 <= i < |table| ensures table[i] as int == '0' as int + i {
    }
  }

  lemma {:induction false} LeadingZeros(zeros: nat, digits: string, base: nat)
    requires base >= 2
    ensures ReadDigits(Repeat('0', zeros) + digits, base) == ReadDigits(digits, base)
    decreases |digits| + zeros
  {
    var text := Repeat('0', zeros) + digits;
    if digits == "" {
      if zeros > 0 {
        LeadingZeros(zeros - 1, "", base);
        assert text[..|text| - 1] == Repeat('0', zeros - 1) + "";
      } else {
        assert text == "";
      }
    } else {
      LeadingZeros(zeros, digits[..|digits| - 1], base);
      assert text[..|text| - 1] == Repeat('0', zeros) + digits[..|digits| - 1];
    }
  }

  // A number without padding

  /** The characters for the base, where the format asks for them; the 0 of an octal number is a digit. */
  function BaseText(spec: Spec): string {
    if spec.kind.Octal? then "" else BasePrefix(spec)
  }

  predicate SeparatorHasNoDigit(kind: Kind) {
    kind.Localized? ==> forall i :: 0 <= i < |kind.sep| ==> !IsDigit(kind.sep[i])
  }

  /** The digits, or digits with separators between them. */
  predicate ShowsNumber(digits: string, n: nat, kind: Kind) {
    && digits != "" && !IsSign(digits[0])
    && if kind.Localized? then Ungroup(digits) == Numeral(n) else digits == NumberText(n, kind)
  }

  lemma {:induction false} GroupedStart(digits: string, sep: string)
    requires digits != ""
    ensures Grouped(digits, sep) != "" && Grouped(digits, sep)[0] == digits[0]
    decreases |digits|
  {
    if |digits| <= 3 {
    } else {
      GroupedStart(digits[..|digits| - 3], sep);
    }
  }

  lemma TableHasNoSign(n: nat, table: string)
    requires |table| >= 2 && Ordered(table)
    ensures P.Digits(n, table) != "" && !IsSign(P.Digits(n, table)[0])
  {
    P.DigitsFromTable(n, table);
    assert P.Digits(n, table)[0] in table;
  }

  lemma NumberShowsItself(n: nat, kind: Kind)
    requires !kind.Unknown? && SeparatorHasNoDigit(kind)
    ensures ShowsNumber(NumberText(n, kind), n, kind)
  {
    hide Ungroup, Grouped, P.Digits, Ordered;
    match kind {
      case PlainDecimal =>
      case Localized(sep) =>
        GroupsReadBack(Numeral(n), sep);
        GroupedStart(Numeral(n), sep);
      case Hex(upper) =>
        LowerIsOrdered();
        UpperIsOrdered();
        TableHasNoSign(n, if upper then UPPER else LOWER);
      case Binary(_) =>
        SmallIsOrdered("01");
        TableHasNoSign(n, "01");
      case Octal =>
        SmallIsOrdered("01234567");
        TableHasNoSign(n, "01234567");
    }
  }

  lemma TextIsRead(n: nat, kind: Kind)
    requires !kind.Unknown? && !kind.Localized?
    ensures ReadDigits(NumberText(n, kind), BaseOf(kind)) == Some(n)
  {
    hide ReadDigits, Ordered;
    match kind {
      case PlainDecimal => NumeralIsRead(n);
      case Hex(upper) =>
        LowerIsOrdered();
        UpperIsOrdered();
        DigitsAreRead(n, if upper then UPPER else LOWER);
      case Binary(_) =>
        SmallIsOrdered("01");
        DigitsAreRead(n, "01");
      case Octal =>
        SmallIsOrdered("01234567");
        DigitsAreRead(n, "01234567");
    }
  }

  lemma ZerosAreDigits(zeros: nat)
    ensures Ungroup(Repeat('0', zeros)) == Repeat('0', zeros)
  {
    UngroupDigits(Repeat('0', zeros));
  }

  lemma BaseIsTaken(spec: Spec, text: string)
    ensures AfterBase(spec, BaseText(spec) + text) == Some(text)
  {
    var base := BaseText(spec);
    assert (base + text)[|base|..] == text;
    assert base == "" ==> base + text == text;
  }

  lemma UnsignedIsRead(spec: Spec, n: nat, digits: string, zeros: nat)
    requires !spec.kind.Unknown? && ShowsNumber(digits, n, spec.kind)
    ensures ReadUnsigned(spec, BaseText(spec) + (Repeat('0', zeros) + digits)) == Some(n)
  {
    hide ReadDigits, AfterBase, BaseText, Ungroup, NumberText, Numeral;
    var text := Repeat('0', zeros) + digits;
    BaseIsTaken(spec, text);
    if spec.kind.Localized? {
      UngroupAppend(Repeat('0', zeros), digits);
      ZerosAreDigits(zeros);
      LeadingZeros(zeros, Numeral(n), 10);
      NumeralIsRead(n);
    } else {
      LeadingZeros(zeros, digits, BaseOf(spec.kind));
      TextIsRead(n, spec.kind);
    }
  }

  lemma NoSignInFront(spec: Spec, digits: string, zeros: nat)
    requires digits != "" && !IsSign(digits[0])
    ensures var text := BaseText(spec) + (Repeat('0', zeros) + digits); text != "" && !IsSign(text[0])
  {
    if zeros > 0 { assert Repeat('0', zeros)[0] == '0'; }
  }

  lemma ShownStarts(digits: string, n: nat, kind: Kind)
    requires ShowsNumber(digits, n, kind)
    ensures digits != "" && !IsSign(digits[0])
  {
  }

  /** Sign, base, zeros and digits are read as the number; a blank for a sign may be missing. */
  lemma PartsAreRead(spec: Spec, value: int, sign: string, digits: string, zeros: nat)
    requires !spec.kind.Unknown? && ShowsNumber(digits, Abs(value), spec.kind)
    requires sign == SignOf(value, spec.sign) || (sign == "" && SignOf(value, spec.sign) == " ")
    ensures ReadNumber(spec, sign + (BaseText(spec) + (Repeat('0', zeros) + digits))) == Some(value)
  {
    hide ReadUnsigned, BaseText, ShowsNumber, Repeat;
    var text := BaseText(spec) + (Repeat('0', zeros) + digits);
    UnsignedIsRead(spec, Abs(value), digits, zeros);
    ShownStarts(digits, Abs(value), spec.kind);
    NoSignInFront(spec, digits, zeros);
    if sign == "" {
      assert sign + text == text;
    } else {
      assert (sign + text)[1..] == text && |sign| == 1;
    }
  }

  /** The number with its prefix and the zeros that a precision asks for. */
  function Core(spec: Spec, prefix: string, digits: string): string {
    if spec.precision > |digits|
    then WithoutZero(prefix) + (Repeat('0', spec.precision - |digits|) + digits) else prefix + digits
  }

  /** Only the prefix of an octal number ends in a zero. */
  lemma BaseWithoutZero(spec: Spec, sign: string)
    requires |sign| <= 1 && (sign != "" ==> IsSign(sign[0]))
    ensures WithoutZero(sign + BasePrefix(spec)) == sign + BaseText(spec)
  {
    var prefix := sign + BasePrefix(spec);
    if BasePrefix(spec) == "" {
      assert prefix == sign;
    } else if spec.kind.Octal? {
      assert prefix[..|prefix| - 1] == sign;
    } else {
      assert prefix[|prefix| - 1] == BasePrefix(spec)[1];
    }
  }

  lemma OctalPrefix(spec: Spec)
    requires spec.kind.Octal? && spec.hash
    ensures BasePrefix(spec) == Repeat('0', 1)
  {
  }

  lemma NoOctalPrefix(spec: Spec)
    requires !(spec.kind.Octal? && spec.hash)
    ensures BasePrefix(spec) == BaseText(spec)
  {
  }

  lemma ThreeTogether(a: string, b: string, c: string)
    ensures (a + b) + c == a + (b + c)
  {
  }

  lemma CoreHasParts(spec: Spec, sign: string, digits: string) returns (zeros: nat)
    requires |sign| <= 1 && (sign != "" ==> IsSign(sign[0]))
    ensures Core(spec, sign + BasePrefix(spec), digits) == sign + (BaseText(spec) + (Repeat('0', zeros) + digits))
  {
    hide WithoutZero, BasePrefix;
    BaseWithoutZero(spec, sign);
    if spec.precision > |digits| {
      zeros := spec.precision - |digits|;
      ThreeTogether(sign, BaseText(spec), Repeat('0', zeros) + digits);
    } else if spec.kind.Octal? && spec.hash {
      zeros := 1;
      assert BasePrefix(spec) == Repeat('0', 1) by { OctalPrefix(spec); }
      ThreeTogether(sign, Repeat('0', 1), digits);
      assert BaseText(spec) + (Repeat('0', 1) + digits) == Repeat('0', 1) + digits;
    } else {
      zeros := 0;
      assert BasePrefix(spec) == BaseText(spec) by { NoOctalPrefix(spec); }
      ThreeTogether(sign, BaseText(spec), digits);
      assert Repeat('0', 0) + digits == digits;
    }
  }

  // Padding

  lemma DropStep(text: string, c: char)
    requires text != ""
    ensures Drop(text, c) == (if text[0] == c then "" else [text[0]]) + Drop(text[1..], c)
  {
  }

  lemma {:induction false} DropAppend(a: string, b: string, c: char)
    ensures Drop(a + b, c) == Drop(a, c) + Drop(b, c)
    decreases |a|
  {
    if a == "" {
      assert a + b == b;
    } else {
      hide Drop;
      assert (a + b)[1..] == a[1..] + b && (a + b)[0] == a[0];
      DropStep(a + b, c);
      DropStep(a, c);
      DropAppend(a[1..], b, c);
      var first := if a[0] == c then "" else [a[0]];
      assert first + (Drop(a[1..], c) + Drop(b, c)) == first + Drop(a[1..], c) + Drop(b, c);
    }
  }

  lemma {:induction false} DropFill(c: char, n: nat)
    ensures Drop(Repeat(c, n), c) == ""
    decreases n
  {
    if n == 0 {
    } else {
      assert Repeat(c, n)[1..] == Repeat(c, n - 1);
      DropFill(c, n - 1);
    }
  }

  lemma {:induction false} DropNone(text: string, c: char)
    requires c !in text
    ensures Drop(text, c) == text
  {
    if text != "" { DropNone(text[1..], c); }
  }

  lemma DropAround(left: nat, text: string, right: nat, c: char)
    ensures Drop(Repeat(c, left) + text + Repeat(c, right), c) == Drop(text, c)
  {
    hide Drop;
    DropAppend(Repeat(c, left) + text, Repeat(c, right), c);
    DropAppend(Repeat(c, left), text, c);
    DropFill(c, left);
    DropFill(c, right);
    assert "" + Drop(text, c) + "" == Drop(text, c);
  }

  lemma DropInside(prefix: string, middle: nat, digits: string, c: char)
    ensures Drop(prefix + Repeat(c, middle) + digits, c) == Drop(prefix + digits, c)
  {
    hide Drop;
    DropAppend(prefix + Repeat(c, middle), digits, c);
    DropAppend(prefix, Repeat(c, middle), c);
    DropAppend(prefix, digits, c);
    DropFill(c, middle);
    assert Drop(prefix, c) + "" == Drop(prefix, c);
  }

  /** A field that is not wider than the number has no padding. */
  lemma NarrowIsCore(spec: Spec, prefix: string, digits: string)
    requires spec.width <= NumberSize(spec, prefix, |digits|)
    ensures Layout(spec, prefix, digits) == Core(spec, prefix, digits)
  {
  }

  /** Without its fill the text is the number without its fill. */
  lemma LayoutWithoutFill(spec: Spec, prefix: string, digits: string)
    ensures Drop(Layout(spec, prefix, digits), spec.fill) == Drop(Core(spec, prefix, digits), spec.fill)
  {
    hide Drop, Layout;
    if spec.precision > |digits| {
      var number, left, right := LayoutPrecision(spec, prefix, digits);
      DropAround(left, number, right, spec.fill);
      var zeros: nat :| number == WithoutZero(prefix) + Repeat('0', zeros) + digits
        && zeros + |digits| == spec.precision;
      assert number == Core(spec, prefix, digits);
    } else if spec.width >= |prefix| + |digits| {
      var left, right := LayoutPlaces(spec, prefix, digits);
      if spec.align == Numeric {
        DropInside(prefix, right, digits, spec.fill);
      } else {
        DropAround(left, prefix + digits, right, spec.fill);
      }
    } else {
      NarrowIsCore(spec, prefix, digits);
    }
  }

  lemma FillIsNotInBase(spec: Spec)
    requires FillIsApart(spec.fill)
    ensures spec.fill !in BaseText(spec) && forall zeros: nat :: spec.fill !in Repeat('0', zeros)
  {
    assert DigitOf('0').Some? && DigitOf('b').Some? && DigitOf('B').Some?;
  }

  lemma FillIsNotADigit(n: nat, table: string, fill: char)
    requires |table| >= 2 && Ordered(table) && DigitOf(fill) == None
    ensures fill !in P.Digits(n, table)
  {
    P.DigitsFromTable(n, table);
  }

  lemma UngroupOne(c: char)
    ensures Ungroup([c]) == IfDigit(c) && Ungroup("") == "" && (!IsDigit(c) ==> IfDigit(c) == "")
  {
    assert [c][1..] == "";
  }

  lemma {:induction false} UngroupDropped(text: string, c: char)
    requires !IsDigit(c)
    ensures Ungroup(Drop(text, c)) == Ungroup(text)
  {
    if text == "" {
    } else {
      hide Ungroup, Drop;
      DropStep(text, c);
      UngroupStep(text);
      UngroupDropped(text[1..], c);
      var first := if text[0] == c then "" else [text[0]];
      UngroupAppend(first, Drop(text[1..], c));
      UngroupOne(text[0]);
    }
  }

  lemma DroppedStart(text: string, c: char)
    requires text != "" && text[0] != c
    ensures Drop(text, c) != "" && Drop(text, c)[0] == text[0]
  {
  }

  lemma GroupedStartsWithDigit(n: nat, sep: string)
    ensures var text := Grouped(Numeral(n), sep); text != "" && IsDigit(text[0])
  {
    hide Grouped, Numeral;
    GroupedStart(Numeral(n), sep);
  }

  lemma TextWithoutFill(n: nat, kind: Kind, fill: char)
    requires !kind.Unknown? && SeparatorHasNoDigit(kind) && FillIsApart(fill)
    ensures ShowsNumber(Drop(NumberText(n, kind), fill), n, kind)
  {
    hide Ungroup, Grouped, P.Digits, Ordered, Drop, Numeral;
    NumberShowsItself(n, kind);
    assert !IsDigit(fill);
    match kind {
      case PlainDecimal => DropNone(Numeral(n), fill);
      case Localized(sep) =>
        GroupedStartsWithDigit(n, sep);
        UngroupDropped(Grouped(Numeral(n), sep), fill);
        DroppedStart(Grouped(Numeral(n), sep), fill);
      case Hex(upper) =>
        LowerIsOrdered();
        UpperIsOrdered();
        FillIsNotADigit(n, if upper then UPPER else LOWER, fill);
        DropNone(NumberText(n, kind), fill);
      case Binary(_) =>
        SmallIsOrdered("01");
        FillIsNotADigit(n, "01", fill);
        DropNone(NumberText(n, kind), fill);
      case Octal =>
        SmallIsOrdered("01234567");
        FillIsNotADigit(n, "01234567", fill);
        DropNone(NumberText(n, kind), fill);
    }
  }

  lemma SignWithoutFill(value: int, sign: Sign, fill: char)
    requires FillIsApart(fill)
    ensures var text := SignOf(value, sign);
      Drop(text, fill) == text || (Drop(text, fill) == "" && text == " ")
  {
    var text := SignOf(value, sign);
    if fill in text {
      assert text == [fill] && fill == ' ';
      assert Drop(text, fill) == "" by { assert text[1..] == ""; }
    } else {
      DropNone(text, fill);
    }
  }

  lemma CoreWithoutFill(spec: Spec, value: int)
    requires !spec.kind.Unknown? && SeparatorHasNoDigit(spec.kind) && FillIsApart(spec.fill)
    ensures var text := Core(spec, PrefixText(value, spec), NumberText(Abs(value), spec.kind));
      ReadNumber(spec, Drop(text, spec.fill)) == Some(value)
  {
    hide Drop, ReadNumber, Core, NumberText, BaseText, BasePrefix, Repeat, ShowsNumber;
    var sign, digits, fill := SignOf(value, spec.sign), NumberText(Abs(value), spec.kind), spec.fill;
    var zeros := CoreHasParts(spec, sign, digits);
    DropAppend(sign, BaseText(spec) + (Repeat('0', zeros) + digits), fill);
    DropAppend(BaseText(spec), Repeat('0', zeros) + digits, fill);
    DropAppend(Repeat('0', zeros), digits, fill);
    FillIsNotInBase(spec);
    DropNone(BaseText(spec), fill);
    DropNone(Repeat('0', zeros), fill);
    SignWithoutFill(value, spec.sign, fill);
    TextWithoutFill(Abs(value), spec.kind, fill);
    PartsAreRead(spec, value, Drop(sign, fill), Drop(digits, fill), zeros);
  }

  lemma CoreIsRead(spec: Spec, value: int)
    requires !spec.kind.Unknown? && SeparatorHasNoDigit(spec.kind)
    ensures ReadNumber(spec, Core(spec, PrefixText(value, spec), NumberText(Abs(value), spec.kind))) == Some(value)
  {
    hide ReadNumber, Core, NumberText, BaseText, BasePrefix, Repeat, ShowsNumber;
    var sign, digits := SignOf(value, spec.sign), NumberText(Abs(value), spec.kind);
    var zeros := CoreHasParts(spec, sign, digits);
    NumberShowsItself(Abs(value), spec.kind);
    PartsAreRead(spec, value, sign, digits, zeros);
  }

  /** The field is not wider than the number, or its fill can be told from a number, or it consists of zeros
      behind the prefix. */
  predicate FillIsHarmless(spec: Spec, value: int) {
    var n := |NumberText(Abs(value), spec.kind)|;
    || spec.width <= NumberSize(spec, PrefixText(value, spec), n)
    || FillIsApart(spec.fill)
    || (spec.fill == '0' && spec.align == Numeric && spec.precision <= n)
  }

  lemma SameParts(spec: Spec)
    ensures BaseText(spec.(precision := 0)) == BaseText(spec) && BasePrefix(spec.(precision := 0)) == BasePrefix(spec)
  {
  }

  lemma ZerosTogether(a: nat, b: nat, digits: string)
    ensures Repeat('0', a) + (Repeat('0', b) + digits) == Repeat('0', a + b) + digits
  {
  }

  lemma ZeroFillIsRead(spec: Spec, value: int)
    requires !spec.kind.Unknown? && SeparatorHasNoDigit(spec.kind) && spec.fill == '0' && spec.align == Numeric
    requires spec.precision <= |NumberText(Abs(value), spec.kind)|
    requires spec.width > NumberSize(spec, PrefixText(value, spec), |NumberText(Abs(value), spec.kind)|)
    ensures ReadNumber(spec, IntText(value, spec)) == Some(value)
  {
    hide ReadNumber, NumberText, BaseText, BasePrefix, ShowsNumber, Layout;
    var sign, digits := SignOf(value, spec.sign), NumberText(Abs(value), spec.kind);
    var prefix := sign + BasePrefix(spec);
    var left, right := LayoutPlaces(spec, prefix, digits);
    NumberShowsItself(Abs(value), spec.kind);
    var zeros := CoreHasParts(spec.(precision := 0), sign, Repeat('0', right) + digits);
    ZerosTogether(zeros, right, digits);
    assert prefix + Repeat('0', right) + digits == prefix + (Repeat('0', right) + digits);
    PartsAreRead(spec, value, sign, digits, zeros + right);
    SameParts(spec);
  }

  /** For every number and every format whose fill is harmless: the text is read back as the number, with its
      sign, in its base. */
  lemma IntIsReadBack(spec: Spec, value: int)
    requires !spec.kind.Unknown? && SeparatorHasNoDigit(spec.kind) && FillIsHarmless(spec, value)
    ensures ReadInt(spec, IntText(value, spec)) == Some(value)
  {
    hide ReadNumber, Core, NumberText, PrefixText, Layout, Drop;
    var prefix, digits := PrefixText(value, spec), NumberText(Abs(value), spec.kind);
    if FillIsApart(spec.fill) {
      LayoutWithoutFill(spec, prefix, digits);
      CoreWithoutFill(spec, value);
    } else if spec.width <= NumberSize(spec, prefix, |digits|) {
      NarrowIsCore(spec, prefix, digits);
      CoreIsRead(spec, value);
    } else {
      ZeroFillIsRead(spec, value);
    }
  }

  /** So different numbers have different texts. */
  lemma TextsDiffer(spec: Spec, u: int, v: int)
    requires !spec.kind.Unknown? && SeparatorHasNoDigit(spec.kind)
    requires FillIsHarmless(spec, u) && FillIsHarmless(spec, v) && u != v
    ensures IntText(u, spec) != IntText(v, spec)
  {
    hide IntText, ReadInt, FillIsHarmless;
    IntIsReadBack(spec, u);
    IntIsReadBack(spec, v);
  }

  /** Where there is no padding in front, the first character tells the sign: a minus exactly for negative
      numbers, and a plus or a blank exactly for the others, if the format asks for one. */
  lemma SignIsShown(spec: Spec, value: int)
    requires !spec.kind.Unknown? && SeparatorHasNoDigit(spec.kind)
    ensures var text := Core(spec, PrefixText(value, spec), NumberText(Abs(value), spec.kind));
      && text != ""
      && (text[0] == '-' <==> value < 0)
      && (text[0] == '+' <==> value >= 0 && spec.sign == Plus)
      && (text[0] == ' ' <==> value >= 0 && spec.sign == Space)
  {
    hide Core, NumberText, BaseText, BasePrefix, Repeat, ShowsNumber;
    var sign, digits := SignOf(value, spec.sign), NumberText(Abs(value), spec.kind);
    var zeros := CoreHasParts(spec, sign, digits);
    NumberShowsItself(Abs(value), spec.kind);
    ShownStarts(digits, Abs(value), spec.kind);
    NoSignInFront(spec, digits, zeros);
  }

  /** The letters of a hexadecimal number are of the case that the type letter asks for. */
  lemma LettersHaveTheCase(n: nat, upper: bool)
    ensures var text := NumberText(n, Hex(upper));
      forall i :: 0 <= i < |text| ==>
        IsDigit(text[i]) || (if upper then 'A' <= text[i] <= 'F' else 'a' <= text[i] <= 'f')
  {
    hide P.Digits;
    if upper {
      P.DigitsFromTable(n, UPPER);
    } else {
      P.DigitsFromTable(n, LOWER);
    }
  }

  // Which fills make decimal numbers ambiguous

  predicate IsPlain(spec: Spec) {
    spec.kind == PlainDecimal && spec.sign == NoSign && spec.precision <= 1
  }

  /** A digit on the side where it can be one of the number, or a minus where it can be the sign. */
  predicate FillMisleads(spec: Spec) {
    spec.width >= 2 &&
    if spec.fill == '-' then spec.align != Left && (spec.align == Center ==> spec.width >= 3)
    else if spec.fill == '0' then spec.align == Left || spec.align == Center
    else IsDigit(spec.fill)
  }

  /** The number of n equal digits. */
  function Repdigit(d: nat, n: nat): nat {
    if n == 0 then 0 else 10 * Repdigit(d, n - 1) + d
  }

  lemma {:induction false} NumeralOfRepdigit(d: nat, n: nat)
    requires 0 < d < 10 && n > 0
    ensures Repdigit(d, n) > 0 && Numeral(Repdigit(d, n)) == Repeat(Digit(d), n)
  {
    if n == 1 {
      assert Repdigit(d, 0) == 0;
    } else {
      NumeralOfRepdigit(d, n - 1);
      assert Repeat(Digit(d), n) == Repeat(Digit(d), n - 1) + [Digit(d)];
    }
  }

  /** One and n zeros. */
  function PowerOfTen(n: nat): (r: nat)
    ensures r > 0
  {
    if n == 0 then 1 else 10 * PowerOfTen(n - 1)
  }

  lemma {:induction false} NumeralOfPower(n: nat)
    ensures Numeral(PowerOfTen(n)) == "1" + Repeat('0', n)
  {
    if n == 0 {
    } else {
      NumeralOfPower(n - 1);
      assert Repeat('0', n) == Repeat('0', n - 1) + [Digit(0)];
    }
  }

  /** The text of a number, as far as it depends on the numeral and whether it is negative. */
  lemma PlainText(spec: Spec, value: int)
    requires IsPlain(spec)
    ensures IntText(value, spec)
      == Layout(spec, if value < 0 then "-" else "", Numeral(Abs(value)))
  {
    hide Layout;
    assert "-" + "" == "-" && "" + "" == "";
  }

  lemma RepeatRepeat(c: char, a: nat, b: nat, n: nat)
    ensures Repeat(c, a) + ("" + Repeat(c, b)) + Repeat(c, n) == Repeat(c, a + b + n)
    ensures "" + Repeat(c, a) + Repeat(c, b) == Repeat(c, a + b)
  {
  }

  lemma DigitFillMisleads(spec: Spec) returns (u: int, v: int)
    requires IsPlain(spec) && spec.width >= 2 && IsDigit(spec.fill) && spec.fill != '0'
    ensures u != v && IntText(u, spec) == IntText(v, spec)
  {
    hide Layout, IntText;
    var d := spec.fill as int - '0' as int;
    u, v := Repdigit(d, spec.width - 1), Repdigit(d, spec.width);
    NumeralOfRepdigit(d, spec.width - 1);
    NumeralOfRepdigit(d, spec.width);
    assert |Repeat(spec.fill, spec.width - 1)| != |Repeat(spec.fill, spec.width)|;
    PlainText(spec, u);
    PlainText(spec, v);
    var left, right := LayoutPlaces(spec, "", Numeral(u));
    RepeatRepeat(spec.fill, left, spec.width - 1, right);
    RepeatRepeat(spec.fill, right, spec.width - 1, left);
    NarrowIsCore(spec, "", Numeral(v));
    assert "" + Numeral(v) == Numeral(v);
  }

  lemma ZeroFillMisleads(spec: Spec) returns (u: int, v: int)
    requires IsPlain(spec) && spec.width >= 2 && spec.fill == '0' && (spec.align == Left || spec.align == Center)
    ensures u != v && IntText(u, spec) == IntText(v, spec)
  {
    hide Layout, IntText;
    var n := spec.width - 2;
    u, v := PowerOfTen(n), PowerOfTen(n + 1);
    NumeralOfPower(n);
    NumeralOfPower(n + 1);
    PlainText(spec, u);
    PlainText(spec, v);
    var left, right := LayoutPlaces(spec, "", Numeral(u));
    assert left == 0 && right == 1;
    assert Repeat('0', 0) + ("" + ("1" + Repeat('0', n))) + Repeat('0', 1) == "1" + Repeat('0', n + 1);
    NarrowIsCore(spec, "", Numeral(v));
    assert "" + Numeral(v) == Numeral(v);
  }

  lemma MinusFillMisleads(spec: Spec) returns (u: int, v: int)
    requires IsPlain(spec) && FillMisleads(spec) && spec.fill == '-'
    ensures u != v && IntText(u, spec) == IntText(v, spec)
  {
    hide Layout, IntText;
    var n: nat := if spec.align == Center then spec.width - 3 else spec.width - 2;
    u, v := PowerOfTen(n), 0 - PowerOfTen(n) as int;
    NumeralOfPower(n);
    PlainText(spec, u);
    PlainText(spec, v);
    var numeral := Numeral(u);
    var left, right := LayoutPlaces(spec, "", numeral);
    var l, r := LayoutPlaces(spec, "-", numeral);
    if spec.align == Center {
      assert left == 1 && right == 1 && l == 0 && r == 1;
      assert Repeat('-', 1) + ("" + numeral) == Repeat('-', 0) + ("-" + numeral);
    } else if spec.align == Numeric {
      assert "" + Repeat('-', 1) + numeral == "-" + Repeat('-', 0) + numeral;
    } else {
      assert Repeat('-', 1) + ("" + numeral) + Repeat('-', 0) == Repeat('-', 0) + ("-" + numeral) + Repeat('-', 0);
    }
  }

  /** The decimal number with its minus. */
  function PlainCore(value: int): string {
    (if value < 0 then "-" else "") + Numeral(Abs(value))
  }

  lemma PlainCoreIsRead(spec: Spec, value: int)
    requires IsPlain(spec)
    ensures ReadNumber(spec, PlainCore(value)) == Some(value)
    ensures Core(spec, if value < 0 then "-" else "", Numeral(Abs(value))) == PlainCore(value)
  {
    hide ReadNumber, Numeral;
    CoreIsRead(spec, value);
    assert "-" + "" == "-" && "" + "" == "";
  }

  lemma ZeroIs()
    ensures Numeral(0) == "0"
  {
  }

  lemma PlainCoreChars(value: int)
    ensures var core := PlainCore(value);
      && core != "" && IsDigit(core[|core| - 1])
      && (forall i :: 0 <= i < |core| ==> IsDigit(core[i]) || core[i] == '-')
      && (core[0] == '0' <==> value == 0) && (value == 0 ==> core == "0")
  {
    hide Numeral;
    NoLeadingZero(Abs(value));
    if value == 0 { assert Numeral(0) == "0" by { ZeroIs(); } }
  }

  function StripZeros(text: string): string {
    if text != "" && text[0] == '0' then StripZeros(text[1..]) else text
  }

  lemma {:induction false} ZerosAreStripped(zeros: nat, text: string)
    ensures StripZeros(Repeat('0', zeros) + text) == StripZeros(text)
    decreases zeros
  {
    if zeros == 0 {
      assert Repeat('0', 0) + text == text;
    } else {
      assert (Repeat('0', zeros) + text)[1..] == Repeat('0', zeros - 1) + text;
      ZerosAreStripped(zeros - 1, text);
    }
  }

  function StripMinuses(text: string): string {
    if text != "" && text[|text| - 1] == '-' then StripMinuses(text[..|text| - 1]) else text
  }

  lemma {:induction false} MinusesAreStripped(text: string, n: nat)
    requires text != "" && text[|text| - 1] != '-'
    ensures StripMinuses(text + Repeat('-', n)) == text
    decreases n
  {
    var all := text + Repeat('-', n);
    if n == 0 {
      assert all == text;
    } else {
      assert all[..|all| - 1] == text + Repeat('-', n - 1);
      MinusesAreStripped(text, n - 1);
    }
  }

  lemma NoRepeat(c: char)
    ensures Repeat(c, 0) == ""
  {
  }

  lemma PlainPlaces(spec: Spec, value: int) returns (left: nat, right: nat)
    requires IsPlain(spec) && spec.align != Numeric
    ensures IntText(value, spec) == Repeat(spec.fill, left) + PlainCore(value) + Repeat(spec.fill, right)
    ensures spec.align == Left ==> left == 0
    ensures spec.align == Right || spec.align == DefaultAlign ==> right == 0
    ensures spec.align == Center && spec.width <= 2 ==> left == 0
  {
    hide Layout, Core, Numeral, Repeat;
    var prefix, numeral := if value < 0 then "-" else "", Numeral(Abs(value));
    PlainText(spec, value);
    if spec.width >= |prefix| + |numeral| {
      left, right := LayoutPlaces(spec, prefix, numeral);
    } else {
      left, right := 0, 0;
      NarrowIsCore(spec, prefix, numeral);
      PlainCoreIsRead(spec, value);
      NoRepeat(spec.fill);
      assert "" + PlainCore(value) + "" == PlainCore(value);
    }
  }

  lemma OnlyZeroIsStripped(core: string)
    requires core != "" && (core[0] == '0' ==> core == "0")
    ensures StripZeros(core) == if core[0] == '0' then "" else core
  {
    if core[0] == '0' { assert core[1..] == ""; }
  }

  lemma HarmlessPlain(spec: Spec, value: int)
    requires IsPlain(spec) && (spec.width <= 1 || (spec.fill == '0' && spec.align == Numeric))
    ensures FillIsHarmless(spec, value)
  {
  }

  lemma PlainWithoutFill(spec: Spec, value: int)
    requires IsPlain(spec) && spec.fill != '-' && !IsDigit(spec.fill)
    ensures Drop(IntText(value, spec), spec.fill) == PlainCore(value)
  {
    hide Drop, Layout, Core, PlainCore, Numeral, IntText;
    PlainText(spec, value);
    PlainCoreIsRead(spec, value);
    LayoutWithoutFill(spec, if value < 0 then "-" else "", Numeral(Abs(value)));
    PlainCoreChars(value);
    DropNone(PlainCore(value), spec.fill);
  }

  lemma ZeroFilledTells(spec: Spec, u: int, v: int)
    requires IsPlain(spec) && spec.fill == '0' && !FillMisleads(spec) && spec.width > 1 && spec.align != Numeric
    requires IntText(u, spec) == IntText(v, spec)
    ensures PlainCore(u) == PlainCore(v)
  {
    hide IntText, ReadNumber, PlainCore, Repeat, NumberText, StripZeros;
    PlainCoreChars(u);
    PlainCoreChars(v);
    var a, b := PlainPlaces(spec, u);
    var c, d := PlainPlaces(spec, v);
    NoRepeat('0');
    assert Repeat('0', a) + PlainCore(u) + "" == Repeat('0', a) + PlainCore(u);
    assert Repeat('0', c) + PlainCore(v) + "" == Repeat('0', c) + PlainCore(v);
    ZerosAreStripped(a, PlainCore(u));
    ZerosAreStripped(c, PlainCore(v));
    OnlyZeroIsStripped(PlainCore(u));
    OnlyZeroIsStripped(PlainCore(v));
  }

  lemma MinusFilledTells(spec: Spec, u: int, v: int)
    requires IsPlain(spec) && spec.fill == '-' && !FillMisleads(spec) && spec.width > 1
    requires IntText(u, spec) == IntText(v, spec)
    ensures PlainCore(u) == PlainCore(v)
  {
    hide IntText, ReadNumber, PlainCore, Repeat, NumberText, StripMinuses;
    PlainCoreChars(u);
    PlainCoreChars(v);
    var a, b := PlainPlaces(spec, u);
    var c, d := PlainPlaces(spec, v);
    NoRepeat('-');
    assert "" + PlainCore(u) + Repeat('-', b) == PlainCore(u) + Repeat('-', b);
    assert "" + PlainCore(v) + Repeat('-', d) == PlainCore(v) + Repeat('-', d);
    MinusesAreStripped(PlainCore(u), b);
    MinusesAreStripped(PlainCore(v), d);
  }

  /** What is left of the text of a decimal number once its fill is taken away, and what the number is then:
      nothing but the zeros of a fill or of 0 itself can be lost. */
  lemma PlainTextTells(spec: Spec, u: int, v: int)
    requires IsPlain(spec) && !FillMisleads(spec) && IntText(u, spec) == IntText(v, spec)
    ensures u == v
  {
    hide IntText, ReadNumber, PlainCore, Repeat, NumberText;
    PlainCoreIsRead(spec, u);
    PlainCoreIsRead(spec, v);
    if spec.width <= 1 || (spec.fill == '0' && spec.align == Numeric) {
      HarmlessPlain(spec, u);
      HarmlessPlain(spec, v);
      if u != v { TextsDiffer(spec, u, v); }
    } else if spec.fill == '0' {
      ZeroFilledTells(spec, u, v);
    } else if spec.fill == '-' {
      MinusFilledTells(spec, u, v);
    } else {
      PlainCoreChars(u);
      PlainCoreChars(v);
      PlainWithoutFill(spec, u);
      PlainWithoutFill(spec, v);
    }
  }

  /** For every format of plain decimal numbers: different numbers have different texts exactly if the fill
      does not mislead, which is a digit that could be one of the number, or a minus that could be its sign. */
  lemma PlainTextsDifferIff(spec: Spec)
    requires IsPlain(spec)
    ensures !FillMisleads(spec) <==> forall u: int, v: int :: IntText(u, spec) == IntText(v, spec) ==> u == v
  {
    hide IntText;
    if FillMisleads(spec) {
      var u, v;
      if spec.fill == '-' {
        u, v := MinusFillMisleads(spec);
      } else if spec.fill == '0' {
        u, v := ZeroFillMisleads(spec);
      } else {
        u, v := DigitFillMisleads(spec);
      }
    } else {
      forall u: int, v: int | IntText(u, spec) == IntText(v, spec) ensures u == v { PlainTextTells(spec, u, v); }
    }
  }
}
