/** Formatting an integer into a growing buffer: sign, base prefix, precision, width and alignment around the
    digits. */
module IntWriter {
  import opened Wrappers
  import opened Arithmetic
  import opened Bits
  import opened Decimal
  import opened DigitCount
  import opened IntFormat
  import opened Positional

  datatype Alignment = DefaultAlign | Left | Right | Center | Numeric

  /** The type letter of a format: none or d, x or X, b or B, o, n, or any other. */
  datatype Kind = PlainDecimal | Hex(upper: bool) | Binary(upper: bool) | Octal | Localized(sep: string) | Unknown

  datatype Sign = NoSign | Space | Plus

  datatype Spec = Spec(width: nat, fill: char, align: Alignment, precision: int, sign: Sign, hash: bool, kind: Kind)

  // The text

  function Repeat(c: char, n: nat): string {
    seq(n, i => c)
  }

  /** The prefix that stays when a precision makes the leading zero of an octal number superfluous. */
  function WithoutZero(prefix: string): string {
    if prefix != "" && prefix[|prefix| - 1] == '0' then prefix[..|prefix| - 1] else prefix
  }

  /** What stands before and after the n digits of a number without precision. */
  function AroundPlain(width: nat, fill: char, align: Alignment, prefix: string, n: nat): (string, string) {
    if width <= |prefix| + n then (prefix, "")
    else
      var padding := width - |prefix| - n;
      match align
      case Left => (prefix, Repeat(fill, padding))
      case Center => (Repeat(fill, padding / 2) + prefix, Repeat(fill, padding - padding / 2))
      case Numeric => (prefix + Repeat(fill, padding), "")
      case _ => (Repeat(fill, padding) + prefix, "")
  }

  /** What stands before and after the n digits. */
  function Around(spec: Spec, prefix: string, n: nat): (string, string) {
    if spec.precision > n then
      var number := WithoutZero(prefix) + Repeat('0', spec.precision - n);
      if |number| + n >= spec.width then (number, "")
      else if spec.align == Left then (number, Repeat(spec.fill, spec.width - |number| - n))
      else (Repeat(spec.fill, spec.width - |number| - n) + number, "")
    else AroundPlain(spec.width, spec.fill, spec.align, prefix, n)
  }

  function Layout(spec: Spec, prefix: string, digits: string): string {
    Around(spec, prefix, |digits|).0 + digits + Around(spec, prefix, |digits|).1
  }

  /** How long the number is with its prefix and the zeros that a precision asks for. */
  function NumberSize(spec: Spec, prefix: string, n: nat): nat {
    if spec.precision > n then |WithoutZero(prefix)| + spec.precision else |prefix| + n
  }

  /** The text is exactly as wide as asked for, or as long as the number where that is longer. */
  lemma LayoutLength(spec: Spec, prefix: string, digits: string)
    ensures var number := NumberSize(spec, prefix, |digits|);
      |Layout(spec, prefix, digits)| == if spec.width > number then spec.width else number
  {
  }

  /** Where the number stands in a wider field: to the left, to the right, or in the middle with at most one
      more fill character behind it than in front; numeric alignment fills between the prefix and the digits. */
  lemma LayoutPlaces(spec: Spec, prefix: string, digits: string) returns (left: nat, right: nat)
    requires spec.precision <= |digits| && spec.width >= |prefix| + |digits|
    ensures left + right == spec.width - |prefix| - |digits|
    ensures spec.align == Left || spec.align == Numeric ==> left == 0
    ensures spec.align == Right || spec.align == DefaultAlign ==> right == 0
    ensures spec.align == Center ==> left <= right <= left + 1
    ensures spec.align != Numeric ==>
      Layout(spec, prefix, digits) == Repeat(spec.fill, left) + (prefix + digits) + Repeat(spec.fill, right)
    ensures spec.align == Numeric ==> Layout(spec, prefix, digits) == prefix + Repeat(spec.fill, right) + digits
  {
    var padding := spec.width - |prefix| - |digits|;
    match spec.align {
      case Left => left, right := 0, padding;
      case Center => left, right := padding / 2, padding - padding / 2;
      case Numeric => left, right := 0, padding;
      case _ => left, right := padding, 0;
    }
    assert Repeat(spec.fill, 0) == "";
  }

  /** A precision makes the number as long with zeros, in place of an octal prefix; the field's fill then
      stands on one side of it. */
  lemma LayoutPrecision(spec: Spec, prefix: string, digits: string) returns (number: string, left: nat, right: nat)
    requires spec.precision > |digits|
    ensures exists zeros: nat ::
      number == WithoutZero(prefix) + Repeat('0', zeros) + digits && zeros + |digits| == spec.precision
    ensures spec.align == Left ==> left == 0
    ensures spec.align != Left ==> right == 0
    ensures |number| + left + right == if spec.width > |number| then spec.width else |number|
    ensures Layout(spec, prefix, digits) == Repeat(spec.fill, left) + number + Repeat(spec.fill, right)
  {
    var zeros: nat := spec.precision - |digits|;
    number := WithoutZero(prefix) + Repeat('0', zeros) + digits;
    var padding := if spec.width > |number| then spec.width - |number| else 0;
    left, right := if spec.align == Left then 0 else padding, if spec.align == Left then padding else 0;
    assert Repeat(spec.fill, 0) == "";
  }

  lemma LayoutShowsDigits(spec: Spec, prefix: string, digits: string, held: string)
    requires |held| == |digits|
    ensures Layout(spec, prefix, held) == Layout(spec, prefix, digits) <==> held == digits
  {
    hide Around;
    var front := |Around(spec, prefix, |digits|).0|;
    assert Layout(spec, prefix, held)[front..front + |digits|] == held;
    assert Layout(spec, prefix, digits)[front..front + |digits|] == digits;
  }

  lemma BaseIsTwo(k: nat)
    requires k >= 1
    ensures Pow2(k) >= 2
  {
    assert Pow2(k) == 2 * Pow2(k - 1);
  }

  /** n >> k */
  function ShiftRight(n: nat, k: nat): (r: nat)
    requires k >= 1
    ensures r == Quotient(n, Pow2(k))
  {
    BaseIsTwo(k);
    n / Pow2(k)
  }

  lemma RemainderIs(n: nat, base: nat)
    requires base >= 2
    ensures Remainder(n, base) == n % base
  {
    if n < base { ModUnique(n, base, 0, n); }
  }

  /** n & (2^k - 1) */
  function LowBits(n: nat, k: nat): (r: nat)
    requires k >= 1
    ensures r == Remainder(n, Pow2(k))
  {
    BaseIsTwo(k);
    MaskIsMod(n, k);
    RemainderIs(n, Pow2(k));
    And(n, Pow2(k) - 1)
  }

  const LOWER := "0123456789abcdef"
  const UPPER := "0123456789ABCDEF"

  lemma Bases()
    ensures Pow2(4) == 16 && Pow2(1) == 2 && Pow2(3) == 8 && Pow2(0) == 1
  {
  }

  function NumberText(n: nat, kind: Kind): string {
    Bases();
    match kind
    case PlainDecimal => Numeral(n)
    case Hex(upper) => Digits(n, if upper then UPPER else LOWER)
    case Binary(_) => Digits(n, "01")
    case Octal => Digits(n, "01234567")
    case Localized(sep) => Grouped(Numeral(n), sep)
    case Unknown => ""
  }

  function SignOf(value: int, sign: Sign): string {
    if value < 0 then "-" else match sign case NoSign => "" case Space => " " case Plus => "+"
  }

  function BasePrefix(spec: Spec): string {
    if !spec.hash then "" else
      match spec.kind
      case Hex(upper) => if upper then "0X" else "0x"
      case Binary(upper) => if upper then "0B" else "0b"
      case Octal => "0"
      case _ => ""
  }

  function PrefixText(value: int, spec: Spec): string {
    SignOf(value, spec.sign) + BasePrefix(spec)
  }

  function Abs(value: int): nat {
    if value < 0 then -value else value
  }

  function IntText(value: int, spec: Spec): string {
    Layout(spec, PrefixText(value, spec), NumberText(Abs(value), spec.kind))
  }

  // Writing it

  method Fill(a: array<char>, from: nat, to: nat, c: char)
    requires from <= to <= a.Length
    modifies a
    ensures forall j :: 0 <= j < a.Length ==> a[j] == if from <= j < to then c else old(a[j])
  {
    for i := from to to
      invariant forall j :: 0 <= j < a.Length ==> a[j] == if from <= j < i then c else old(a[j])
    {
      a[i] := c;
    }
  }

  method CopyTo(a: array<char>, at: nat, text: string)
    requires at + |text| <= a.Length
    modifies a
    ensures forall j :: 0 <= j < a.Length ==> a[j] == if at <= j < at + |text| then text[j - at] else old(a[j])
  {
    for i := 0 to |text|
      invariant forall j :: 0 <= j < a.Length ==> a[j] == if at <= j < at + i then text[j - at] else old(a[j])
    {
      a[at + i] := text[i];
    }
  }

  /** The digits of the number in base 2^k, counted by shifting. */
  method CountShifted(n: nat, k: nat, ghost table: string) returns (count: nat)
    requires 1 <= k && |table| == Pow2(k)
    ensures count == |Digits(n, table)|
  {
    hide ShiftRight, LowBits, Pow2;
    BaseIsTwo(k);
    count := 1;
    var rest := ShiftRight(n, k);
    while rest != 0
      invariant count >= 1
      invariant |Digits(n, table)| == count + if rest == 0 then 0 else |Digits(rest, table)|
      decreases rest
    {
      count := count + 1;
      rest := ShiftRight(rest, k);
    }
  }

  lemma FirstDigit(n: nat, k: nat, table: string)
    requires 1 <= k && |table| == Pow2(k)
    ensures var next := ShiftRight(n, k);
      Digits(n, table) == (if next == 0 then "" else Digits(next, table)) + [table[LowBits(n, k)]]
  {
    hide ShiftRight, LowBits, Pow2;
  }

  lemma NextDigit(rest: nat, written: string, k: nat, table: string)
    requires 1 <= k && |table| == Pow2(k) && rest != 0
    ensures var next := ShiftRight(rest, k);
      Digits(rest, table) + written
        == (if next == 0 then "" else Digits(next, table)) + ([table[LowBits(rest, k)]] + written)
  {
    hide ShiftRight, LowBits, Pow2;
  }

  /** Writes the digits from the last one to the left; the digit is picked with a mask. */
  method WriteShifted(a: array<char>, end: nat, n: nat, k: nat, table: string)
    requires 1 <= k && |table| == Pow2(k) && |Digits(n, table)| <= end <= a.Length
    modifies a
    ensures a[end - |Digits(n, table)|..end] == Digits(n, table)
    ensures forall j :: 0 <= j < end - |Digits(n, table)| || end <= j < a.Length ==> a[j] == old(a[j])
  {
    hide ShiftRight, LowBits, Pow2, And, Digits;
    BaseIsTwo(k);
    FirstDigit(n, k, table);
    var pos := end - 1;
    a[pos] := table[LowBits(n, k)];
    var rest := ShiftRight(n, k);
    while rest != 0
      invariant 0 <= pos < end
      invariant Digits(n, table) == (if rest == 0 then "" else Digits(rest, table)) + a[pos..end]
      invariant forall j :: 0 <= j < pos || end <= j < a.Length ==> a[j] == old(a[j])
      decreases rest
    {
      NextDigit(rest, a[pos..end], k, table);
      ghost var written := a[pos..end];
      pos := pos - 1;
      a[pos] := table[LowBits(rest, k)];
      assert a[pos..end] == [a[pos]] + written;
      rest := ShiftRight(rest, k);
    }
  }

  /** How many characters the digits take with their separators. */
  method CountGrouped(n: nat, bits: nat, sep: string) returns (count: nat)
    requires (bits == 32 || bits == 64) && n < Pow2(bits)
    ensures count == |Grouped(Numeral(n), sep)|
  {
    hide Grouped, Numeral, Pow2;
    var numDigits := if bits == 64 then CountDigits64(n) else CountDigits32(n);
    GroupedLength(Numeral(n), sep);
    count := numDigits + |sep| * ((numDigits - 1) / 3);
  }

  /** The buffer holds what it had, then the front, then room for n digits up to `last`, then the back. */
  predicate Prepared(b: string, had: string, around: (string, string), n: nat, last: int) {
    && last + 1 == |had| + |around.0| + n && |b| == last + 1 + |around.1|
    && b[..|had| + |around.0|] == had + around.0
    && b[last + 1..] == around.1
  }

  lemma PreparedIs(b: string, had: string, around: (string, string), n: nat, last: int)
    requires last + 1 == |had| + |around.0| + n && |b| == last + 1 + |around.1|
    requires forall j :: 0 <= j < |had| ==> b[j] == had[j]
    requires forall j :: 0 <= j < |around.0| ==> b[|had| + j] == around.0[j]
    requires forall j :: 0 <= j < |around.1| ==> b[last + 1 + j] == around.1[j]
    ensures Prepared(b, had, around, n, last)
  {
    var front := |had| + |around.0|;
    forall j | |had| <= j < front ensures b[j] == (had + around.0)[j] {
      assert b[|had| + (j - |had|)] == around.0[j - |had|];
    }
  }

  lemma PreparedEnds(b: string, had: string, around: (string, string), n: nat, last: int)
    requires Prepared(b, had, around, n, last)
    ensures n <= last + 1 <= |b|
    ensures last + 1 == |had| + |around.0| + n && |b| == last + 1 + |around.1|
  {
  }

  lemma PadBefore(b: string, had: string, padding: string, number: string, n: nat, last: int)
    requires Prepared(b, had + padding, (number, ""), n, last)
    ensures Prepared(b, had, (padding + number, ""), n, last)
  {
    assert had + padding + number == had + (padding + number);
  }

  lemma PadAfter(b: string, had: string, padding: string, number: string, n: nat, last: int)
    requires Prepared(b, had, (number, ""), n, last)
    ensures Prepared(b + padding, had, (number, padding), n, last)
  {
    var front := |had| + |number|;
    assert (b + padding)[..front] == b[..front];
  }

  lemma AroundWithPrecision(spec: Spec, prefix: string, n: nat)
    requires spec.precision > n
    ensures var (kept, number) := (WithoutZero(prefix), WithoutZero(prefix) + Repeat('0', spec.precision - n));
      && AroundPlain(|kept| + spec.precision, '0', Numeric, kept, n) == (number, "")
      && Around(spec, prefix, n) == if |kept| + spec.precision >= spec.width then (number, "")
          else if spec.align == Left then (number, Repeat(spec.fill, spec.width - |kept| - spec.precision))
          else (Repeat(spec.fill, spec.width - |kept| - spec.precision) + number, "")
  {
  }

  lemma SlicesEqual(a: string, b: string, from: nat, to: nat)
    requires from <= to <= |a| && to <= |b| && forall j :: from <= j < to ==> a[j] == b[j]
    ensures a[from..to] == b[from..to]
  {
  }

  lemma SliceOfFront(front: string, back: string, from: nat, to: nat)
    requires from <= to <= |front|
    ensures (front + back)[from..to] == front[from..to]
  {
  }

  /** The digits in their place make the whole text. */
  lemma Assembled(b: string, done: string, had: string, around: (string, string), digits: string, last: int)
    requires Prepared(b, had, around, |digits|, last) && |done| == |b|
    requires done[last + 1 - |digits|..last + 1] == digits
    requires forall j :: 0 <= j < last + 1 - |digits| || last + 1 <= j < |b| ==> done[j] == b[j]
    ensures done == had + (around.0 + digits + around.1)
  {
    var front := last + 1 - |digits|;
    assert done[..front] == b[..front] && done[last + 1..] == b[last + 1..];
    assert done == done[..front] + done[front..last + 1] + done[last + 1..];
  }

  // The storage

  const INLINE_BUFFER_SIZE := 500

  /** The capacity once there must be room for `need` characters. */
  function Grown(capacity: nat, need: nat): nat {
    if need <= capacity then capacity
    else if need > capacity + capacity / 2 then need
    else capacity + capacity / 2
  }

  /** The place prepared for the digits is left behind: it is determined before the fill behind the number
      is appended, and that makes the buffer move to other storage. Room for the field is reserved, but as
      if the buffer were empty. */
  predicate PlaceIsLost(spec: Spec, prefix: string, n: nat, size: nat, capacity: nat) {
    && spec.precision > n && spec.align == Left && spec.width > NumberSize(spec, prefix, n)
    && size + spec.width > Grown(Grown(capacity, spec.width), size + NumberSize(spec, prefix, n))
  }

  /** An empty buffer, which the reserved room is enough for, and one that has room for the field keep it. */
  lemma PlaceIsKept(spec: Spec, prefix: string, n: nat, size: nat, capacity: nat)
    requires size == 0 || size + spec.width <= capacity
    ensures !PlaceIsLost(spec, prefix, n, size, capacity)
  {
  }

  /** A full buffer loses it for every field that is wider than half of the buffer around a number that is
      not. */
  lemma FullBufferLosesPlace(spec: Spec, prefix: string, n: nat, size: nat)
    requires spec.precision > n && spec.align == Left
    requires NumberSize(spec, prefix, n) <= size / 2 < spec.width <= size
    ensures PlaceIsLost(spec, prefix, n, size, size)
  {
  }

  /** What a text of 495 characters and then `%-10.3d` of 7 come to in a new buffer. */
  lemma {:induction false} SevenFits(bits: nat)
    requires bits >= 3
    ensures 7 < Pow2(bits)
  {
    if bits == 3 {
      Bases();
    } else {
      SevenFits(bits - 1);
    }
  }

  const SEVEN_IN_TEN := Spec(10, ' ', Left, 3, NoSign, false, PlainDecimal)

  /** The digits of the number are lost. */
  predicate IntIsLost(value: int, spec: Spec, size: nat, capacity: nat) {
    PlaceIsLost(spec, PrefixText(value, spec), |NumberText(Abs(value), spec.kind)|, size, capacity)
  }

  lemma LostAfter495Characters()
    ensures NumberText(7, PlainDecimal) == "7" && IntIsLost(7, SEVEN_IN_TEN, 495, INLINE_BUFFER_SIZE)
    ensures PrefixText(7, SEVEN_IN_TEN) == "" && |Around(SEVEN_IN_TEN, "", 1).0| == 2
  {
  }

  /** The text is right exactly if the digits are where they belong. */
  lemma TextIsRight(had: string, value: int, spec: Spec, held: string)
    requires |held| == |NumberText(Abs(value), spec.kind)|
    ensures had + Layout(spec, PrefixText(value, spec), held) == had + IntText(value, spec)
      <==> held == NumberText(Abs(value), spec.kind)
  {
    hide Layout, Around, NumberText, PrefixText;
    var prefix, digits := PrefixText(value, spec), NumberText(Abs(value), spec.kind);
    LayoutShowsDigits(spec, prefix, digits, held);
    if had + Layout(spec, prefix, held) == had + Layout(spec, prefix, digits) {
      assert (had + Layout(spec, prefix, held))[|had|..] == Layout(spec, prefix, held);
      assert (had + Layout(spec, prefix, digits))[|had|..] == Layout(spec, prefix, digits);
    }
  }

  lemma ModuloOfNegative(value: int, m: nat)
    requires 0 < value + m && value < 0
    ensures value % m == value + m
  {
    var q, r := value / m, value % m;
    assert value == q * m + r;
    MulBound(q + 1, m);
    Distribute(q, -1, m);
  }

  /** The absolute value by way of the unsigned type: the conversion and the negation both wrap. */
  method AbsoluteValue(value: int, bits: nat) returns (r: nat)
    requires bits > 0 && 0 <= value + Pow2(bits - 1) && value < Pow2(bits)
    ensures r == if value < 0 then -value else value
    ensures r < Pow2(bits)
  {
    var modulus := Pow2(bits);
    assert modulus == 2 * Pow2(bits - 1);
    if value < 0 {
      ModuloOfNegative(value, modulus);
      ModuloOfNegative(0 - (value + modulus), modulus);
      r := (0 - value % modulus) % modulus;
    } else {
      ModUnique(value, modulus, 0, value);
      r := value % modulus;
    }
  }

  class BasicWriter {
    var storage: array<char>  // as long as the capacity
    var size: nat

    ghost predicate Valid()
      reads this
    {
      size <= storage.Length
    }

    ghost function Contents(): string
      requires Valid()
      reads this, storage
    {
      storage[..size]
    }

    constructor ()
      ensures Valid() && Contents() == "" && fresh(storage) && storage.Length == INLINE_BUFFER_SIZE
    {
      storage, size := new char[INLINE_BUFFER_SIZE], 0;
    }

    /** The buffer has the capacity for what it holds, in the storage it had if that was large enough and in
        new storage otherwise. */
    twostate predicate Resized(need: nat)
      requires old(Valid())
      reads this
    {
      && Valid() && storage.Length == Grown(old(storage).Length, need)
      && if need <= old(storage).Length then storage == old(storage) else fresh(storage)
    }

    /** Moves what the buffer holds to larger storage, which can hold anything behind it. */
    method Grow(need: nat)
      requires Valid() && need > storage.Length
      modifies this`storage
      ensures Valid() && fresh(storage) && storage.Length == Grown(old(storage.Length), need)
      ensures Contents() == old(Contents())
    {
      var larger := new char[Grown(storage.Length, need)];
      forall j | 0 <= j < size {
        larger[j] := storage[j];
      }
      storage := larger;
    }

    method Reserve(capacity: nat)
      requires Valid()
      modifies this`storage
      ensures Resized(capacity) && Contents() == old(Contents())
    {
      if capacity > storage.Length {
        Grow(capacity);
      }
    }

    /** Room for n more characters, which can hold anything; where they start. */
    method GrowBuffer(n: nat) returns (start: nat)
      requires Valid()
      modifies this
      ensures start == old(size) && size == start + n && Resized(size)
      ensures storage[..start] == old(Contents())
    {
      start := size;
      if start + n > storage.Length {
        Grow(start + n);
      }
      size := start + n;
    }

    /** Everything but the digits is in place, and their place holds what the storage held there before. */
    twostate predicate Placed(around: (string, string), numDigits: nat, last: int)
      requires old(Valid())
      reads this, storage
    {
      && Resized(size) && Prepared(Contents(), old(Contents()), around, numDigits, last)
      && (storage == old(storage) ==> forall j :: last - numDigits < j <= last ==> storage[j] == old(storage[j]))
    }

    method PlaceLeft(numDigits: nat, width: nat, fill: char, prefix: string) returns (last: int)
      requires Valid() && width > |prefix| + numDigits
      modifies this, storage
      ensures size == old(size) + width && Placed(AroundPlain(width, fill, Left, prefix, numDigits), numDigits, last)
    {
      hide Prepared, Grown;
      var p := GrowBuffer(width);
      CopyTo(storage, p, prefix);
      p := p + |prefix| + numDigits;
      Fill(storage, p, size, fill);
      last := p - 1;
      PreparedIs(Contents(), old(Contents()), AroundPlain(width, fill, Left, prefix, numDigits), numDigits, last);
    }

    method PlaceCenter(numDigits: nat, width: nat, fill: char, prefix: string) returns (last: int)
      requires Valid() && width > |prefix| + numDigits
      modifies this, storage
      ensures size == old(size) + width && Placed(AroundPlain(width, fill, Center, prefix, numDigits), numDigits, last)
    {
      hide Prepared, Grown;
      var number := |prefix| + numDigits;
      var p := GrowBuffer(width);
      var content := p + (width - number) / 2;
      Fill(storage, p, content, fill);
      Fill(storage, content + number, size, fill);
      CopyTo(storage, content, prefix);
      last := content + number - 1;
      PreparedIs(Contents(), old(Contents()), AroundPlain(width, fill, Center, prefix, numDigits), numDigits, last);
    }

    method PlaceNumeric(numDigits: nat, width: nat, fill: char, prefix: string) returns (last: int)
      requires Valid() && width > |prefix| + numDigits
      modifies this, storage
      ensures size == old(size) + width && Placed(AroundPlain(width, fill, Numeric, prefix, numDigits), numDigits, last)
    {
      hide Prepared, Grown;
      var p := GrowBuffer(width);
      CopyTo(storage, p, prefix);
      Fill(storage, p + |prefix|, size - numDigits, fill);
      last := size - 1;
      PreparedIs(Contents(), old(Contents()), AroundPlain(width, fill, Numeric, prefix, numDigits), numDigits, last);
    }

    method PlaceRight(numDigits: nat, width: nat, fill: char, prefix: string) returns (last: int)
      requires Valid() && width > |prefix| + numDigits
      modifies this, storage
      ensures size == old(size) + width && Placed(AroundPlain(width, fill, Right, prefix, numDigits), numDigits, last)
    {
      hide Prepared, Grown;
      var p := GrowBuffer(width);
      var number := size - |prefix| - numDigits;
      CopyTo(storage, number, prefix);
      Fill(storage, p, number, fill);
      last := size - 1;
      PreparedIs(Contents(), old(Contents()), AroundPlain(width, fill, Right, prefix, numDigits), numDigits, last);
    }

    /** Prefix, padding and room for the digits, without a precision; where the last digit goes. */
    method PreparePlain(numDigits: nat, width: nat, fill: char, align: Alignment, prefix: string) returns (last: int)
      requires Valid()
      modifies this, storage
      ensures size == old(size) + if width <= |prefix| + numDigits then |prefix| + numDigits else width
      ensures Placed(AroundPlain(width, fill, align, prefix, numDigits), numDigits, last)
    {
      hide Prepared, Grown;
      if width <= |prefix| + numDigits {
        var p := GrowBuffer(|prefix| + numDigits);
        CopyTo(storage, p, prefix);
        PreparedIs(Contents(), old(Contents()), (prefix, ""), numDigits, size - 1);
        return size - 1;
      }
      match align {
        case Left => last := PlaceLeft(numDigits, width, fill, prefix);
        case Center => last := PlaceCenter(numDigits, width, fill, prefix);
        case Numeric => last := PlaceNumeric(numDigits, width, fill, prefix);
        case _ => last := PlaceRight(numDigits, width, fill, prefix);
      }
    }

    /** Padding of the whole number, when a precision makes the number itself longer than its digits. */
    method AppendFill(n: nat, fill: char)
      requires Valid()
      modifies this, storage
      ensures size == old(size) + n && Resized(size)
      ensures Contents() == old(Contents()) + Repeat(fill, n)
      ensures storage == old(storage) ==> forall j :: 0 <= j < old(size) || size <= j < storage.Length ==>
        storage[j] == old(storage[j])
    {
      var p := GrowBuffer(n);
      Fill(storage, p, size, fill);
    }

    /** A precision in a field that is wider than the number, which stands to the right. */
    method PrepareRight(numDigits: nat, spec: Spec, prefix: string) returns (last: int)
      requires Valid() && spec.precision > numDigits && spec.align != Left
      requires NumberSize(spec, prefix, numDigits) < spec.width
      modifies this, storage
      ensures Valid() && Prepared(Contents(), old(Contents()), Around(spec, prefix, numDigits), numDigits, last)
      ensures storage == old(storage) || fresh(storage)
    {
      hide Around, AroundPlain, Prepared, Repeat, WithoutZero, Grown;
      AroundWithPrecision(spec, prefix, numDigits);
      var kept := WithoutZero(prefix);
      ghost var number := kept + Repeat('0', spec.precision - numDigits);
      var numberSize := |kept| + spec.precision;
      Reserve(spec.width);
      AppendFill(spec.width - numberSize, spec.fill);
      last := PreparePlain(numDigits, numberSize, '0', Numeric, kept);
      PadBefore(Contents(), old(Contents()), Repeat(spec.fill, spec.width - numberSize), number, numDigits, last);
    }

    /** The zeros that a precision asks for. */
    method PrepareZeros(numDigits: nat, numberSize: nat, kept: string, ghost number: string) returns (last: int)
      requires Valid() && numberSize > |kept| + numDigits
      requires AroundPlain(numberSize, '0', Numeric, kept, numDigits) == (number, "")
      modifies this, storage
      ensures size == old(size) + numberSize && Resized(size) && numDigits <= last + 1 == size
      ensures Prepared(Contents(), old(Contents()), (number, ""), numDigits, last)
      ensures storage == old(storage) ==>
        Contents()[last + 1 - numDigits..last + 1] == old(storage[last + 1 - numDigits..last + 1])
    {
      hide AroundPlain, Prepared, Grown;
      ghost var was := storage[..];
      last := PreparePlain(numDigits, numberSize, '0', Numeric, kept);
      PreparedEnds(Contents(), old(Contents()), (number, ""), numDigits, last);
      if storage == old(storage) {
        SlicesEqual(Contents(), was, last + 1 - numDigits, last + 1);
      }
    }

    /** Fill behind a prepared number, which leaves it as it is. */
    method FillBehind(numDigits: nat, fillSize: nat, fill: char, ghost number: string, ghost had: string, last: int)
      requires Valid() && Prepared(Contents(), had, (number, ""), numDigits, last) && numDigits <= last + 1 == size
      modifies this, storage
      ensures size == old(size) + fillSize && Resized(size)
      ensures Prepared(Contents(), had, (number, Repeat(fill, fillSize)), numDigits, last)
      ensures Contents()[last + 1 - numDigits..last + 1] == old(Contents())[last + 1 - numDigits..last + 1]
    {
      hide Prepared, Repeat, Grown;
      PadAfter(Contents(), had, Repeat(fill, fillSize), number, numDigits, last);
      SliceOfFront(Contents(), Repeat(fill, fillSize), last + 1 - numDigits, last + 1);
      AppendFill(fillSize, fill);
    }

    /** The same with the number to the left: the fill comes after the place has been determined. */
    method PrepareLeft(numDigits: nat, spec: Spec, prefix: string) returns (place: array<char>, last: int)
      requires Valid() && spec.precision > numDigits && spec.align == Left
      requires NumberSize(spec, prefix, numDigits) < spec.width
      modifies this, storage
      ensures Valid() && Prepared(Contents(), old(Contents()), Around(spec, prefix, numDigits), numDigits, last)
      ensures place == storage <==> !PlaceIsLost(spec, prefix, numDigits, old(size), old(storage.Length))
      ensures last < place.Length && (place == old(storage) || fresh(place))
      ensures (storage == old(storage) || fresh(storage))
      ensures place != storage && last < old(storage.Length) && spec.width <= old(storage.Length) ==>
        place == old(storage) && 0 <= last + 1 - numDigits && last < size
          && Contents()[last + 1 - numDigits..last + 1] == old(storage[last + 1 - numDigits..last + 1])
    {
      hide Around, AroundPlain, Prepared, Repeat, WithoutZero;
      AroundWithPrecision(spec, prefix, numDigits);
      var kept := WithoutZero(prefix);
      ghost var number := kept + Repeat('0', spec.precision - numDigits);
      var numberSize := |kept| + spec.precision;
      Reserve(spec.width);
      last := PrepareZeros(numDigits, numberSize, kept, number);
      place := storage;
      FillBehind(numDigits, spec.width - numberSize, spec.fill, number, old(Contents()), last);
    }

    /** Everything but the digits, and where these go: the storage and the place of the last digit. That is
        the buffer's storage exactly if the place is not lost. */
    method PrepareIntBuffer(numDigits: nat, spec: Spec, prefix: string) returns (place: array<char>, last: int)
      requires Valid()
      modifies this, storage
      ensures Valid() && Prepared(Contents(), old(Contents()), Around(spec, prefix, numDigits), numDigits, last)
      ensures place == storage <==> !PlaceIsLost(spec, prefix, numDigits, old(size), old(storage.Length))
      ensures last < place.Length && (place == old(storage) || fresh(place))
      ensures (storage == old(storage) || fresh(storage))
      ensures place != storage && last < old(storage.Length) && spec.width <= old(storage.Length) ==>
        place == old(storage) && 0 <= last + 1 - numDigits && last < size
          && Contents()[last + 1 - numDigits..last + 1] == old(storage[last + 1 - numDigits..last + 1])
    {
      hide AroundPlain, Prepared, Repeat, WithoutZero;
      if spec.precision <= numDigits {
        last := PreparePlain(numDigits, spec.width, spec.fill, spec.align, prefix);
        PreparedEnds(Contents(), old(Contents()), Around(spec, prefix, numDigits), numDigits, last);
        return storage, last;
      }
      AroundWithPrecision(spec, prefix, numDigits);
      var kept := WithoutZero(prefix);
      if |kept| + spec.precision >= spec.width {
        last := PreparePlain(numDigits, |kept| + spec.precision, '0', Numeric, kept);
      } else if spec.align != Left {
        last := PrepareRight(numDigits, spec, prefix);
      } else {
        place, last := PrepareLeft(numDigits, spec, prefix);
        return;
      }
      PreparedEnds(Contents(), old(Contents()), Around(spec, prefix, numDigits), numDigits, last);
      place := storage;
    }

    /** The text has been appended, but if their place was lost, the digits have not: `held` then stands where
        they belong, what that memory held before. */
    twostate predicate Wrote(spec: Spec, prefix: string, digits: string, held: string)
      requires old(Valid())
      reads this, storage
    {
      var first := old(size) + |Around(spec, prefix, |digits|).0|;
      && Valid() && |held| == |digits| && Contents() == old(Contents()) + Layout(spec, prefix, held)
      && if PlaceIsLost(spec, prefix, |digits|, old(size), old(storage).Length) then
           first + |digits| <= old(storage).Length && spec.width <= old(storage).Length ==>
             held == old(storage[first..first + |digits|])
         else held == digits
    }

    /** What stands at the digits' place once they have been written to `place`. */
    ghost function Finished(prepared: string, had: string, spec: Spec, prefix: string, digits: string, last: int,
          place: array<char>): (held: string)
      requires Valid() && Prepared(prepared, had, Around(spec, prefix, |digits|), |digits|, last)
      requires |digits| <= last + 1
      requires |prepared| == size && last < |prepared|
      requires place == storage ==> storage[last + 1 - |digits|..last + 1] == digits
      requires place == storage ==> forall j :: 0 <= j < last + 1 - |digits| || last + 1 <= j < size ==>
        storage[j] == prepared[j]
      requires place != storage ==> Contents() == prepared
      reads this, storage
      ensures |held| == |digits| && Contents() == had + Layout(spec, prefix, held)
      ensures held == if place == storage then digits else prepared[last + 1 - |digits|..last + 1]
    {
      var h := Contents()[last + 1 - |digits|..last + 1];
      Assembled(prepared, Contents(), had, Around(spec, prefix, |digits|), h, last);
      h
    }

    method WriteDecimal(n: nat, bits: nat, spec: Spec, prefix: string, sep: string) returns (ghost held: string)
      requires Valid() && (bits == 32 || bits == 64) && n < Pow2(bits)
      modifies this, storage
      ensures Wrote(spec, prefix, Grouped(Numeral(n), sep), held)
    {
      hide Grouped, Numeral, Around, Pow2, PlaceIsLost, Prepared, Layout, Grown, Repeat;
      ghost var text := Grouped(Numeral(n), sep);
      var count := CountGrouped(n, bits, sep);
      var place, last := PrepareIntBuffer(count, spec, prefix);
      ghost var prepared := Contents();
      PreparedEnds(prepared, old(Contents()), Around(spec, prefix, count), count, last);
      FormatDecimal(place, last + 1, n, 0, sep);
      assert place != storage ==> Contents() == prepared;
      held := Finished(prepared, old(Contents()), spec, prefix, text, last, place);
    }

    method WriteBase(n: nat, k: nat, table: string, spec: Spec, prefix: string) returns (ghost held: string)
      requires Valid() && 1 <= k && |table| == Pow2(k)
      modifies this, storage
      ensures Wrote(spec, prefix, Digits(n, table), held)
    {
      hide Digits, Around, Pow2, PlaceIsLost, Prepared, Layout, Grown, Repeat;
      BaseIsTwo(k);
      var numDigits := CountShifted(n, k, table);
      var place, last := PrepareIntBuffer(numDigits, spec, prefix);
      ghost var prepared := Contents();
      PreparedEnds(prepared, old(Contents()), Around(spec, prefix, numDigits), numDigits, last);
      WriteShifted(place, last + 1, n, k, table);
      assert place != storage ==> Contents() == prepared;
      held := Finished(prepared, old(Contents()), spec, prefix, Digits(n, table), last, place);
      assert last + 1 - numDigits == old(size) + |Around(spec, prefix, numDigits).0|;
    }

    method WriteKind(n: nat, bits: nat, spec: Spec, prefix: string) returns (ok: bool, ghost held: string)
      requires Valid() && (bits == 32 || bits == 64) && n < Pow2(bits)
      modifies this, storage
      ensures ok <==> spec.kind != Unknown
      ensures if ok
        then Wrote(spec, prefix, NumberText(n, spec.kind), held) else Valid() && Contents() == old(Contents())
    {
      hide Grouped, Numeral, Digits, Pow2, Wrote;
      match spec.kind {
        case PlainDecimal =>
          GroupedWithout(Numeral(n));
          held := WriteDecimal(n, bits, spec, prefix, "");
        case Localized(sep) =>
          held := WriteDecimal(n, bits, spec, prefix, sep);
        case Hex(upper) =>
          Bases();
          held := WriteBase(n, 4, if upper then UPPER else LOWER, spec, prefix);
        case Binary(_) =>
          Bases();
          held := WriteBase(n, 1, "01", spec, prefix);
        case Octal =>
          Bases();
          held := WriteBase(n, 3, "01234567", spec, prefix);
        case Unknown =>
          return false, "";
      }
      return true, held;
    }

    /** Appends the formatted number; false stands for the exception about an unknown type letter, and the
        buffer is then as it was. `bits` is the width of the unsigned type that holds the absolute value. */
    method WriteInt(value: int, bits: nat, spec: Spec) returns (ok: bool, ghost held: string)
      requires Valid() && (bits == 32 || bits == 64) && 0 <= value + Pow2(bits - 1) && value < Pow2(bits)
      modifies this, storage
      ensures ok <==> spec.kind != Unknown
      ensures !ok ==> Valid() && Contents() == old(Contents())
      ensures ok ==> Wrote(spec, PrefixText(value, spec), NumberText(Abs(value), spec.kind), held)
      ensures ok ==>
        (Contents() == old(Contents()) + IntText(value, spec) <==> held == NumberText(Abs(value), spec.kind))
      ensures ok && !IntIsLost(value, spec, old(size), old(storage.Length)) ==>
        Contents() == old(Contents()) + IntText(value, spec)
    {
      hide NumberText, PrefixText, Around, Pow2, Layout, PlaceIsLost, IntText;
      var absValue := AbsoluteValue(value, bits);
      ok, held := WriteKind(absValue, bits, spec, PrefixText(value, spec));
      if ok {
        TextIsRight(old(Contents()), value, spec, held);
      }
    }
  }

  /** A text of 495 characters in a buffer that has not grown yet, and then `%-10.3d` of 7: whatever the
      storage held behind the text, if it was not a 7 by chance, the text is wrong. */
  method LosesSeven(w: BasicWriter)
    requires w.Valid() && w.size == 495 && w.storage.Length == INLINE_BUFFER_SIZE && w.storage[497] != '7'
    modifies w, w.storage
    ensures w.Valid() && w.Contents() != old(w.Contents()) + IntText(7, SEVEN_IN_TEN)
  {
    hide IntText, PlaceIsLost, NumberText, PrefixText, Around, Layout, Grown;
    LostAfter495Characters();
    SevenFits(32);
    var ok, held := w.WriteInt(7, 32, SEVEN_IN_TEN);
  }
}
