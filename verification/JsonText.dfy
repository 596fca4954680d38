/** Escaping of strings for JSON (section 7 of RFC 7159). A string is a sequence of 16-bit units. */
module JsonText {
  import opened Wrappers

  type Unit = x: int | 0 <= x < 65536

  type Text = seq<Unit>

  const QUOTE: Unit := 0x22
  const BACKSLASH: Unit := 0x5C
  const LINE_SEPARATOR: Unit := 0x2028
  const PARAGRAPH_SEPARATOR: Unit := 0x2029
  const LOWER_U: Unit := 0x75

  function Units(s: string): (t: Text)
    ensures |t| == |s|
  {
    seq(|s|, i requires 0 <= i < |s| => (s[i] as int) % 65536)
  }

  // The escape map

  function HexDigit(d: nat): Unit
    requires d < 16
  {
    if d < 10 then 0x30 + d else 0x61 + (d - 10)
  }

  /** Backslash, u and four hexadecimal digits. */
  function UnicodeEscape(c: Unit): Text {
    [BACKSLASH, LOWER_U, HexDigit(c / 4096), HexDigit(c / 256 % 16), HexDigit(c / 16 % 16), HexDigit(c % 16)]
  }

  /** The table of replacements for the first 128 units. */
  function TableEntry(c: Unit): Option<Text> {
    if c == QUOTE || c == BACKSLASH then Some([BACKSLASH, c])
    else if c == 9 then Some([BACKSLASH, 0x74])
    else if c == 8 then Some([BACKSLASH, 0x62])
    else if c == 10 then Some([BACKSLASH, 0x6E])
    else if c == 13 then Some([BACKSLASH, 0x72])
    else if c == 12 then Some([BACKSLASH, 0x66])
    else if c <= 0x1F then Some(UnicodeEscape(c))
    else None
  }

  function Replacement(c: Unit): Option<Text> {
    if c < 0x80 then TableEntry(c)
    else if c == LINE_SEPARATOR || c == PARAGRAPH_SEPARATOR then Some(UnicodeEscape(c))
    else None
  }

  function EscapeUnit(c: Unit): Text {
    match Replacement(c)
    case Some(text) => text
    case None => [c]
  }

  /** Every unit escaped by itself. */
  function Escaped(s: Text): Text {
    if s == [] then [] else EscapeUnit(s[0]) + Escaped(s[1..])
  }

  lemma {:induction false} EscapedAppend(a: Text, b: Text)
    ensures Escaped(a + b) == Escaped(a) + Escaped(b)
    decreases |a|
  {
    if a == [] {
      assert a + b == b;
    } else {
      assert (a + b)[1..] == a[1..] + b;
      EscapedAppend(a[1..], b);
    }
  }

  lemma {:induction false} EscapedRun(s: Text)
    requires forall i :: 0 <= i < |s| ==> Replacement(s[i]) == None
    ensures Escaped(s) == s
  {
    if s != [] { EscapedRun(s[1..]); }
  }

  lemma {:induction false} EscapedOne(c: Unit)
    ensures Escaped([c]) == EscapeUnit(c) && Escaped([]) == []
    ensures Replacement(c).Some? ==> EscapeUnit(c) == Replacement(c).value
  {
    assert Escaped([c]) == EscapeUnit(c) + Escaped([]);
  }

  /** What is written so far, then the run since the last replacement, then one more replacement. */
  lemma RunAndReplacement(original: Text, from: nat, i: nat, builder: Text)
    requires from <= i < |original| && builder == Escaped(original[..from]) && Replacement(original[i]).Some?
    requires forall j :: from <= j < i ==> Replacement(original[j]) == None
    ensures builder + original[from..i] + Replacement(original[i]).value == Escaped(original[..i + 1])
  {
    hide Escaped, EscapeUnit, Replacement;
    var run := original[from..i];
    EscapedRun(run);
    assert original[..i + 1] == original[..from] + run + [original[i]];
    EscapedAppend(original[..from] + run, [original[i]]);
    EscapedAppend(original[..from], run);
    EscapedOne(original[i]);
  }

  /** Copies runs that need no escape as a whole and makes no copy at all when none is needed; `builder`
      stays None until the first replacement. */
  method JsonEscaped(original: Text) returns (r: Text)
    ensures r == Escaped(original)
  {
    hide Escaped, Replacement, EscapeUnit;
    EscapedOne(0);
    var afterReplacement, length, builder := 0, |original|, None;
    for i := 0 to length
      invariant afterReplacement <= i
      invariant builder == None ==> afterReplacement == 0
      invariant builder.Some? ==> builder.value == Escaped(original[..afterReplacement])
      invariant forall j :: afterReplacement <= j < i ==> Replacement(original[j]) == None
    {
      var c := original[i];
      var replacement := Replacement(c);
      if replacement == None { continue; }
      ghost var before := if builder == None then [] else builder.value;
      assert before == Escaped(original[..afterReplacement]);
      RunAndReplacement(original, afterReplacement, i, before);
      if afterReplacement < i {
        if builder == None { builder := Some([]); }
        builder := Some(builder.value + original[afterReplacement..i]);
      }
      if builder == None { builder := Some([]); }
      builder := Some(builder.value + replacement.value);
      afterReplacement := i + 1;
    }
    if builder == None {
      EscapedRun(original);
      return original;
    }
    EscapedRun(original[afterReplacement..]);
    EscapedAppend(original[..afterReplacement], original[afterReplacement..]);
    assert original[..afterReplacement] + original[afterReplacement..] == original;
    if afterReplacement < length {
      builder := Some(builder.value + original[afterReplacement..length]);
    }
    r := builder.value;
  }

  // Reading an escaped string

  function HexValue(c: Unit): Option<nat> {
    if 0x30 <= c <= 0x39 then Some(c - 0x30)
    else if 0x61 <= c <= 0x66 then Some(c - 0x61 + 10)
    else if 0x41 <= c <= 0x46 then Some(c - 0x41 + 10)
    else None
  }

  function HexNumber(s: Text): Option<nat>
    requires |s| == 4
  {
    match (HexValue(s[0]), HexValue(s[1]), HexValue(s[2]), HexValue(s[3]))
    case (Some(a), Some(b), Some(c), Some(d)) => Some(((a * 16 + b) * 16 + c) * 16 + d)
    case _ => None
  }

  /** The unit that a letter after a backslash stands for. */
  function ShortEscape(c: Unit): Option<Unit> {
    if c == QUOTE || c == BACKSLASH || c == 0x2F then Some(c)
    else if c == 0x62 then Some(8)
    else if c == 0x66 then Some(12)
    else if c == 0x6E then Some(10)
    else if c == 0x72 then Some(13)
    else if c == 0x74 then Some(9)
    else None
  }

  /** One possibly escaped unit and what follows it. */
  function ParseUnit(s: Text): (r: Option<(Unit, Text)>)
    ensures r.Some? ==> |r.value.1| < |s|
  {
    if s == [] then None
    else if s[0] == BACKSLASH then
      if |s| < 2 then None
      else if s[1] == LOWER_U then
        if |s| < 6 then None
        else match HexNumber(s[2..6])
          case Some(n) => if n < 65536 then Some((n, s[6..])) else None
          case None => None
      else match ShortEscape(s[1])
        case Some(c) => Some((c, s[2..]))
        case None => None
    else if s[0] < 0x20 || s[0] == QUOTE then None
    else Some((s[0], s[1..]))
  }

  /** The characters up to the closing quotation mark, and what follows it. */
  function ParseString(s: Text): (r: Option<(Text, Text)>)
    ensures r.Some? ==> |r.value.1| < |s|
    decreases |s|
  {
    if s == [] then None
    else if s[0] == QUOTE then Some(([], s[1..]))
    else match ParseUnit(s)
      case None => None
      case Some((c, more)) =>
        match ParseString(more)
        case None => None
        case Some((text, rest)) => Some(([c] + text, rest))
  }

  lemma HexArithmetic(c: nat)
    ensures ((c / 4096 * 16 + c / 256 % 16) * 16 + c / 16 % 16) * 16 + c % 16 == c
  {
    var x, y: nat := c / 16, c / 256;
    assert x / 16 == y && y / 16 == c / 4096;
  }

  lemma HexDigitValue(d: nat)
    requires d < 16
    ensures HexValue(HexDigit(d)) == Some(d)
  {
  }

  lemma HexNumberOf(c: Unit)
    ensures HexNumber(UnicodeEscape(c)[2..]) == Some(c)
  {
    hide HexDigit, HexValue;
    HexArithmetic(c);
    HexDigitValue(c / 4096);
    HexDigitValue(c / 256 % 16);
    HexDigitValue(c / 16 % 16);
    HexDigitValue(c % 16);
  }

  lemma HexDigitsRead(c: Unit, rest: Text)
    ensures ParseUnit(UnicodeEscape(c) + rest) == Some((c, rest))
  {
    var s := UnicodeEscape(c) + rest;
    assert s[2..6] == UnicodeEscape(c)[2..] && s[6..] == rest;
    HexNumberOf(c);
  }

  lemma UnitIsRead(c: Unit, rest: Text)
    ensures ParseUnit(EscapeUnit(c) + rest) == Some((c, rest))
    ensures EscapeUnit(c) != [] && EscapeUnit(c)[0] != QUOTE
  {
    var e := EscapeUnit(c);
    if |e| == 6 {
      HexDigitsRead(c, rest);
    } else if |e| == 2 {
      assert (e + rest)[2..] == rest && (e + rest)[1] == e[1];
    } else {
      assert (e + rest)[1..] == rest;
    }
  }

  /** For every string: reading its escaped form up to the quotation mark gives the string back. */
  lemma {:induction false} EscapedIsRead(s: Text, rest: Text)
    ensures ParseString(Escaped(s) + ([QUOTE] + rest)) == Some((s, rest))
  {
    if s == [] {
      assert ([QUOTE] + rest)[1..] == rest;
      assert Escaped(s) + ([QUOTE] + rest) == [QUOTE] + rest;
    } else {
      var tail := Escaped(s[1..]) + ([QUOTE] + rest);
      assert Escaped(s) + ([QUOTE] + rest) == EscapeUnit(s[0]) + tail;
      UnitIsRead(s[0], tail);
      EscapedIsRead(s[1..], rest);
      assert [s[0]] + s[1..] == s;
    }
  }

  /** Two strings never have one escaped form. */
  lemma EscapedInjective(a: Text, b: Text)
    requires Escaped(a) == Escaped(b)
    ensures a == b
  {
    EscapedIsRead(a, []);
    EscapedIsRead(b, []);
  }

  predicate NoRawQuote(e: Text)
    decreases |e|
  {
    if e == [] then true
    else if e[0] == BACKSLASH then |e| >= 2 && NoRawQuote(e[2..])
    else e[0] != QUOTE && NoRawQuote(e[1..])
  }

  /** Nothing that has to be escaped is left: no control character and neither of the separators, and every
      quotation mark stands behind a backslash that escapes it. */
  predicate Clean(e: Text) {
    (forall i :: 0 <= i < |e| ==> e[i] >= 0x20 && e[i] != 0x2028 && e[i] != 0x2029)
      && NoRawQuote(e)
  }

  lemma {:induction false} PlainHasNoQuote(e: Text, rest: Text)
    requires NoRawQuote(rest) && forall i :: 0 <= i < |e| ==> e[i] != QUOTE && e[i] != BACKSLASH
    ensures NoRawQuote(e + rest)
  {
    if e == [] {
      assert e + rest == rest;
    } else {
      assert (e + rest)[1..] == e[1..] + rest;
      PlainHasNoQuote(e[1..], rest);
    }
  }

  lemma EscapeForm(c: Unit)
    ensures var e := EscapeUnit(c);
      && (forall i :: 0 <= i < |e| ==> e[i] >= 0x20 && e[i] != 0x2028 && e[i] != 0x2029)
      && ((|e| == 1 && e[0] != QUOTE && e[0] != BACKSLASH)
            || (|e| >= 2 && e[0] == BACKSLASH && forall i :: 2 <= i < |e| ==> e[i] != QUOTE && e[i] != BACKSLASH))
  {
  }

  lemma {:induction false} UnitIsClean(c: Unit, rest: Text)
    requires Clean(rest)
    ensures Clean(EscapeUnit(c) + rest)
  {
    hide EscapeUnit;
    EscapeForm(c);
    var e := EscapeUnit(c);
    if |e| >= 2 {
      assert (e + rest)[2..] == e[2..] + rest;
      PlainHasNoQuote(e[2..], rest);
    } else {
      assert (e + rest)[1..] == rest;
    }
  }

  lemma {:induction false} EscapedIsClean(s: Text)
    ensures Clean(Escaped(s))
  {
    if s == [] {
    } else {
      EscapedIsClean(s[1..]);
      UnitIsClean(s[0], Escaped(s[1..]));
    }
  }

  /** The short escapes of section 7 of RFC 7159 are used for quotation mark, backslash, \b, \t, \n, \f and \r; the
      other control characters and the two separators are written with four digits, in small letters; and every
      other unit stands for itself. */
  lemma EscapesByUnit(c: Unit)
    ensures EscapeUnit(c) == match c
      case 0x22 => [0x5C, 0x22]
      case 0x5C => [0x5C, 0x5C]
      case 0x08 => [0x5C, 0x62]
      case 0x09 => [0x5C, 0x74]
      case 0x0A => [0x5C, 0x6E]
      case 0x0C => [0x5C, 0x66]
      case 0x0D => [0x5C, 0x72]
      case 0x2028 => [0x5C, 0x75, 0x32, 0x30, 0x32, 0x38]
      case 0x2029 => [0x5C, 0x75, 0x32, 0x30, 0x32, 0x39]
      case _ =>
        if c >= 0x20 then [c]
        else [0x5C, 0x75, 0x30, 0x30, 0x30 + c / 16, if c % 16 < 10 then 0x30 + c % 16 else 0x57 + c % 16]
  {
  }
}
