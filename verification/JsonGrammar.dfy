/** A parser for the JSON grammar (sections 2 to 7 of RFC 7159), and what it makes of the writer's output. */
module JsonGrammar {
  import opened Wrappers
  import opened JsonText
  import opened Decimal
  import opened Json

  // Parsing

  predicate IsSpace(c: Unit) {
    c == 0x20 || c == 9 || c == 10 || c == 13
  }

  function SkipSpace(s: Text): (r: Text)
    ensures |r| <= |s|
  {
    if s != [] && IsSpace(s[0]) then SkipSpace(s[1..]) else s
  }

  predicate IsDigitUnit(c: Unit) {
    0x30 <= c <= 0x39
  }

  function DigitRun(s: Text): (r: Text)
    ensures r <= s && forall i :: 0 <= i < |r| ==> IsDigitUnit(r[i])
    ensures |r| < |s| ==> !IsDigitUnit(s[|r|])
  {
    if s == [] || !IsDigitUnit(s[0]) then [] else [s[0]] + DigitRun(s[1..])
  }

  const DOT: Unit := 0x2E
  const PLUS: Unit := 0x2B

  predicate IsExponentMark(c: Unit) {
    c == 0x65 || c == 0x45
  }

  /** What follows at least one digit. */
  function AfterDigits(s: Text): (r: Option<Text>)
    ensures r.Some? ==> |r.value| < |s|
  {
    if DigitRun(s) == [] then None else Some(s[|DigitRun(s)|..])
  }

  /** What follows the digits in front, of which the first is 0 only if it is the only one. */
  function AfterWhole(s: Text): (r: Option<Text>)
    ensures r.Some? ==> |r.value| < |s|
  {
    if |DigitRun(s)| > 1 && s[0] == 0x30 then None else AfterDigits(s)
  }

  /** What follows a fraction, if there is one. */
  function AfterFraction(s: Text): (r: Option<Text>)
    ensures r.Some? ==> |r.value| <= |s|
  {
    if s != [] && s[0] == DOT then AfterDigits(s[1..]) else Some(s)
  }

  function AfterSign(s: Text): (r: Text)
    ensures |r| <= |s|
  {
    if s != [] && (s[0] == PLUS || s[0] == MINUS) then s[1..] else s
  }

  /** What follows an exponent, if there is one. */
  function AfterExponent(s: Text): (r: Option<Text>)
    ensures r.Some? ==> |r.value| <= |s|
  {
    if s != [] && IsExponentMark(s[0]) then AfterDigits(AfterSign(s[1..])) else Some(s)
  }

  function AfterUnsigned(s: Text): (r: Option<Text>)
    ensures r.Some? ==> |r.value| < |s|
  {
    match AfterWhole(s)
    case None => None
    case Some(t) =>
      match AfterFraction(t)
      case None => None
      case Some(u) => AfterExponent(u)
  }

  function AfterNumber(s: Text): (r: Option<Text>)
    ensures r.Some? ==> |r.value| < |s|
  {
    AfterUnsigned(if s != [] && s[0] == MINUS then s[1..] else s)
  }

  predicate IsNumber(t: Text) {
    AfterNumber(t) == Some([])
  }

  function ParseNumber(s: Text): (r: Option<(Value, Text)>)
    ensures r.Some? ==> |r.value.1| < |s|
  {
    match AfterNumber(s)
    case None => None
    case Some(rest) => Some((Number(s[..|s| - |rest|]), rest))
  }

  function ParseLiteral(s: Text): (r: Option<(Value, Text)>)
    ensures r.Some? ==> |r.value.1| < |s|
  {
    if Units("null") <= s then Some((Null, s[4..]))
    else if Units("true") <= s then Some((True, s[4..]))
    else if Units("false") <= s then Some((False, s[5..]))
    else None
  }

  /** A value after optional space, and what follows it. */
  function ParseValue(text: Text): (r: Option<(Value, Text)>)
    ensures r.Some? ==> |r.value.1| < |text|
    decreases |text|, 2
  {
    var s := SkipSpace(text);
    if s == [] then None
    else if s[0] == QUOTE then
      match ParseString(s[1..])
      case None => None
      case Some((t, rest)) => Some((String(t), rest))
    else if s[0] == ARRAY_OPEN then
      var t := SkipSpace(s[1..]);
      if t != [] && t[0] == ARRAY_CLOSE then Some((Array([]), t[1..])) else
        match ParseItems(t)
        case None => None
        case Some((items, rest)) => Some((Array(items), rest))
    else if s[0] == OBJECT_OPEN then
      var t := SkipSpace(s[1..]);
      if t != [] && t[0] == OBJECT_CLOSE then Some((Object([]), t[1..])) else
        match ParseMembers(t)
        case None => None
        case Some((members, rest)) => Some((Object(members), rest))
    else if s[0] == MINUS || IsDigitUnit(s[0]) then ParseNumber(s)
    else ParseLiteral(s)
  }

  /** Values separated by commas up to the closing bracket. */
  function ParseItems(text: Text): (r: Option<(seq<Value>, Text)>)
    ensures r.Some? ==> |r.value.1| < |text|
    decreases |text|, 3
  {
    match ParseValue(text)
    case None => None
    case Some((v, more)) =>
      var s := SkipSpace(more);
      if s == [] then None
      else if s[0] == ARRAY_CLOSE then Some(([v], s[1..]))
      else if s[0] != COMMA then None
      else match ParseItems(s[1..])
        case None => None
        case Some((items, rest)) => Some(([v] + items, rest))
  }

  function ParseMember(text: Text): (r: Option<(Member, Text)>)
    ensures r.Some? ==> |r.value.1| < |text|
    decreases |text|, 3
  {
    var s := SkipSpace(text);
    if s == [] || s[0] != QUOTE then None else
      match ParseString(s[1..])
      case None => None
      case Some((name, more)) =>
        var t := SkipSpace(more);
        if t == [] || t[0] != COLON then None else
          match ParseValue(t[1..])
          case None => None
          case Some((v, rest)) => Some((Member(name, v), rest))
  }

  function ParseMembers(text: Text): (r: Option<(seq<Member>, Text)>)
    ensures r.Some? ==> |r.value.1| < |text|
    decreases |text|, 4
  {
    match ParseMember(text)
    case None => None
    case Some((m, more)) =>
      var s := SkipSpace(more);
      if s == [] then None
      else if s[0] == OBJECT_CLOSE then Some(([m], s[1..]))
      else if s[0] != COMMA then None
      else match ParseMembers(s[1..])
        case None => None
        case Some((members, rest)) => Some(([m] + members, rest))
  }

  /** A whole JSON text. */
  function ParseText(text: Text): Option<Value> {
    match ParseValue(text)
    case None => None
    case Some((v, rest)) => if SkipSpace(rest) == [] then Some(v) else None
  }

  // Steps of the parser

  /** What may follow a value inside a text: nothing, a separator or a closing bracket. */
  predicate Stops(s: Text) {
    s == [] || s[0] == COMMA || s[0] == ARRAY_CLOSE || s[0] == OBJECT_CLOSE
  }

  /** Starts with something that is neither space nor a closing bracket. */
  predicate Opens(s: Text) {
    s != [] && !IsSpace(s[0]) && s[0] != ARRAY_CLOSE && s[0] != OBJECT_CLOSE
  }

  lemma {:induction false} NoSpace(s: Text)
    requires s == [] || !IsSpace(s[0])
    ensures SkipSpace(s) == s
  {
  }

  lemma ArrayStep(t: Text)
    requires Opens(t)
    ensures ParseValue([ARRAY_OPEN] + t)
      == match ParseItems(t) case None => None case Some((items, rest)) => Some((Array(items), rest))
  {
    hide ParseItems;
    var s := [ARRAY_OPEN] + t;
    assert s[1..] == t;
    NoSpace(s);
    NoSpace(t);
  }

  lemma ObjectStep(t: Text)
    requires Opens(t)
    ensures ParseValue([OBJECT_OPEN] + t)
      == match ParseMembers(t) case None => None case Some((members, rest)) => Some((Object(members), rest))
  {
    hide ParseMembers;
    var s := [OBJECT_OPEN] + t;
    assert s[1..] == t;
    NoSpace(s);
    NoSpace(t);
  }

  lemma LastItemStep(text: Text, v: Value, rest: Text)
    requires ParseValue(text) == Some((v, [ARRAY_CLOSE] + rest))
    ensures ParseItems(text) == Some(([v], rest))
  {
    hide ParseValue;
    NoSpace([ARRAY_CLOSE] + rest);
    assert ([ARRAY_CLOSE] + rest)[1..] == rest;
  }

  lemma NextItemStep(text: Text, v: Value, more: Text)
    requires ParseValue(text) == Some((v, [COMMA] + more))
    ensures ParseItems(text)
      == match ParseItems(more) case None => None case Some((items, rest)) => Some(([v] + items, rest))
  {
    hide ParseValue;
    NoSpace([COMMA] + more);
    assert ([COMMA] + more)[1..] == more;
  }

  lemma LastMemberStep(text: Text, m: Member, rest: Text)
    requires ParseMember(text) == Some((m, [OBJECT_CLOSE] + rest))
    ensures ParseMembers(text) == Some(([m], rest))
  {
    hide ParseMember;
    NoSpace([OBJECT_CLOSE] + rest);
    assert ([OBJECT_CLOSE] + rest)[1..] == rest;
  }

  lemma NextMemberStep(text: Text, m: Member, more: Text)
    requires ParseMember(text) == Some((m, [COMMA] + more))
    ensures ParseMembers(text)
      == match ParseMembers(more) case None => None case Some((members, rest)) => Some(([m] + members, rest))
  {
    hide ParseMember;
    NoSpace([COMMA] + more);
    assert ([COMMA] + more)[1..] == more;
  }

  lemma StringStep(text: Text, rest: Text)
    ensures ParseValue(Quoted(text) + rest) == Some((String(text), rest))
  {
    hide ParseString, Escaped;
    var s := Quoted(text) + rest;
    assert s[1..] == Escaped(text) + ([QUOTE] + rest);
    NoSpace(s);
    EscapedIsRead(text, rest);
  }

  lemma MemberStep(name: Text, t: Text, v: Value, rest: Text)
    requires ParseValue(t) == Some((v, rest))
    ensures ParseMember(Quoted(name) + ([COLON] + t)) == Some((Member(name, v), rest))
  {
    hide ParseString, Escaped, ParseValue;
    var s := Quoted(name) + ([COLON] + t);
    assert s[1..] == Escaped(name) + ([QUOTE] + ([COLON] + t));
    NoSpace(s);
    EscapedIsRead(name, [COLON] + t);
    NoSpace([COLON] + t);
    assert ([COLON] + t)[1..] == t;
  }

  // Numbers and literals

  lemma {:induction false} DigitRunOf(t: Text, rest: Text)
    requires forall i :: 0 <= i < |t| ==> IsDigitUnit(t[i])
    requires rest == [] || !IsDigitUnit(rest[0])
    ensures DigitRun(t + rest) == t
    decreases |t|
  {
    if t == [] {
      assert t + rest == rest;
    } else {
      assert (t + rest)[1..] == t[1..] + rest;
      DigitRunOf(t[1..], rest);
    }
  }

  lemma RunBefore(s: Text, rest: Text)
    requires rest == [] || !IsDigitUnit(rest[0])
    ensures var size := |DigitRun(s)|;
      DigitRun(s + rest) == DigitRun(s) && size <= |s| && (s + rest)[size..] == s[size..] + rest
  {
    hide DigitRun;
    var digits := DigitRun(s);
    var r := s[|digits|..];
    assert s + rest == digits + (r + rest);
    DigitRunOf(digits, r + rest);
    assert (s + rest)[|digits|..] == r + rest;
  }

  /** More text behind a run of digits, that does not go on with one, is not taken in. */
  lemma DigitsBefore(s: Text, rest: Text)
    requires rest == [] || !IsDigitUnit(rest[0])
    ensures AfterDigits(s + rest) == match AfterDigits(s) case None => None case Some(r) => Some(r + rest)
    ensures DigitRun(s + rest) == DigitRun(s)
  {
    hide DigitRun;
    RunBefore(s, rest);
  }

  lemma FractionBefore(s: Text, rest: Text)
    requires AfterFraction(s).Some? && Stops(rest)
    ensures AfterFraction(s + rest) == Some(AfterFraction(s).value + rest)
  {
    hide AfterDigits;
    if s != [] && s[0] == DOT {
      assert (s + rest)[1..] == s[1..] + rest;
      DigitsBefore(s[1..], rest);
    } else if s == [] {
      assert s + rest == rest;
    }
  }

  lemma SignBefore(s: Text, rest: Text)
    requires Stops(rest)
    ensures AfterSign(s + rest) == AfterSign(s) + rest
  {
    if s == [] {
      assert s + rest == rest;
    } else {
      assert (s + rest)[1..] == s[1..] + rest;
    }
  }

  lemma ExponentBefore(s: Text, rest: Text)
    requires AfterExponent(s).Some? && Stops(rest)
    ensures AfterExponent(s + rest) == Some(AfterExponent(s).value + rest)
  {
    hide AfterDigits;
    if s != [] && IsExponentMark(s[0]) {
      assert (s + rest)[1..] == s[1..] + rest;
      assert AfterSign(s[1..] + rest) == AfterSign(s[1..]) + rest by { SignBefore(s[1..], rest); }
      DigitsBefore(AfterSign(s[1..]), rest);
    } else if s == [] {
      assert s + rest == rest;
    }
  }

  lemma UnsignedBefore(s: Text, rest: Text)
    requires AfterUnsigned(s).Some? && Stops(rest)
    ensures AfterUnsigned(s + rest) == Some(AfterUnsigned(s).value + rest)
  {
    hide AfterDigits, DigitRun;
    var t := AfterWhole(s).value;
    DigitsBefore(s, rest);
    var u := AfterFraction(t).value;
    FractionBefore(t, rest);
    ExponentBefore(u, rest);
  }

  lemma NumberStartsWithDigit(s: Text)
    requires AfterUnsigned(s).Some?
    ensures s != [] && IsDigitUnit(s[0])
  {
  }

  lemma NumberIsSome(t: Text)
    requires IsNumber(t)
    ensures t != []
  {
    hide AfterUnsigned;
  }

  lemma NumberIsParsed(t: Text, rest: Text)
    requires IsNumber(t) && Stops(rest)
    ensures ParseNumber(t + rest) == Some((Number(t), rest)) && (t[0] == MINUS || IsDigitUnit(t[0]))
  {
    hide AfterUnsigned;
    assert t != [];
    var s := if t[0] == MINUS then t[1..] else t;
    NumberStartsWithDigit(s);
    UnsignedBefore(s, rest);
    assert (t + rest)[1..] == t[1..] + rest;
    assert [] + rest == rest;
    assert (t + rest)[..|t|] == t;
  }

  // A number that has been taken out of a text is a number

  lemma DigitsTaken(s: Text, size: nat)
    requires AfterDigits(s).Some? && |s| - |AfterDigits(s).value| <= size <= |s|
    ensures DigitRun(s[..size]) == DigitRun(s)
    ensures AfterDigits(s[..size]) == Some(AfterDigits(s).value[..size - (|s| - |AfterDigits(s).value|)])
  {
    hide DigitRun;
    var digits := DigitRun(s);
    var r := s[|digits|..size];
    assert s[..size] == digits + r;
    assert r != [] ==> r[0] == s[|digits|];
    DigitRunOf(digits, r);
    assert s[|digits|..][..size - |digits|] == r && (digits + r)[|digits|..] == r;
  }

  lemma FractionTaken(s: Text, size: nat)
    requires AfterFraction(s).Some? && |s| - |AfterFraction(s).value| <= size <= |s|
    ensures AfterFraction(s[..size]) == Some(AfterFraction(s).value[..size - (|s| - |AfterFraction(s).value|)])
  {
    hide AfterDigits;
    if s != [] && s[0] == DOT {
      assert s[..size][1..] == s[1..][..size - 1];
      DigitsTaken(s[1..], size - 1);
    }
  }

  lemma SignTaken(s: Text, size: nat)
    requires |s| - |AfterSign(s)| <= size <= |s|
    ensures size > |s| - |AfterSign(s)| ==> AfterSign(s[..size]) == AfterSign(s)[..size - (|s| - |AfterSign(s)|)]
  {
    if s != [] && (s[0] == PLUS || s[0] == MINUS) {
      assert size > 0 ==> s[..size][1..] == s[1..][..size - 1];
    }
  }

  lemma ExponentTaken(s: Text)
    requires AfterExponent(s).Some?
    ensures AfterExponent(s[..|s| - |AfterExponent(s).value|]) == Some([])
  {
    hide AfterDigits;
    var size := |s| - |AfterExponent(s).value|;
    if s != [] && IsExponentMark(s[0]) {
      var t := AfterSign(s[1..]);
      var signed := |s| - |t|;
      assert s[..size][1..] == s[1..][..size - 1];
      assert AfterSign(s[1..][..size - 1]) == t[..size - signed] by { SignTaken(s[1..], size - 1); }
      DigitsTaken(t, size - signed);
      assert AfterDigits(t).value[..0] == [];
    }
  }

  lemma UnsignedTaken(s: Text)
    requires AfterUnsigned(s).Some?
    ensures AfterUnsigned(s[..|s| - |AfterUnsigned(s).value|]) == Some([])
  {
    hide AfterDigits, AfterFraction, AfterExponent, DigitRun;
    var t := AfterWhole(s).value;
    var u := AfterFraction(t).value;
    var rest := AfterExponent(u).value;
    DigitsTaken(s, |s| - |rest|);
    FractionTaken(t, |t| - |rest|);
    ExponentTaken(u);
  }

  lemma NumberTaken(s: Text)
    requires AfterNumber(s).Some?
    ensures IsNumber(s[..|s| - |AfterNumber(s).value|])
  {
    hide AfterUnsigned;
    var size := |s| - |AfterNumber(s).value|;
    if s[0] == MINUS {
      assert s[..size][1..] == s[1..][..size - 1];
      UnsignedTaken(s[1..]);
    } else {
      UnsignedTaken(s);
    }
  }

  // Which texts are numbers

  lemma {:induction false} NumeralIsDigits(n: nat)
    ensures var t := Units(Numeral(n));
      && t != [] && (forall i :: 0 <= i < |t| ==> IsDigitUnit(t[i])) && (t[0] == 0x30 ==> |t| == 1)
  {
    var s := Numeral(n);
    var t := Units(s);
    assert forall i :: 0 <= i < |t| ==> IsDigit(s[i]) && t[i] == s[i] as int;
    NoLeadingZero(n);
  }

  lemma DigitsAreTaken(t: Text, rest: Text)
    requires t != [] && forall i :: 0 <= i < |t| ==> IsDigitUnit(t[i])
    requires rest == [] || !IsDigitUnit(rest[0])
    ensures AfterDigits(t + rest) == Some(rest) && DigitRun(t + rest) == t
  {
    hide DigitRun;
    DigitRunOf(t, rest);
    assert (t + rest)[|t|..] == rest;
  }

  lemma IntIsNumber(n: int)
    ensures IsNumber(IntText(n))
  {
    hide Numeral, Units, DigitRun, AfterDigits;
    var digits := Units(Numeral(if n < 0 then -n else n));
    NumeralIsDigits(if n < 0 then -n else n);
    DigitsAreTaken(digits, []);
    assert digits + [] == digits && ([MINUS] + digits)[1..] == digits;
  }

  function ExponentText(exponent: Option<int>): Text {
    match exponent
    case None => []
    case Some(e) => [0x45] + IntText(e)
  }

  /** A decimal fraction, with or without an exponent, as the standard library prints finite floating-point
      numbers. */
  function FractionText(negative: bool, whole: nat, fraction: Text, exponent: Option<int>): Text {
    (if negative then [MINUS] else []) + (Units(Numeral(whole)) + ([DOT] + (fraction + ExponentText(exponent))))
  }

  lemma ExponentIsTaken(exponent: Option<int>)
    ensures AfterExponent(ExponentText(exponent)) == Some([])
    ensures ExponentText(exponent) == [] || !IsDigitUnit(ExponentText(exponent)[0])
  {
    hide Numeral, Units, DigitRun, AfterDigits;
    if exponent.Some? {
      var e := exponent.value;
      var digits := Units(Numeral(if e < 0 then -e else e));
      NumeralIsDigits(if e < 0 then -e else e);
      DigitsAreTaken(digits, []);
      assert digits + [] == digits && ([MINUS] + digits)[1..] == digits && ([0x45] + IntText(e))[1..] == IntText(e);
    }
  }

  lemma FractionIsNumber(negative: bool, whole: nat, fraction: Text, exponent: Option<int>)
    requires fraction != [] && forall i :: 0 <= i < |fraction| ==> IsDigitUnit(fraction[i])
    ensures IsNumber(FractionText(negative, whole, fraction, exponent))
  {
    hide Numeral, Units, DigitRun, AfterDigits, AfterExponent, ExponentText;
    var digits, tail := Units(Numeral(whole)), fraction + ExponentText(exponent);
    NumeralIsDigits(whole);
    ExponentIsTaken(exponent);
    DigitsAreTaken(digits, [DOT] + tail);
    DigitsAreTaken(fraction, ExponentText(exponent));
    assert ([DOT] + tail)[1..] == tail;
    assert ([MINUS] + (digits + ([DOT] + tail)))[1..] == digits + ([DOT] + tail);
    assert [] + (digits + ([DOT] + tail)) == digits + ([DOT] + tail);
  }

  lemma NumberStep(t: Text, rest: Text)
    requires IsNumber(t) && Stops(rest)
    ensures ParseValue(t + rest) == Some((Number(t), rest))
  {
    hide ParseNumber, ParseItems, ParseMembers, ParseString, ParseLiteral, IsNumber, Stops;
    NumberIsParsed(t, rest);
    NumberIsSome(t);
    assert (t + rest)[0] == t[0];
    NoSpace(t + rest);
  }

  /** The units of the three literals, written out. */
  lemma LiteralUnits()
    ensures Units("null") == [0x6E, 0x75, 0x6C, 0x6C]
    ensures Units("true") == [0x74, 0x72, 0x75, 0x65]
    ensures Units("false") == [0x66, 0x61, 0x6C, 0x73, 0x65]
  {
    var n, t, f := Units("null"), Units("true"), Units("false");
    assert n[0] == 0x6E && n[1] == 0x75 && n[2] == 0x6C && n[3] == 0x6C;
    assert t[0] == 0x74 && t[1] == 0x72 && t[2] == 0x75 && t[3] == 0x65;
    assert f[0] == 0x66 && f[1] == 0x61 && f[2] == 0x6C && f[3] == 0x73 && f[4] == 0x65;
  }

  lemma WordComesFirst(word: Text, other: Text, rest: Text)
    requires word != [] && other != [] && word[0] != other[0]
    ensures word <= word + rest && !(other <= word + rest) && (word + rest)[|word|..] == rest
  {
    assert (word + rest)[0] == word[0];
  }

  lemma LiteralIsParsed(v: Value, rest: Text)
    requires v.Null? || v.True? || v.False?
    ensures ParseLiteral(TextOf(v) + rest) == Some((v, rest))
  {
    hide Units;
    LiteralUnits();
    WordComesFirst(TextOf(v), if v.Null? then Units("true") else Units("null"), rest);
    if v.False? { WordComesFirst(TextOf(v), Units("true"), rest); }
  }

  lemma LiteralStep(v: Value, rest: Text)
    requires v.Null? || v.True? || v.False?
    ensures ParseValue(TextOf(v) + rest) == Some((v, rest))
  {
    hide Units, ParseLiteral, ParseItems, ParseMembers, ParseString, ParseNumber;
    LiteralUnits();
    var s := TextOf(v) + rest;
    assert s[0] == TextOf(v)[0];
    LiteralIsParsed(v, rest);
    NoSpace(s);
  }

  // Reading back what was written

  /** How many containers inside a value, itself included, are empty. */
  function Empties(v: Value): nat
    decreases v
  {
    match v
    case Array(items) => if items == [] then 1 else ItemsEmpties(items)
    case Object(members) => if members == [] then 1 else MembersEmpties(members)
    case _ => 0
  }

  function ItemsEmpties(items: seq<Value>): nat
    decreases items
  {
    if items == [] then 0 else Empties(items[0]) + ItemsEmpties(items[1..])
  }

  function MembersEmpties(members: seq<Member>): nat
    decreases members
  {
    if members == [] then 0 else Empties(members[0].value) + MembersEmpties(members[1..])
  }

  /** Every number inside a value, itself included, has the text of a number. */
  predicate NumbersOk(v: Value)
    decreases v
  {
    match v
    case Number(numeral) => IsNumber(numeral)
    case Array(items) => ItemsNumbersOk(items)
    case Object(members) => MembersNumbersOk(members)
    case _ => true
  }

  predicate ItemsNumbersOk(items: seq<Value>)
    decreases items
  {
    items == [] || (NumbersOk(items[0]) && ItemsNumbersOk(items[1..]))
  }

  predicate MembersNumbersOk(members: seq<Member>)
    decreases members
  {
    members == [] || (NumbersOk(members[0].value) && MembersNumbersOk(members[1..]))
  }

  /** The elements separated by commas and closed. */
  function ItemsAndClose(items: seq<Value>, rest: Text): Text
    requires items != []
    decreases |items|
  {
    TextOf(items[0]) + if |items| == 1 then [ARRAY_CLOSE] + rest else [COMMA] + ItemsAndClose(items[1..], rest)
  }

  function MembersAndClose(members: seq<Member>, rest: Text): Text
    requires members != []
    decreases |members|
  {
    MemberText(members[0]) + if |members| == 1
      then [OBJECT_CLOSE] + rest else [COMMA] + MembersAndClose(members[1..], rest)
  }

  lemma {:induction false} ItemsWithoutLastComma(items: seq<Value>, rest: Text)
    requires items != []
    ensures ItemsText(items) != [] && DropLast(ItemsText(items)) + ([ARRAY_CLOSE] + rest) == ItemsAndClose(items, rest)
    decreases |items|
  {
    hide TextOf;
    var first, more := TextOf(items[0]), ItemsText(items[1..]);
    if |items| == 1 {
      assert ItemsText(items) == first + [COMMA];
    } else {
      ItemsWithoutLastComma(items[1..], rest);
      assert DropLast(ItemsText(items)) == first + [COMMA] + DropLast(more);
    }
  }

  lemma {:induction false} MembersWithoutLastComma(members: seq<Member>, rest: Text)
    requires members != []
    ensures MembersText(members) != []
    ensures DropLast(MembersText(members)) + ([OBJECT_CLOSE] + rest) == MembersAndClose(members, rest)
    decreases |members|
  {
    hide MemberText;
    var first, more := MemberText(members[0]), MembersText(members[1..]);
    if |members| == 1 {
      assert MembersText(members) == first + [COMMA];
    } else {
      MembersWithoutLastComma(members[1..], rest);
      assert DropLast(MembersText(members)) == first + [COMMA] + DropLast(more);
    }
  }

  /** The character taken away before the closing bracket is the last separator, when there is one. */
  lemma ArrayTextIs(items: seq<Value>, rest: Text)
    ensures TextOf(Array(items)) + rest == if items == []
      then [ARRAY_CLOSE] + rest else [ARRAY_OPEN] + ItemsAndClose(items, rest)
  {
    hide TextOf, ItemsText, ItemsAndClose;
    ArrayText(items);
    if items != [] {
      ItemsWithoutLastComma(items, rest);
      assert DropLast([ARRAY_OPEN] + ItemsText(items)) == [ARRAY_OPEN] + DropLast(ItemsText(items));
    }
  }

  lemma ObjectTextIs(members: seq<Member>, rest: Text)
    ensures TextOf(Object(members)) + rest == if members == []
      then [OBJECT_CLOSE] + rest else [OBJECT_OPEN] + MembersAndClose(members, rest)
  {
    hide TextOf, MembersText, MembersAndClose;
    ObjectText(members);
    if members != [] {
      MembersWithoutLastComma(members, rest);
      assert DropLast([OBJECT_OPEN] + MembersText(members)) == [OBJECT_OPEN] + DropLast(MembersText(members));
    }
  }

  lemma TextOpens(v: Value, rest: Text)
    requires Empties(v) == 0 && NumbersOk(v)
    ensures Opens(TextOf(v) + rest)
  {
    match v {
      case Array(items) => ArrayTextIs(items, rest);
      case Object(members) => ObjectTextIs(members, rest);
      case Number(numeral) => NumberStartsWithDigit(if numeral[0] == MINUS then numeral[1..] else numeral);
      case _ =>
    }
  }

  lemma RegroupMember(name: Text, value: Text, rest: Text)
    ensures name + [COLON] + value + rest == name + ([COLON] + (value + rest))
  {
  }

  lemma {:induction false} ValueIsRead(v: Value, rest: Text)
    requires Empties(v) == 0 && NumbersOk(v) && Stops(rest)
    ensures ParseValue(TextOf(v) + rest) == Some((v, rest))
    decreases v, 0
  {
    match v {
      case Number(numeral) => NumberStep(numeral, rest);
      case String(text) => StringStep(text, rest);
      case Array(items) => ArrayIsRead(v, items, rest);
      case Object(members) => ObjectIsRead(v, members, rest);
      case _ => LiteralStep(v, rest);
    }
  }

  lemma {:induction false} ArrayIsRead(v: Value, items: seq<Value>, rest: Text)
    requires v == Array(items) && items != [] && ItemsEmpties(items) == 0 && ItemsNumbersOk(items)
    ensures ParseValue(TextOf(v) + rest) == Some((v, rest))
    decreases items, 1
  {
    hide ParseValue, ParseItems, TextOf;
    ArrayTextIs(items, rest);
    TextOpens(items[0], if |items| == 1 then [ARRAY_CLOSE] + rest else [COMMA] + ItemsAndClose(items[1..], rest));
    ArrayStep(ItemsAndClose(items, rest));
    ItemsAreRead(items, rest);
  }

  lemma {:induction false} ItemsAreRead(items: seq<Value>, rest: Text)
    requires items != [] && ItemsEmpties(items) == 0 && ItemsNumbersOk(items)
    ensures ParseItems(ItemsAndClose(items, rest)) == Some((items, rest))
    decreases items, 0
  {
    hide ParseValue, ParseItems, TextOf;
    var text := ItemsAndClose(items, rest);
    if |items| == 1 {
      ValueIsRead(items[0], [ARRAY_CLOSE] + rest);
      LastItemStep(text, items[0], rest);
      assert [items[0]] == items;
    } else {
      var more := ItemsAndClose(items[1..], rest);
      ValueIsRead(items[0], [COMMA] + more);
      NextItemStep(text, items[0], more);
      ItemsAreRead(items[1..], rest);
      assert [items[0]] + items[1..] == items;
    }
  }

  lemma {:induction false} ObjectIsRead(v: Value, members: seq<Member>, rest: Text)
    requires v == Object(members) && members != [] && MembersEmpties(members) == 0 && MembersNumbersOk(members)
    ensures ParseValue(TextOf(v) + rest) == Some((v, rest))
    decreases members, 1
  {
    hide ParseValue, ParseMembers, TextOf;
    ObjectTextIs(members, rest);
    assert MembersAndClose(members, rest)[0] == QUOTE;
    ObjectStep(MembersAndClose(members, rest));
    MembersAreRead(members, rest);
  }

  lemma {:induction false} MembersAreRead(members: seq<Member>, rest: Text)
    requires members != [] && MembersEmpties(members) == 0 && MembersNumbersOk(members)
    ensures ParseMembers(MembersAndClose(members, rest)) == Some((members, rest))
    decreases members, 0
  {
    hide ParseMember, ParseMembers, MemberText;
    var text := MembersAndClose(members, rest);
    if |members| == 1 {
      MemberIsRead(members[0], [OBJECT_CLOSE] + rest);
      LastMemberStep(text, members[0], rest);
      assert [members[0]] == members;
    } else {
      var more := MembersAndClose(members[1..], rest);
      MemberIsRead(members[0], [COMMA] + more);
      NextMemberStep(text, members[0], more);
      MembersAreRead(members[1..], rest);
      assert [members[0]] + members[1..] == members;
    }
  }

  lemma {:induction false} MemberIsRead(m: Member, rest: Text)
    requires Empties(m.value) == 0 && NumbersOk(m.value) && Stops(rest)
    ensures ParseMember(MemberText(m) + rest) == Some((m, rest))
    decreases m, 0
  {
    hide ParseValue, ParseMember, TextOf, Quoted;
    ValueIsRead(m.value, rest);
    MemberStep(m.name, TextOf(m.value) + rest, m.value, rest);
    RegroupMember(Quoted(m.name), TextOf(m.value), rest);
  }

  // Brackets

  predicate IsOpening(c: Unit) {
    c == ARRAY_OPEN || c == OBJECT_OPEN
  }

  predicate IsClosing(c: Unit) {
    c == ARRAY_CLOSE || c == OBJECT_CLOSE
  }

  /** Opening less closing brackets outside of strings. */
  function Balance(s: Text): int
    decreases |s|
  {
    if s == [] then 0
    else if s[0] == QUOTE then
      match ParseString(s[1..])
      case None => 0
      case Some((_, rest)) => Balance(rest)
    else (if IsOpening(s[0]) then 1 else if IsClosing(s[0]) then -1 else 0) + Balance(s[1..])
  }

  lemma BalanceOne(c: Unit, rest: Text)
    requires c != QUOTE
    ensures Balance([c] + rest) == (if IsOpening(c) then 1 else if IsClosing(c) then -1 else 0) + Balance(rest)
  {
    assert ([c] + rest)[1..] == rest;
  }

  predicate IsPlain(t: Text) {
    forall i :: 0 <= i < |t| ==> t[i] != QUOTE && !IsOpening(t[i]) && !IsClosing(t[i])
  }

  lemma {:induction false} BalancePlain(t: Text, rest: Text)
    requires IsPlain(t)
    ensures Balance(t + rest) == Balance(rest)
  {
    if t == [] {
      assert t + rest == rest;
    } else {
      BalanceOne(t[0], t[1..] + rest);
      assert t + rest == [t[0]] + (t[1..] + rest);
      BalancePlain(t[1..], rest);
    }
  }

  lemma BalancePrefix(s: Text, n: nat)
    requires n <= |s| && IsPlain(s[..n])
    ensures Balance(s) == Balance(s[n..])
  {
    BalancePlain(s[..n], s[n..]);
    assert s[..n] + s[n..] == s;
  }

  lemma {:induction false} BalanceSpace(s: Text)
    ensures Balance(s) == Balance(SkipSpace(s))
  {
    if s != [] && IsSpace(s[0]) {
      BalanceSpace(s[1..]);
    }
  }

  lemma {:induction false} BalanceOfString(s: Text)
    requires s != [] && s[0] == QUOTE && ParseString(s[1..]).Some?
    ensures Balance(s) == Balance(ParseString(s[1..]).value.1)
  {
  }

  lemma {:induction false} BalanceAfter(s: Text)
    requires s != [] && s[0] != QUOTE
    ensures Balance(s) == (if IsOpening(s[0]) then 1 else if IsClosing(s[0]) then -1 else 0) + Balance(s[1..])
  {
  }

  /** The rest of a text, from which something plain has been taken away in front. */
  predicate PlainBefore(s: Text, rest: Text) {
    |rest| <= |s| && rest == s[|s| - |rest|..] && IsPlain(s[..|s| - |rest|])
  }

  lemma DigitsArePlain(s: Text)
    requires AfterDigits(s).Some?
    ensures PlainBefore(s, AfterDigits(s).value)
  {
    assert s[..|DigitRun(s)|] == DigitRun(s);
  }

  lemma PlainAfterPlain(s: Text, t: Text, u: Text)
    requires PlainBefore(s, t) && PlainBefore(t, u)
    ensures PlainBefore(s, u)
  {
    assert s[..|s| - |u|] == s[..|s| - |t|] + t[..|t| - |u|];
  }

  lemma OneIsPlain(s: Text)
    requires s != [] && s[0] != QUOTE && !IsOpening(s[0]) && !IsClosing(s[0])
    ensures PlainBefore(s, s[1..])
  {
  }

  lemma NothingIsPlain(s: Text)
    ensures PlainBefore(s, s)
  {
  }

  lemma FractionIsPlain(s: Text)
    requires AfterFraction(s).Some?
    ensures PlainBefore(s, AfterFraction(s).value)
  {
    hide PlainBefore, AfterDigits;
    NothingIsPlain(s);
    if s != [] && s[0] == DOT {
      OneIsPlain(s);
      DigitsArePlain(s[1..]);
      PlainAfterPlain(s, s[1..], AfterFraction(s).value);
    }
  }

  lemma SignIsPlain(s: Text)
    ensures PlainBefore(s, AfterSign(s))
  {
    hide PlainBefore;
    NothingIsPlain(s);
    if AfterSign(s) != s { OneIsPlain(s); }
  }

  lemma ExponentIsPlain(s: Text)
    requires AfterExponent(s).Some?
    ensures PlainBefore(s, AfterExponent(s).value)
  {
    hide PlainBefore, AfterDigits, AfterSign;
    NothingIsPlain(s);
    if s != [] && IsExponentMark(s[0]) {
      OneIsPlain(s);
      SignIsPlain(s[1..]);
      DigitsArePlain(AfterSign(s[1..]));
      PlainAfterPlain(s, s[1..], AfterSign(s[1..]));
      PlainAfterPlain(s, AfterSign(s[1..]), AfterExponent(s).value);
    }
  }

  lemma UnsignedIsPlain(s: Text)
    requires AfterUnsigned(s).Some?
    ensures PlainBefore(s, AfterUnsigned(s).value)
  {
    hide PlainBefore, AfterDigits, AfterFraction, AfterExponent, DigitRun;
    var t := AfterWhole(s).value;
    var u := AfterFraction(t).value;
    DigitsArePlain(s);
    FractionIsPlain(t);
    ExponentIsPlain(u);
    PlainAfterPlain(s, t, u);
    PlainAfterPlain(s, u, AfterExponent(u).value);
  }

  lemma NumberIsPlain(s: Text)
    requires AfterNumber(s).Some?
    ensures PlainBefore(s, AfterNumber(s).value)
  {
    hide PlainBefore, AfterUnsigned;
    NothingIsPlain(s);
    if s != [] && s[0] == MINUS {
      OneIsPlain(s);
      UnsignedIsPlain(s[1..]);
      PlainAfterPlain(s, s[1..], AfterNumber(s).value);
    } else {
      UnsignedIsPlain(s);
    }
  }

  lemma NumberTextIsPlain(t: Text)
    requires IsNumber(t)
    ensures IsPlain(t)
  {
    hide AfterNumber;
    NumberIsPlain(t);
    assert t[..|t|] == t;
  }

  lemma PlainNumber(s: Text)
    requires ParseNumber(s).Some?
    ensures Balance(s) == Balance(ParseNumber(s).value.1)
  {
    hide Balance, AfterNumber, IsPlain;
    NumberIsPlain(s);
    BalancePrefix(s, |s| - |AfterNumber(s).value|);
  }

  lemma PlainWords()
    ensures IsPlain(Units("null")) && IsPlain(Units("true")) && IsPlain(Units("false"))
  {
    hide Units;
    LiteralUnits();
  }

  lemma BalanceWord(s: Text, word: Text)
    requires word <= s && IsPlain(word)
    ensures Balance(s) == Balance(s[|word|..])
  {
    assert s[..|word|] == word;
    BalancePrefix(s, |word|);
  }

  lemma PlainLiteral(s: Text)
    requires ParseLiteral(s).Some?
    ensures Balance(s) == Balance(ParseLiteral(s).value.1)
  {
    hide Balance, IsPlain;
    PlainWords();
    if Units("null") <= s {
      BalanceWord(s, Units("null"));
    } else if Units("true") <= s {
      BalanceWord(s, Units("true"));
    } else {
      BalanceWord(s, Units("false"));
    }
  }

  /** Whatever the parser accepts is balanced. */
  lemma {:induction false} ParsedIsBalanced(text: Text)
    requires ParseValue(text).Some?
    ensures Balance(text) == Balance(ParseValue(text).value.1)
    decreases |text|, 2
  {
    hide Balance, ParseString, ParseItems, ParseMembers, ParseNumber, ParseLiteral;
    var s := SkipSpace(text);
    BalanceSpace(text);
    if s[0] == QUOTE {
      BalanceOfString(s);
    } else if s[0] == ARRAY_OPEN {
      var t := SkipSpace(s[1..]);
      BalanceAfter(s);
      BalanceSpace(s[1..]);
      if t != [] && t[0] == ARRAY_CLOSE { BalanceAfter(t); } else { ItemsAreBalanced(t); }
    } else if s[0] == OBJECT_OPEN {
      var t := SkipSpace(s[1..]);
      BalanceAfter(s);
      BalanceSpace(s[1..]);
      if t != [] && t[0] == OBJECT_CLOSE { BalanceAfter(t); } else { MembersAreBalanced(t); }
    } else if s[0] == MINUS || IsDigitUnit(s[0]) {
      PlainNumber(s);
    } else {
      PlainLiteral(s);
    }
  }

  lemma {:induction false} ItemsAreBalanced(text: Text)
    requires ParseItems(text).Some?
    ensures Balance(text) == Balance(ParseItems(text).value.1) - 1
    decreases |text|, 3
  {
    hide Balance, ParseValue;
    var (_, more) := ParseValue(text).value;
    var s := SkipSpace(more);
    ParsedIsBalanced(text);
    BalanceSpace(more);
    BalanceAfter(s);
    if s[0] == COMMA { ItemsAreBalanced(s[1..]); }
  }

  lemma {:induction false} MembersAreBalanced(text: Text)
    requires ParseMembers(text).Some?
    ensures Balance(text) == Balance(ParseMembers(text).value.1) - 1
    decreases |text|, 4
  {
    hide Balance, ParseMember;
    var (_, more) := ParseMember(text).value;
    var s := SkipSpace(more);
    MemberIsBalanced(text);
    BalanceSpace(more);
    BalanceAfter(s);
    if s[0] == COMMA { MembersAreBalanced(s[1..]); }
  }

  lemma {:induction false} MemberIsBalanced(text: Text)
    requires ParseMember(text).Some?
    ensures Balance(text) == Balance(ParseMember(text).value.1)
    decreases |text|, 3
  {
    hide Balance, ParseString, ParseValue;
    var s := SkipSpace(text);
    var (_, more) := ParseString(s[1..]).value;
    var t := SkipSpace(more);
    BalanceSpace(text);
    BalanceOfString(s);
    BalanceSpace(more);
    BalanceAfter(t);
    ParsedIsBalanced(t[1..]);
  }

  lemma {:induction false} QuotedBalance(text: Text, rest: Text)
    ensures Balance(Quoted(text) + rest) == Balance(rest)
  {
    hide Balance, Escaped, ParseString;
    var s := Quoted(text) + rest;
    assert s[1..] == Escaped(text) + ([QUOTE] + rest);
    EscapedIsRead(text, rest);
    BalanceOfString(s);
  }

  /** What is written has one closing bracket too many for every empty container. */
  lemma {:induction false} TextBalance(v: Value, rest: Text)
    requires NumbersOk(v)
    ensures Balance(TextOf(v) + rest) == Balance(rest) - Empties(v)
    decreases v, 0
  {
    hide Balance, ItemsAndClose, MembersAndClose, Units, Quoted, IsNumber, IsPlain;
    match v {
      case Number(numeral) =>
        NumberTextIsPlain(numeral);
        BalancePlain(numeral, rest);
      case String(text) => QuotedBalance(text, rest);
      case Array(items) =>
        ArrayTextIs(items, rest);
        if items == [] {
          BalanceOne(ARRAY_CLOSE, rest);
        } else {
          BalanceOne(ARRAY_OPEN, ItemsAndClose(items, rest));
          ItemsBalance(items, rest);
        }
      case Object(members) =>
        ObjectTextIs(members, rest);
        if members == [] {
          BalanceOne(OBJECT_CLOSE, rest);
        } else {
          BalanceOne(OBJECT_OPEN, MembersAndClose(members, rest));
          MembersBalance(members, rest);
        }
      case _ =>
        PlainWords();
        BalancePlain(TextOf(v), rest);
    }
  }

  lemma {:induction false} ItemsBalance(items: seq<Value>, rest: Text)
    requires items != [] && ItemsNumbersOk(items)
    ensures Balance(ItemsAndClose(items, rest)) == Balance(rest) - 1 - ItemsEmpties(items)
    decreases items, 1
  {
    hide Balance, TextOf;
    if |items| == 1 {
      TextBalance(items[0], [ARRAY_CLOSE] + rest);
      BalanceOne(ARRAY_CLOSE, rest);
    } else {
      var more := ItemsAndClose(items[1..], rest);
      TextBalance(items[0], [COMMA] + more);
      BalanceOne(COMMA, more);
      ItemsBalance(items[1..], rest);
    }
  }

  lemma {:induction false} MembersBalance(members: seq<Member>, rest: Text)
    requires members != [] && MembersNumbersOk(members)
    ensures Balance(MembersAndClose(members, rest)) == Balance(rest) - 1 - MembersEmpties(members)
    decreases members, 1
  {
    hide Balance, MemberText;
    if |members| == 1 {
      MemberBalance(members[0], [OBJECT_CLOSE] + rest);
      BalanceOne(OBJECT_CLOSE, rest);
    } else {
      var more := MembersAndClose(members[1..], rest);
      MemberBalance(members[0], [COMMA] + more);
      BalanceOne(COMMA, more);
      MembersBalance(members[1..], rest);
    }
  }

  lemma {:induction false} MemberBalance(m: Member, rest: Text)
    requires NumbersOk(m.value)
    ensures Balance(MemberText(m) + rest) == Balance(rest) - Empties(m.value)
    decreases m, 0
  {
    hide Balance, TextOf, Quoted;
    var tail := TextOf(m.value) + rest;
    assert MemberText(m) + rest == Quoted(m.name) + ([COLON] + tail);
    QuotedBalance(m.name, [COLON] + tail);
    BalanceOne(COLON, tail);
    TextBalance(m.value, rest);
  }

  // Numbers that were read

  lemma NumbersOkIs(v: Value)
    ensures NumbersOk(v) == match v
      case Number(numeral) => IsNumber(numeral)
      case Array(items) => ItemsNumbersOk(items)
      case Object(members) => MembersNumbersOk(members)
      case _ => true
  {
    hide IsNumber, ItemsNumbersOk, MembersNumbersOk;
  }

  lemma NoNumbers()
    ensures ItemsNumbersOk([]) && MembersNumbersOk([])
  {
  }

  lemma ParsedNumberOk(s: Text)
    requires ParseNumber(s).Some?
    ensures NumbersOk(ParseNumber(s).value.0)
  {
    hide AfterNumber, IsNumber, NumbersOk;
    NumberTaken(s);
    NumbersOkIs(ParseNumber(s).value.0);
  }

  lemma LiteralHasNoNumber(s: Text)
    requires ParseLiteral(s).Some?
    ensures NumbersOk(ParseLiteral(s).value.0)
  {
  }

  lemma {:induction false} ParsedNumbersOk(text: Text)
    requires ParseValue(text).Some?
    ensures NumbersOk(ParseValue(text).value.0)
    decreases |text|, 2
  {
    hide ParseString, ParseItems, ParseMembers, ParseNumber, ParseLiteral, NumbersOk, ItemsNumbersOk, MembersNumbersOk;
    var s := SkipSpace(text);
    NumbersOkIs(ParseValue(text).value.0);
    if s[0] == QUOTE {
    } else if s[0] == ARRAY_OPEN {
      var t := SkipSpace(s[1..]);
      if t != [] && t[0] == ARRAY_CLOSE { NoNumbers(); } else { ParsedItemsOk(t); }
    } else if s[0] == OBJECT_OPEN {
      var t := SkipSpace(s[1..]);
      if t != [] && t[0] == OBJECT_CLOSE { NoNumbers(); } else { ParsedMembersOk(t); }
    } else if s[0] == MINUS || IsDigitUnit(s[0]) {
      ParsedNumberOk(s);
    } else {
      LiteralHasNoNumber(s);
    }
  }

  lemma {:induction false} ParsedItemsOk(text: Text)
    requires ParseItems(text).Some?
    ensures ItemsNumbersOk(ParseItems(text).value.0)
    decreases |text|, 3
  {
    hide ParseValue, NumbersOk;
    var (v, more) := ParseValue(text).value;
    var s := SkipSpace(more);
    ParsedNumbersOk(text);
    if s[0] == COMMA {
      ParsedItemsOk(s[1..]);
      var items := ParseItems(s[1..]).value.0;
      assert ([v] + items)[1..] == items;
    } else {
      assert [v][1..] == [];
    }
  }

  lemma {:induction false} ParsedMembersOk(text: Text)
    requires ParseMembers(text).Some?
    ensures MembersNumbersOk(ParseMembers(text).value.0)
    decreases |text|, 4
  {
    hide ParseMember, NumbersOk;
    var (m, more) := ParseMember(text).value;
    var s := SkipSpace(more);
    ParsedMemberOk(text);
    if s[0] == COMMA {
      ParsedMembersOk(s[1..]);
      var members := ParseMembers(s[1..]).value.0;
      assert ([m] + members)[1..] == members;
    } else {
      assert [m][1..] == [];
    }
  }

  lemma {:induction false} ParsedMemberOk(text: Text)
    requires ParseMember(text).Some?
    ensures NumbersOk(ParseMember(text).value.0.value)
    decreases |text|, 3
  {
    hide ParseString, ParseValue;
    var s := SkipSpace(text);
    var (_, more) := ParseString(s[1..]).value;
    ParsedNumbersOk(SkipSpace(more)[1..]);
  }

  /** A value whose numbers have the texts of numbers: the text written for it is JSON exactly when no
      container in it is empty. */
  lemma WrittenIsJsonWithoutEmptyContainers(v: Value)
    requires NumbersOk(v)
    ensures ParseText(TextOf(v)).Some? <==> Empties(v) == 0
  {
    hide TextOf, Empties, ParseValue, Balance, NumbersOk;
    var text := TextOf(v);
    assert text + [] == text;
    if Empties(v) == 0 {
      ValueIsRead(v, []);
    }
    if ParseText(text).Some? {
      var (_, rest) := ParseValue(text).value;
      ParsedIsBalanced(text);
      BalanceSpace(rest);
      TextBalance(v, []);
    }
  }

  /** For every value: its text reads back as the same value, with the members of every object in their
      order, exactly when no container in it is empty and its numbers have the texts of numbers. */
  lemma WrittenReadsBack(v: Value)
    ensures ParseText(TextOf(v)) == Some(v) <==> Empties(v) == 0 && NumbersOk(v)
  {
    hide TextOf, Empties, ParseValue, NumbersOk;
    var text := TextOf(v);
    assert text + [] == text;
    if ParseText(text) == Some(v) {
      ParsedNumbersOk(text);
      WrittenIsJsonWithoutEmptyContainers(v);
    }
    if Empties(v) == 0 && NumbersOk(v) {
      ValueIsRead(v, []);
    }
  }

  // An instance, unit by unit

  lemma MinusSeven()
    ensures TextOf(ValueOf(-7)) == [0x2D, 0x37]
  {
    assert Numeral(7) == "7";
    assert Units("7") == [0x37];
  }

  lemma TrueText()
    ensures TextOf(True) == Units("true") && TextOf(Null) == Units("null")
  {
  }

  lemma ItemsStep(items: seq<Value>)
    requires items != []
    ensures ItemsText(items) == TextOf(items[0]) + [COMMA] + ItemsText(items[1..])
  {
  }

  /** [true,-7] */
  lemma ArrayIsWritten()
    ensures TextOf(Array([True, ValueOf(-7)])) == [0x5B, 0x74, 0x72, 0x75, 0x65, 0x2C, 0x2D, 0x37, 0x5D]
  {
    hide TextOf, ItemsText, Units, ValueOf;
    var items := [True, ValueOf(-7)];
    MinusSeven();
    LiteralUnits();
    ArrayText(items);
    ItemsStep(items);
    ItemsStep(items[1..]);
    TrueText();
    assert items[1..] == [ValueOf(-7)] && [ValueOf(-7)][1..] == [];
  }

  lemma MembersStep(members: seq<Member>)
    requires members != []
    ensures MembersText(members) == MemberText(members[0]) + [COMMA] + MembersText(members[1..])
  {
  }

  lemma EscapedSample()
    ensures Escaped([0x22, 0x0A]) == [0x5C, 0x22, 0x5C, 0x6E] && Escaped([0x61]) == [0x61] && Escaped([0x62]) == [0x62]
  {
    assert [0x22, 0x0A][1..] == [0x0A] && [0x0A][1..] == [] && [0x61][1..] == [] && [0x62][1..] == [];
  }

  lemma StringText(text: Text)
    ensures TextOf(String(text)) == Quoted(text)
  {
  }

  lemma StringMember()
    ensures MemberText(Member([0x61], String([0x22, 0x0A])))
      == [0x22, 0x61, 0x22, 0x3A, 0x22, 0x5C, 0x22, 0x5C, 0x6E, 0x22]
  {
    hide TextOf, Escaped;
    EscapedSample();
    StringText([0x22, 0x0A]);
  }

  lemma NullMember()
    ensures MemberText(Member([0x62], Null)) == [0x22, 0x62, 0x22, 0x3A, 0x6E, 0x75, 0x6C, 0x6C]
  {
    hide TextOf, Escaped, Units;
    EscapedSample();
    LiteralUnits();
    TrueText();
  }

  /** {"a":"\"\n","b":null} for a string of a quotation mark and a line feed. */
  lemma ObjectIsWritten()
    ensures TextOf(Object([Member([0x61], String([0x22, 0x0A])), Member([0x62], Null)])) ==
      [0x7B, 0x22, 0x61, 0x22, 0x3A, 0x22, 0x5C, 0x22, 0x5C, 0x6E, 0x22, 0x2C,
       0x22, 0x62, 0x22, 0x3A, 0x6E, 0x75, 0x6C, 0x6C, 0x7D]
  {
    hide TextOf, MembersText, MemberText;
    var a, b := Member([0x61], String([0x22, 0x0A])), Member([0x62], Null);
    StringMember();
    NullMember();
    ObjectText([a, b]);
    MembersStep([a, b]);
    MembersStep([b]);
    assert [a, b][1..] == [b] && [b][1..] == [];
  }
}
