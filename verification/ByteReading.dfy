/** Reading big-endian numbers and modified UTF-8 text (section 4.4.7 of the JVM Specification SE 8) at a
    position of a byte array. */
module ByteReading {
  import opened Wrappers
  import opened Arithmetic
  import opened Bits

  type Byte = x: int | 0 <= x < 256

  /** A char of Java: one unit of UTF-16. */
  type Unit = x: int | 0 <= x < 65536

  /** OutOfBounds stands for an access outside the array or the vector, which the code does not check;
      NegativeLength for allocating an array of negative size; Endless for a loop that never ends. The
      others are the exceptions that are thrown. */
  datatype Error =
    | OutOfBounds | NegativeLength | Endless
    | PartialCharacter | MalformedAround(at: nat)
    | BadMagic | BadTag | InvalidIndex(index: int) | NullConstant(index: int) | WrongTag(expected: int)
    | FinalAndAbstract

  function Signed16(n: int): int {
    if n < 0x8000 then n else n - 0x1_0000
  }

  function Signed32(n: int): int {
    if n < 0x8000_0000 then n else n - 0x1_0000_0000
  }

  function BigEndian(high: int, low: int): int {
    high * 256 + low
  }

  // What each read gives and where it leaves off

  function ByteAt(b: seq<Byte>, pos: int): Result<(int, int), Error> {
    if 0 <= pos < |b| then Success((b[pos], pos + 1)) else Failure(OutOfBounds)
  }

  function ShortAt(b: seq<Byte>, pos: int): Result<(int, int), Error> {
    if 0 <= pos <= |b| - 2 then Success((Signed16(BigEndian(b[pos], b[pos + 1])), pos + 2)) else Failure(OutOfBounds)
  }

  function IntAt(b: seq<Byte>, pos: int): Result<(int, int), Error> {
    if 0 <= pos <= |b| - 4 then
      Success((Signed32(BigEndian(BigEndian(BigEndian(b[pos], b[pos + 1]), b[pos + 2]), b[pos + 3])), pos + 4))
    else Failure(OutOfBounds)
  }

  /** Bytes that are read and not used. */
  function ReadOver(b: seq<Byte>, pos: int, count: nat): Result<int, Error> {
    if 0 <= pos <= |b| - count then Success(pos + count) else Failure(OutOfBounds)
  }

  function Narrow(unit: int): char
    requires 0 <= unit
  {
    (unit % 256) as char
  }

  predicate IsContinuation(c: Byte) {
    c / 64 == 2
  }

  function TwoByteUnit(c: int, c2: int): nat {
    c % 32 * 64 + c2 % 64
  }

  function ThreeByteUnit(c: int, c2: int, c3: int): nat {
    c % 16 * 4096 + c2 % 64 * 64 + c3 % 64
  }

  /** The unit that starts at byte i, and where the next one starts. */
  function UnitAt(bytes: seq<Byte>, i: nat): (r: Result<(nat, nat), Error>)
    requires i < |bytes|
    ensures r.Success? ==> i < r.value.1 <= |bytes|
  {
    var c := bytes[i];
    if c < 128 then Success((c, i + 1))
    else if 192 <= c < 224 then
      if i + 2 > |bytes| then Failure(PartialCharacter)
      else if !IsContinuation(bytes[i + 1]) then Failure(MalformedAround(i + 2))
      else Success((TwoByteUnit(c, bytes[i + 1]), i + 2))
    else if 224 <= c < 240 then
      if i + 3 > |bytes| then Failure(PartialCharacter)
      else if !IsContinuation(bytes[i + 1]) || !IsContinuation(bytes[i + 2]) then Failure(MalformedAround(i + 2))
      else Success((ThreeByteUnit(c, bytes[i + 1], bytes[i + 2]), i + 3))
    else Failure(MalformedAround(i))
  }

  function Prepend(front: string, r: Result<string, Error>): Result<string, Error> {
    match r
    case Success(text) => Success(front + text)
    case Failure(e) => Failure(e)
  }

  /** The characters from byte i on, each narrowed to eight bits. */
  function Decode(bytes: seq<Byte>, i: nat): Result<string, Error>
    requires i <= |bytes|
    decreases |bytes| - i
  {
    if i == |bytes| then Success([]) else
      match UnitAt(bytes, i)
      case Success((unit, next)) => Prepend([Narrow(unit)], Decode(bytes, next))
      case Failure(e) => Failure(e)
  }

  /** What a C string keeps of a text. */
  function UntilNul(text: string): string {
    if text == [] || text[0] == 0 as char then [] else [text[0]] + UntilNul(text[1..])
  }

  function UtfAt(b: seq<Byte>, pos: int): Result<(string, int), Error> {
    var (utflen, start) :- ShortAt(b, pos);
    if utflen < 0 then Failure(NegativeLength)
    else if start + utflen > |b| then Failure(OutOfBounds)
    else
      var text :- Decode(b[start..start + utflen], 0);
      Success((UntilNul(text), start + utflen))
  }

  lemma PrependPrepend(a: string, b: string, r: Result<string, Error>)
    ensures Prepend(a + b, r) == Prepend(a, Prepend(b, r))
  {
    if r.Success? {
      assert (a + b) + r.value == a + (b + r.value);
    }
  }

  lemma PrependNothing(r: Result<string, Error>)
    ensures Prepend([], r) == r
  {
    if r.Success? {
      assert [] + r.value == r.value;
    }
  }

  // Masks and shifts

  lemma AndEven(x: nat, m: nat)
    ensures And(x, 2 * m) == 2 * And(x / 2, m)
  {
    assert (2 * m) % 2 == 0 && (2 * m) / 2 == m;
  }

  /** Masking with a multiple of 8, eight places lower down. */
  lemma {:induction false} AndEighths(x: nat, m: nat)
    ensures And(x, 8 * m) == 8 * And(x / 8, m)
  {
    var m2: nat, m4: nat := 2 * m, 4 * m;
    var half: nat, quarter: nat := x / 2, x / 4;
    assert half / 2 == quarter && quarter / 2 == x / 8;
    AndEven(quarter, m);
    AndEven(half, m2);
    AndEven(x, m4);
  }

  lemma ContinuationTest(c: Byte)
    ensures And(c, 0xC0) == 0x80 <==> IsContinuation(c)
  {
    AndEighths(c, 24);
    AndEighths(c / 8, 3);
    var top: nat := c / 64;
    assert c / 8 / 8 == top && Pow2(2) == 4;
    MaskIsMod(top, 2);
  }

  lemma TwoBytesAreOr(c: Byte, c2: Byte)
    ensures Or(And(c, 0x1F) * 64, And(c2, 0x3F)) == TwoByteUnit(c, c2)
  {
    assert Pow2(5) == 32 && Pow2(6) == 64;
    MaskIsMod(c, 5);
    MaskIsMod(c2, 6);
    DisjointOr(c % 32, 6, c2 % 64);
  }

  lemma ThreeBytesAreOr(c: Byte, c2: Byte, c3: Byte)
    ensures Or(Or(And(c, 0x0F) * 4096, And(c2, 0x3F) * 64), And(c3, 0x3F)) == ThreeByteUnit(c, c2, c3)
  {
    assert Pow2(4) == 16 && Pow2(6) == 64 && Pow2(12) == 4096;
    MaskIsMod(c, 4);
    MaskIsMod(c2, 6);
    MaskIsMod(c3, 6);
    var high, middle: nat, low: nat := c % 16, c2 % 64, c3 % 64;
    DisjointOr(high, 12, middle * 64);
    assert high * 4096 + middle * 64 == (high * 64 + middle) * 64;
    DisjointOr(high * 64 + middle, 6, low);
  }

  // The reader

  /** A method's result and the reader's position are what the specification says. */
  predicate Gives<T(==)>(spec: Result<(T, int), Error>, r: Result<T, Error>, pos: int) {
    match spec
    case Success((value, next)) => r == Success(value) && pos == next
    case Failure(e) => r == Failure(e)
  }

  lemma {:induction false} OneMoreUnit(source: seq<Byte>, written: string, count: nat)
    requires count < |source| && Decode(source, 0) == Prepend(written, Decode(source, count))
    ensures match UnitAt(source, count)
      case Success((unit, next)) => Decode(source, 0) == Prepend(written + [Narrow(unit)], Decode(source, next))
      case Failure(e) => Decode(source, 0) == Failure(e)
  {
    match UnitAt(source, count) {
      case Success((unit, next)) => PrependPrepend(written, [Narrow(unit)], Decode(source, next));
      case Failure(_) =>
    }
  }

  /** The switch over the first byte of a character. */
  method DecodeUnitAt(bytearr: array<Byte>, start: nat) returns (r: Result<(nat, nat), Error>)
    requires start < bytearr.Length
    ensures r == UnitAt(bytearr[..], start)
  {
    var utflen, count, c := bytearr.Length, start, bytearr[start];
    if c / 16 <= 7 {
      count := count + 1;
      return Success((c, count));
    } else if c / 16 == 12 || c / 16 == 13 {
      count := count + 2;
      if count > utflen { return Failure(PartialCharacter); }
      var char2 := bytearr[count - 1];
      ContinuationTest(char2);
      if And(char2, 0xC0) != 0x80 { return Failure(MalformedAround(count)); }
      TwoBytesAreOr(c, char2);
      return Success((Or(And(c, 0x1F) * 64, And(char2, 0x3F)), count));
    } else if c / 16 == 14 {
      count := count + 3;
      if count > utflen { return Failure(PartialCharacter); }
      var char2, char3 := bytearr[count - 2], bytearr[count - 1];
      ContinuationTest(char2);
      ContinuationTest(char3);
      if And(char2, 0xC0) != 0x80 || And(char3, 0xC0) != 0x80 { return Failure(MalformedAround(count - 1)); }
      ThreeBytesAreOr(c, char2, char3);
      return Success((Or(Or(And(c, 0x0F) * 4096, And(char2, 0x3F) * 64), And(char3, 0x3F)), count));
    } else {
      return Failure(MalformedAround(count));
    }
  }

  /** The two loops over the bytes; the output buffer is as long as the input and never overrun. */
  method DecodeArray(bytearr: array<Byte>) returns (r: Result<string, Error>)
    ensures r == Decode(bytearr[..], 0)
  {
    var utflen := bytearr.Length;
    var chararr := new char[utflen];
    ghost var source := bytearr[..];
    var count, written := 0, 0;
    PrependNothing(Decode(source, 0));
    while count < utflen && bytearr[count] <= 127
      invariant written == count <= utflen
      invariant Decode(source, 0) == Prepend(chararr[..written], Decode(source, count))
    {
      OneMoreUnit(source, chararr[..written], count);
      chararr[written] := Narrow(bytearr[count]);
      assert chararr[..written + 1] == chararr[..written] + [chararr[written]];
      count, written := count + 1, written + 1;
    }
    while count < utflen
      invariant written <= count <= utflen
      invariant Decode(source, 0) == Prepend(chararr[..written], Decode(source, count))
    {
      OneMoreUnit(source, chararr[..written], count);
      var unit := DecodeUnitAt(bytearr, count);
      if unit.Failure? { return Failure(unit.error); }
      chararr[written] := Narrow(unit.value.0);
      assert chararr[..written + 1] == chararr[..written] + [chararr[written]];
      count, written := unit.value.1, written + 1;
    }
    assert chararr[..written] + [] == chararr[..written];
    r := Success(chararr[..written]);
  }

  class ByteReader {
    const bytes: seq<Byte>
    var nextPos: int

    constructor (data: seq<Byte>)
      ensures bytes == data && nextPos == 0
    {
      bytes := data;
      nextPos := 0;
    }

    method ReadByte() returns (r: Result<int, Error>)
      modifies this
      ensures Gives(ByteAt(bytes, old(nextPos)), r, nextPos)
    {
      if !(0 <= nextPos < |bytes|) { return Failure(OutOfBounds); }
      r := Success(bytes[nextPos]);
      nextPos := nextPos + 1;
    }

    method ReadShort() returns (r: Result<int, Error>)
      modifies this
      ensures Gives(ShortAt(bytes, old(nextPos)), r, nextPos)
    {
      if !(0 <= nextPos <= |bytes| - 2) { return Failure(OutOfBounds); }
      r := Success(Signed16(BigEndian(bytes[nextPos], bytes[nextPos + 1])));
      nextPos := nextPos + 2;
    }

    method ReadInt() returns (r: Result<int, Error>)
      modifies this
      ensures Gives(IntAt(bytes, old(nextPos)), r, nextPos)
    {
      if !(0 <= nextPos <= |bytes| - 4) { return Failure(OutOfBounds); }
      var high := BigEndian(bytes[nextPos], bytes[nextPos + 1]);
      r := Success(Signed32(BigEndian(BigEndian(high, bytes[nextPos + 2]), bytes[nextPos + 3])));
      nextPos := nextPos + 4;
    }

    /** False when the array ends first. */
    method ReadFully(buf: array<Byte>, len: nat) returns (ok: bool)
      requires len <= buf.Length && 0 <= nextPos
      modifies this, buf
      ensures ok <==> old(nextPos) + len <= |bytes|
      ensures ok ==> nextPos == old(nextPos) + len && buf[..len] == bytes[old(nextPos)..nextPos]
    {
      for i := 0 to len
        invariant nextPos == old(nextPos) + i && (i == 0 || nextPos <= |bytes|)
        invariant i > 0 ==> buf[..i] == bytes[old(nextPos)..nextPos]
      {
        var r := ReadByte();
        if r.Failure? { return false; }
        buf[i] := r.value;
      }
      ok := nextPos <= |bytes|;
    }

    /** Moves on without a check; a negative distance moves back. */
    method Skip(howMany: int)
      modifies this
      ensures nextPos == old(nextPos) + howMany
    {
      nextPos := nextPos + howMany;
    }

    method ReadUTF() returns (r: Result<string, Error>)
      modifies this
      ensures Gives(UtfAt(bytes, old(nextPos)), r, nextPos)
    {
      var length := ReadShort();
      if length.Failure? { return Failure(length.error); }
      var utflen := length.value;
      if utflen < 0 { return Failure(NegativeLength); }
      var bytearr := new Byte[utflen];
      ghost var start := nextPos;
      var ok := ReadFully(bytearr, utflen);
      if !ok { return Failure(OutOfBounds); }
      assert bytearr[..] == bytes[start..start + utflen];
      var text := DecodeArray(bytearr);
      r := if text.Failure? then Failure(text.error) else Success(UntilNul(text.value));
    }
  }

  // Modified UTF-8

  function EncodeUnit(u: Unit): (e: seq<Byte>)
    ensures 1 <= |e| <= 3
  {
    if 1 <= u < 0x80 then [u]
    else if u < 0x800 then [192 + u / 64, 128 + u % 64]
    else [224 + u / 4096, 128 + u / 64 % 64, 128 + u % 64]
  }

  function EncodeText(text: seq<Unit>): seq<Byte> {
    if text == [] then [] else EncodeUnit(text[0]) + EncodeText(text[1..])
  }

  function NarrowText(text: seq<Unit>): (r: string)
    ensures |r| == |text|
  {
    seq(|text|, i requires 0 <= i < |text| => Narrow(text[i]))
  }

  /** What the parser makes of a text: every unit cut to eight bits, up to the first that becomes NUL. */
  function Shown(text: seq<Unit>): string {
    UntilNul(NarrowText(text))
  }

  lemma TwoBytesOf(u: Unit)
    requires u < 0x800
    ensures 192 <= 192 + u / 64 < 224 && IsContinuation(128 + u % 64)
    ensures TwoByteUnit(192 + u / 64, 128 + u % 64) == u
  {
  }

  lemma ThreeBytesOf(u: Unit)
    ensures 224 <= 224 + u / 4096 < 240 && IsContinuation(128 + u / 64 % 64) && IsContinuation(128 + u % 64)
    ensures ThreeByteUnit(224 + u / 4096, 128 + u / 64 % 64, 128 + u % 64) == u
  {
    var high, middle := u / 4096, u / 64 % 64;
    assert u / 64 == high * 64 + middle;
  }

  /** Decoding one encoded unit, whatever follows. */
  lemma DecodeUnit(bytes: seq<Byte>, i: nat, u: Unit)
    requires i + |EncodeUnit(u)| <= |bytes| && forall k :: 0 <= k < |EncodeUnit(u)| ==> bytes[i + k] == EncodeUnit(u)[k]
    ensures UnitAt(bytes, i) == Success((u, i + |EncodeUnit(u)|))
  {
    var e := EncodeUnit(u);
    assert bytes[i + 0] == e[0];
    if 1 <= u < 0x80 {
    } else if u < 0x800 {
      assert bytes[i + 1] == e[1];
      TwoBytesOf(u);
    } else {
      assert bytes[i + 1] == e[1] && bytes[i + 2] == e[2];
      ThreeBytesOf(u);
    }
  }

  lemma SplitPrefix(bytes: seq<Byte>, i: nat, front: seq<Byte>, rest: seq<Byte>)
    requires i <= |bytes| && bytes[i..] == front + rest
    ensures i + |front| <= |bytes| && bytes[i + |front|..] == rest
    ensures forall k :: 0 <= k < |front| ==> bytes[i + k] == front[k]
  {
    assert forall k :: 0 <= k < |front| ==> bytes[i + k] == bytes[i..][k];
    assert bytes[i + |front|..] == bytes[i..][|front|..];
  }

  lemma NarrowStep(text: seq<Unit>)
    requires text != []
    ensures NarrowText(text) == [Narrow(text[0])] + NarrowText(text[1..])
  {
    hide Narrow;
  }

  lemma DecodeNothing(bytes: seq<Byte>)
    ensures Decode(bytes, |bytes|) == Success(NarrowText([]))
  {
  }

  lemma DecodeStep(bytes: seq<Byte>, i: nat, u: Unit, next: nat)
    requires i < |bytes| && UnitAt(bytes, i) == Success((u, next)) && i < next <= |bytes|
    ensures Decode(bytes, i) == Prepend([Narrow(u)], Decode(bytes, next))
  {
    hide UnitAt, Narrow;
  }

  /** Decoding inverts encoding, up to the narrowing of the units. */
  lemma {:induction false} DecodeInvertsEncode(bytes: seq<Byte>, i: nat, text: seq<Unit>)
    requires i <= |bytes| && bytes[i..] == EncodeText(text)
    ensures Decode(bytes, i) == Success(NarrowText(text))
    decreases |text|
  {
    hide Decode, EncodeUnit, UnitAt, Narrow, NarrowText;
    if text == [] {
      assert |bytes[i..]| == 0;
      DecodeNothing(bytes);
    } else {
      var e := EncodeUnit(text[0]);
      SplitPrefix(bytes, i, e, EncodeText(text[1..]));
      DecodeUnit(bytes, i, text[0]);
      DecodeStep(bytes, i, text[0], i + |e|);
      DecodeInvertsEncode(bytes, i + |e|, text[1..]);
      NarrowStep(text);
    }
  }

  predicate SameUnits(shown: string, text: seq<Unit>) {
    |shown| == |text| && forall i :: 0 <= i < |text| ==> shown[i] as int == text[i]
  }

  lemma ShownStep(text: seq<Unit>)
    requires text != []
    ensures SameUnits(Shown(text), text) <==> 1 <= text[0] <= 255 && SameUnits(Shown(text[1..]), text[1..])
  {
    var first := Narrow(text[0]);
    assert NarrowText(text)[1..] == NarrowText(text[1..]);
    assert Shown(text) == if first == 0 as char then [] else [first] + Shown(text[1..]);
    if 1 <= text[0] <= 255 {
      var whole, rest := Shown(text), Shown(text[1..]);
      assert forall i :: 0 <= i < |rest| ==> whole[i + 1] == rest[i];
    }
  }

  /** The text comes back unchanged exactly when every unit is between 1 and 255. */
  lemma {:induction false} ShownExactly(text: seq<Unit>)
    ensures SameUnits(Shown(text), text) <==> forall i :: 0 <= i < |text| ==> 1 <= text[i] <= 255
    decreases |text|
  {
    if text == [] {
    } else {
      var rest := text[1..];
      ShownExactly(rest);
      ShownStep(text);
      assert forall i :: 1 <= i < |text| ==> text[i] == rest[i - 1];
      assert forall i :: 0 <= i < |rest| ==> rest[i] == text[i + 1];
    }
  }

  // Which bytes are accepted

  /** One character as it may stand in a text: one byte below 128; or a byte from 192 to 223 with one, or a byte
      from 224 to 239 with two bytes from 128 to 191 behind it. Long forms of small units are among them. */
  predicate IsPiece(p: seq<Byte>) {
    || (|p| == 1 && p[0] <= 127)
    || (|p| == 2 && 192 <= p[0] <= 223 && 128 <= p[1] <= 191)
    || (|p| == 3 && 224 <= p[0] <= 239 && 128 <= p[1] <= 191 && 128 <= p[2] <= 191)
  }

  function PieceUnit(p: seq<Byte>): Unit
    requires IsPiece(p)
  {
    var first: int := p[0];
    if |p| == 1 then first else
      var second: int := p[1];
      if |p| == 2 then (first - 192) * 64 + (second - 128) else
        var third: int := p[2];
        (first - 224) * 4096 + (second - 128) * 64 + (third - 128)
  }

  function Flat(pieces: seq<seq<Byte>>): seq<Byte> {
    if pieces == [] then [] else pieces[0] + Flat(pieces[1..])
  }

  predicate AllPieces(pieces: seq<seq<Byte>>) {
    forall k :: 0 <= k < |pieces| ==> IsPiece(pieces[k])
  }

  function PieceText(pieces: seq<seq<Byte>>): string
    requires AllPieces(pieces)
  {
    seq(|pieces|, k requires 0 <= k < |pieces| => Narrow(PieceUnit(pieces[k])))
  }

  lemma PieceIsUnit(bytes: seq<Byte>, i: nat, p: seq<Byte>)
    requires IsPiece(p) && i + |p| <= |bytes| && forall k :: 0 <= k < |p| ==> bytes[i + k] == p[k]
    ensures UnitAt(bytes, i) == Success((PieceUnit(p), i + |p|))
  {
    assert bytes[i + 0] == p[0];
    if |p| > 1 { assert bytes[i + 1] == p[1]; }
    if |p| > 2 { assert bytes[i + 2] == p[2]; }
  }

  lemma UnitIsPiece(bytes: seq<Byte>, i: nat)
    requires i < |bytes| && UnitAt(bytes, i).Success?
    ensures var (unit, next) := UnitAt(bytes, i).value;
      IsPiece(bytes[i..next]) && PieceUnit(bytes[i..next]) == unit
  {
  }

  lemma PieceTextStep(pieces: seq<seq<Byte>>)
    requires AllPieces(pieces) && pieces != []
    ensures AllPieces(pieces[1..])
    ensures PieceText(pieces) == [Narrow(PieceUnit(pieces[0]))] + PieceText(pieces[1..])
  {
    hide Narrow, PieceUnit, IsPiece;
    assert forall k :: 1 <= k < |pieces| ==> pieces[k] == pieces[1..][k - 1];
  }

  lemma NoPieces(bytes: seq<Byte>)
    ensures Decode(bytes, |bytes|) == Success(PieceText([]))
  {
    assert PieceText([]) == [];
  }

  /** Pieces one after the other are decoded to their units. */
  lemma {:induction false} PiecesAreDecoded(bytes: seq<Byte>, i: nat, pieces: seq<seq<Byte>>)
    requires i <= |bytes| && AllPieces(pieces) && bytes[i..] == Flat(pieces)
    ensures Decode(bytes, i) == Success(PieceText(pieces))
    decreases |pieces|
  {
    hide Decode, UnitAt, Narrow, PieceText, PieceUnit;
    if pieces == [] {
      assert |bytes[i..]| == 0;
      NoPieces(bytes);
    } else {
      SplitPrefix(bytes, i, pieces[0], Flat(pieces[1..]));
      PieceIsUnit(bytes, i, pieces[0]);
      DecodeStep(bytes, i, PieceUnit(pieces[0]), i + |pieces[0]|);
      PieceTextStep(pieces);
      PiecesAreDecoded(bytes, i + |pieces[0]|, pieces[1..]);
    }
  }

  /** What is decoded consists of pieces. */
  lemma {:induction false} DecodedArePieces(bytes: seq<Byte>, i: nat) returns (pieces: seq<seq<Byte>>)
    requires i <= |bytes| && Decode(bytes, i).Success?
    ensures AllPieces(pieces) && Flat(pieces) == bytes[i..]
    decreases |bytes| - i
  {
    hide UnitAt, IsPiece;
    if i == |bytes| {
      pieces := [];
    } else {
      var (_, next) := UnitAt(bytes, i).value;
      UnitIsPiece(bytes, i);
      var rest := DecodedArePieces(bytes, next);
      pieces := [bytes[i..next]] + rest;
      assert pieces[1..] == rest;
      assert bytes[i..] == bytes[i..next] + bytes[next..];
    }
  }

  /** Any bytes: they are decoded exactly if they are such pieces one after the other, and every piece is then one
      character, its unit narrowed to eight bits. */
  lemma DecodesExactlyPieces(bytes: seq<Byte>)
    ensures Decode(bytes, 0).Success? <==> exists pieces :: AllPieces(pieces) && Flat(pieces) == bytes
    ensures forall pieces :: AllPieces(pieces) && Flat(pieces) == bytes ==>
      Decode(bytes, 0) == Success(PieceText(pieces))
  {
    hide Decode, AllPieces, Flat, PieceText;
    assert bytes[0..] == bytes;
    if Decode(bytes, 0).Success? { var pieces := DecodedArePieces(bytes, 0); }
    forall pieces | AllPieces(pieces) && Flat(pieces) == bytes
      ensures Decode(bytes, 0) == Success(PieceText(pieces))
    {
      PiecesAreDecoded(bytes, 0, pieces);
    }
  }

  // What is said of the others

  predicate BeginsWithPiece(rest: seq<Byte>) {
    exists k :: 0 <= k <= |rest| && IsPiece(rest[..k])
  }

  /** The complaint about bytes that begin with no character and stand `start` bytes into the text: a character
      of two or three bytes is cut off, or the bytes behind its first are not all from 128 to 191, or no
      character begins with this byte. */
  function Complaint(rest: seq<Byte>, start: nat): Error
    requires rest != []
  {
    var size := if 192 <= rest[0] <= 223 then 2 else if 224 <= rest[0] <= 239 then 3 else 1;
    if |rest| < size then PartialCharacter else if size == 1 then MalformedAround(start) else MalformedAround(start + 2)
  }

  lemma NoPieceFails(bytes: seq<Byte>, i: nat)
    requires i < |bytes| && !BeginsWithPiece(bytes[i..])
    ensures UnitAt(bytes, i) == Failure(Complaint(bytes[i..], i))
  {
    var rest := bytes[i..];
    assert IsPiece(rest[..1]) <==> rest[0] <= 127;
    if |rest| >= 2 {
      assert rest[0] < 224 ==> (IsPiece(rest[..2]) <==> 192 <= rest[0] && 128 <= rest[1] <= 191);
    }
    if |rest| >= 3 {
      assert rest[0] >= 224 ==>
        (IsPiece(rest[..3]) <==> rest[0] < 240 && 128 <= rest[1] <= 191 && 128 <= rest[2] <= 191);
    }
  }

  /** Any bytes: the first that begin no character behind any number of characters end the decoding, and what is
      said of them is that complaint. */
  lemma {:induction false} FirstBrokenEndsDecoding(bytes: seq<Byte>, i: nat, pieces: seq<seq<Byte>>, rest: seq<Byte>)
    requires i <= |bytes| && AllPieces(pieces) && bytes[i..] == Flat(pieces) + rest
    requires rest != [] && !BeginsWithPiece(rest)
    ensures Decode(bytes, i) == Failure(Complaint(rest, |bytes| - |rest|))
    decreases |pieces|
  {
    hide UnitAt, Narrow, PieceUnit, Complaint, BeginsWithPiece, IsPiece;
    if pieces == [] {
      assert bytes[i..] == rest;
      NoPieceFails(bytes, i);
    } else {
      var more := Flat(pieces[1..]) + rest;
      assert Flat(pieces) + rest == pieces[0] + more;
      SplitPrefix(bytes, i, pieces[0], more);
      PieceIsUnit(bytes, i, pieces[0]);
      FirstBrokenEndsDecoding(bytes, i + |pieces[0]|, pieces[1..], rest);
    }
  }

  /** A text behind its length: below 32768 it is cut at NUL after decoding exactly that many bytes if the file has
      them, and any larger length is negative for the reader. */
  lemma LengthDecides(b: seq<Byte>, pos: nat, length: nat)
    requires pos + 2 <= |b| && length < 65536 && b[pos] == length / 256 && b[pos + 1] == length % 256
    ensures UtfAt(b, pos) ==
      if length >= 32768 then Failure(NegativeLength)
      else if |b| - (pos + 2) < length then Failure(OutOfBounds)
      else match Decode(b[pos + 2..][..length], 0)
        case Success(text) => Success((UntilNul(text), pos + 2 + length))
        case Failure(e) => Failure(e)
  {
    hide Decode, UntilNul;
    assert length == length / 256 * 256 + length % 256;
    if length < 32768 && pos + 2 + length <= |b| {
      assert b[pos + 2..][..length] == b[pos + 2..pos + 2 + length];
    }
  }
}
