/** The class file parser (chapter 4 of the JVM Specification SE 8): what it reads at which position. */
module ClassFileParsing {
  import opened Wrappers
  import opened ByteReading
  import D = Descriptors

  const MAGIC := 0xCAFE_BABE
  const CONSTANT_UTF8 := 1
  const CONSTANT_LONG := 5
  const CONSTANT_DOUBLE := 6
  const CONSTANT_CLASS := 7
  const CONSTANT_STRING := 8
  const ACC_FINAL := 0x0010
  const ACC_INTERFACE := 0x0200
  const ACC_ABSTRACT := 0x0400
  const OBJECT := "java/lang/Object"

  /** The operands of the other constants are read and never looked at. */
  datatype Constant =
    | ClassConstant(nameIndex: int)
    | StringConstant(stringIndex: int)
    | Utf8Constant(text: string)
    | OtherConstant(otherTag: int)
  {
    function Tag(): int {
      match this
      case ClassConstant(_) => CONSTANT_CLASS
      case StringConstant(_) => CONSTANT_STRING
      case Utf8Constant(_) => CONSTANT_UTF8
      case OtherConstant(tag) => tag
    }

    function Width(): nat {
      if Tag() == CONSTANT_DOUBLE || Tag() == CONSTANT_LONG then 2 else 1
    }
  }

  /** Slots that hold no constant are taken for null. */
  type Table = seq<Option<Constant>>

  /** How many bytes the operands of the other constants take. */
  function OperandSize(tag: int): Option<nat> {
    if tag == 3 || tag == 4 then Some(4)                            // Integer, Float
    else if tag == CONSTANT_LONG || tag == CONSTANT_DOUBLE then Some(8)
    else if tag == 9 || tag == 10 || tag == 11 then Some(4)         // Fieldref, Methodref, InterfaceMethodref
    else if tag == 12 then Some(4)                                  // NameAndType
    else if tag == 15 then Some(3)                                  // MethodHandle
    else if tag == 16 then Some(2)                                  // MethodType
    else if tag == 18 then Some(4)                                  // InvokeDynamic
    else None
  }

  function ConstantAt(b: seq<Byte>, pos: int): Result<(Constant, int), Error> {
    var (tag, p) :- ByteAt(b, pos);
    if tag == CONSTANT_CLASS then
      var (i, q) :- ShortAt(b, p);
      Success((ClassConstant(i), q))
    else if tag == CONSTANT_STRING then
      var (i, q) :- ShortAt(b, p);
      Success((StringConstant(i), q))
    else if tag == CONSTANT_UTF8 then
      var (text, q) :- UtfAt(b, p);
      Success((Utf8Constant(text), q))
    else match OperandSize(tag)
      case Some(size) =>
        var q :- ReadOver(b, p, size);
        Success((OtherConstant(tag), q))
      case None => Failure(BadTag)
  }

  /** The constants from slot i on; a Long or Double takes two slots. */
  function EntriesAt(b: seq<Byte>, pos: int, i: nat, table: Table): Result<(Table, int), Error>
    decreases |table| - i
  {
    if i >= |table| then Success((table, pos))
    else
      var (c, p) :- ConstantAt(b, pos);
      EntriesAt(b, p, i + c.Width(), table[i := Some(c)])
  }

  function Empty(count: nat): Table {
    seq(count, i => None)
  }

  function PoolAt(b: seq<Byte>, pos: int): Result<(Table, int), Error> {
    var (count, p) :- ShortAt(b, pos);
    if count < 0 then Failure(NegativeLength) else EntriesAt(b, p, 1, Empty(count))
  }

  function GetConstant(table: Table, index: int, tag: int): (r: Result<Constant, Error>)
    ensures r.Success? ==> r.value.Tag() == tag
  {
    if index >= |table| || index < 0 then Failure(InvalidIndex(index))
    else match table[index]
      case None => Failure(NullConstant(index))
      case Some(c) => if c.Tag() != tag then Failure(WrongTag(tag)) else Success(c)
  }

  function GetUtf8(table: Table, index: int): Result<string, Error> {
    var c :- GetConstant(table, index, CONSTANT_UTF8);
    Success(if c.Utf8Constant? then c.text else "")
  }

  /** The text that a constant of the given kind points to. */
  function GetConstantString(table: Table, index: int, tag: int): Result<string, Error> {
    var c :- GetConstant(table, index, tag);
    match c
    case ClassConstant(i) => GetUtf8(table, i)
    case StringConstant(i) => GetUtf8(table, i)
    case _ => Failure(BadTag)
  }

  predicate HasFlag(flags: int, flag: int)
    requires flag > 0
  {
    flags / flag % 2 == 1
  }

  function PrologueAt(b: seq<Byte>, pos: int): Result<int, Error> {
    var (magic, p) :- IntAt(b, pos);
    if magic != Signed32(MAGIC) then Failure(BadMagic) else
      var (minor, q) :- ShortAt(b, p);
      var (major, r) :- ShortAt(b, q);
      Success(r)
  }

  /** Class name and superclass name. An interface counts as abstract; a superclass index that is not
      positive stands for the class that every class has above it. */
  function ClassInfoAt(b: seq<Byte>, pos: int, table: Table): Result<((string, string), int), Error> {
    var (flags, p) :- ShortAt(b, pos);
    if (HasFlag(flags, ACC_INTERFACE) || HasFlag(flags, ACC_ABSTRACT)) && HasFlag(flags, ACC_FINAL)
      then Failure(FinalAndAbstract) else
      var (this_, q) :- ShortAt(b, p);
      var name :- GetConstantString(table, this_, CONSTANT_CLASS);
      var (super, r) :- ShortAt(b, q);
      var superName :- if super > 0 then GetConstantString(table, super, CONSTANT_CLASS) else Success(OBJECT);
      Success(((name, superName), r))
  }

  function InterfacesFrom(b: seq<Byte>, pos: int, left: nat, table: Table,
        refs: set<string>): Result<(set<string>, int), Error>
    decreases left
  {
    if left == 0 then Success((refs, pos)) else
      var (index, p) :- ShortAt(b, pos);
      var name :- GetConstantString(table, index, CONSTANT_CLASS);
      InterfacesFrom(b, p, left - 1, table, refs + {name})
  }

  /** Attributes are skipped by their length, which is taken as a signed number. */
  function AttributesFrom(b: seq<Byte>, pos: int, left: nat, table: Table): Result<int, Error>
    decreases left
  {
    if left == 0 then Success(pos) else
      var (name, p) :- ShortAt(b, pos);
      var text :- GetUtf8(table, name);
      var (length, q) :- IntAt(b, p);
      AttributesFrom(b, q + length, left - 1, table)
  }

  /** The signature of a field or method, and where the next one starts. */
  function MemberAt(b: seq<Byte>, pos: int, table: Table): Result<(string, int), Error> {
    var (access, p) :- ShortAt(b, pos);
    var (name, q) :- ShortAt(b, p);
    var (signature, r) :- ShortAt(b, q);
    var (count, s) :- ShortAt(b, r);
    if count < 0 then Failure(NegativeLength) else
      var end :- AttributesFrom(b, s, count, table);
      var text :- GetUtf8(table, signature);
      Success((text, end))
  }

  function FieldsFrom(b: seq<Byte>, pos: int, left: nat, table: Table,
        refs: set<string>): Result<(set<string>, int), Error>
    decreases left
  {
    if left == 0 then Success((refs, pos)) else
      var (signature, p) :- MemberAt(b, pos, table);
      FieldsFrom(b, p, left - 1, table, D.SaveRef(D.ClassNameFromSignature(signature), refs))
  }

  function RefsOfMethod(signature: string, refs: set<string>): Result<set<string>, Error> {
    match D.MethodRefs(signature, refs)
    case Success(found) => Success(found)
    case Failure(MissingPiece) => Failure(OutOfBounds)
    case Failure(Endless) => Failure(Endless)
  }

  function MethodsFrom(b: seq<Byte>, pos: int, left: nat, table: Table,
        refs: set<string>): Result<(set<string>, int), Error>
    decreases left
  {
    if left == 0 then Success((refs, pos)) else
      var (signature, p) :- MemberAt(b, pos, table);
      var found :- RefsOfMethod(signature, refs);
      MethodsFrom(b, p, left - 1, table, found)
  }

  /** A count and then that many parts. */
  function CountAt(b: seq<Byte>, pos: int): Result<(nat, int), Error> {
    var (count, p) :- ShortAt(b, pos);
    if count < 0 then Failure(NegativeLength) else Success((count, p))
  }

  datatype Header = Header(table: Table, className: string, superClassName: string)

  function HeaderOf(b: seq<Byte>): Result<(Header, int), Error> {
    var p :- PrologueAt(b, 0);
    var (table, q) :- PoolAt(b, p);
    var ((className, superName), r) :- ClassInfoAt(b, q, table);
    Success((Header(table, className, superName), r))
  }

  datatype Refs = Refs(className: string, superClassName: string, interfaces: set<string>, fields: set<string>,
      methods: set<string>)

  function AllRefs(r: Refs): set<string> {
    {r.superClassName} + r.interfaces + r.fields + r.methods
  }

  function ParseMembers(b: seq<Byte>, pos: int, h: Header): Result<(Refs, int), Error> {
    var (interfaceCount, q) :- CountAt(b, pos);
    var (interfaces, r) :- InterfacesFrom(b, q, interfaceCount, h.table, {});
    var (fieldCount, s) :- CountAt(b, r);
    var (fields, t) :- FieldsFrom(b, s, fieldCount, h.table, {});
    var (methodCount, u) :- CountAt(b, t);
    var (methods, v) :- MethodsFrom(b, u, methodCount, h.table, {});
    Success((Refs(h.className, h.superClassName, interfaces, fields, methods), v))
  }

  /** The whole parse: the references, and the position behind the methods. */
  function Parse(b: seq<Byte>): Result<(Refs, int), Error> {
    var (h, p) :- HeaderOf(b);
    ParseMembers(b, p, h)
  }

  function ParseJustName(b: seq<Byte>): Result<string, Error> {
    var (h, p) :- HeaderOf(b);
    Success(h.className)
  }

  /** The name alone is never in conflict with the full parse. */
  lemma JustNameAgrees(b: seq<Byte>)
    ensures Parse(b).Success? ==> ParseJustName(b) == Success(Parse(b).value.0.className)
    ensures ParseJustName(b).Failure? ==> Parse(b) == Failure(ParseJustName(b).error)
  {
  }
}
