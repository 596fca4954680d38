/** The parser as the object that fills its fields while it moves a reader over the bytes; module
    ClassFileParsing says what each method reads. */
module ClassParserObject {
  import opened Wrappers
  import opened ByteReading
  import opened ClassFileParsing
  import D = Descriptors

  /** A step without a value of its own. */
  predicate Moved(spec: Result<int, Error>, r: Option<Error>, pos: int) {
    match spec
    case Success(next) => r == None && pos == next
    case Failure(e) => r == Some(e)
  }

  method ReadConstant(reader: ByteReader) returns (r: Result<Constant, Error>)
    modifies reader
    ensures Gives(ConstantAt(reader.bytes, old(reader.nextPos)), r, reader.nextPos)
  {
    var tag := reader.ReadByte();
    if tag.Failure? { return Failure(tag.error); }
    if tag.value == CONSTANT_CLASS {
      var index := reader.ReadShort();
      return if index.Failure? then Failure(index.error) else Success(ClassConstant(index.value));
    } else if tag.value == CONSTANT_STRING {
      var index := reader.ReadShort();
      return if index.Failure? then Failure(index.error) else Success(StringConstant(index.value));
    } else if tag.value == CONSTANT_UTF8 {
      var text := reader.ReadUTF();
      return if text.Failure? then Failure(text.error) else Success(Utf8Constant(text.value));
    } else {
      var size := OperandSize(tag.value);
      if size == None { return Failure(BadTag); }
      if !(0 <= reader.nextPos <= |reader.bytes| - size.value) { return Failure(OutOfBounds); }
      reader.Skip(size.value);
      return Success(OtherConstant(tag.value));
    }
  }

  /** The constructor of the constant pool; the loop counter takes an extra step past a Long or Double. */
  method ReadPool(reader: ByteReader) returns (r: Result<Table, Error>)
    modifies reader
    ensures Gives(PoolAt(reader.bytes, old(reader.nextPos)), r, reader.nextPos)
  {
    var count := reader.ReadShort();
    if count.Failure? { return Failure(count.error); }
    if count.value < 0 { return Failure(NegativeLength); }
    var pool := new Option<Constant>[count.value](i => None);
    ghost var start := reader.nextPos;
    assert pool[..] == Empty(count.value);
    var i := 1;
    while i < pool.Length
      invariant i >= 1
      invariant EntriesAt(reader.bytes, start, 1, Empty(count.value))
        == EntriesAt(reader.bytes, reader.nextPos, i, pool[..])
      decreases pool.Length - i
    {
      hide ConstantAt;
      var c := ReadConstant(reader);
      if c.Failure? { return Failure(c.error); }
      ghost var before := pool[..];
      pool[i] := Some(c.value);
      assert pool[..] == before[i := Some(c.value)];
      i := i + c.value.Width();
    }
    r := Success(pool[..]);
  }

  method ReadAttribute(reader: ByteReader, table: Table) returns (r: Option<Error>)
    modifies reader
    ensures Moved(AttributesFrom(reader.bytes, old(reader.nextPos), 1, table), r, reader.nextPos)
  {
    var nameIndex := reader.ReadShort();
    if nameIndex.Failure? { return Some(nameIndex.error); }
    var name := GetUtf8(table, nameIndex.value);
    if name.Failure? { return Some(name.error); }
    var length := reader.ReadInt();
    if length.Failure? { return Some(length.error); }
    reader.Skip(length.value);
    r := None;
  }

  lemma {:induction false} OneAttribute(b: seq<Byte>, pos: int, left: nat, table: Table)
    requires left > 0
    ensures AttributesFrom(b, pos, left, table) == match AttributesFrom(b, pos, 1, table)
      case Success(next) => AttributesFrom(b, next, left - 1, table)
      case Failure(e) => Failure(e)
  {
    assert forall p :: AttributesFrom(b, p, 0, table) == Success(p);
  }

  method ReadAttributes(reader: ByteReader, table: Table, count: nat) returns (r: Option<Error>)
    modifies reader
    ensures Moved(AttributesFrom(reader.bytes, old(reader.nextPos), count, table), r, reader.nextPos)
  {
    for i := 0 to count
      invariant AttributesFrom(reader.bytes, old(reader.nextPos), count, table)
        == AttributesFrom(reader.bytes, reader.nextPos, count - i, table)
    {
      OneAttribute(reader.bytes, reader.nextPos, count - i, table);
      r := ReadAttribute(reader, table);
      if r.Some? { return; }
    }
    r := None;
  }

  /** The constructor of a field or method, and its signature. */
  method ReadMember(reader: ByteReader, table: Table) returns (r: Result<string, Error>)
    modifies reader
    ensures Gives(MemberAt(reader.bytes, old(reader.nextPos), table), r, reader.nextPos)
  {
    var access := reader.ReadShort();
    if access.Failure? { return Failure(access.error); }
    var nameIndex := reader.ReadShort();
    if nameIndex.Failure? { return Failure(nameIndex.error); }
    var signatureIndex := reader.ReadShort();
    if signatureIndex.Failure? { return Failure(signatureIndex.error); }
    var count := reader.ReadShort();
    if count.Failure? { return Failure(count.error); }
    if count.value < 0 { return Failure(NegativeLength); }
    var skipped := ReadAttributes(reader, table, count.value);
    if skipped.Some? { return Failure(skipped.value); }
    r := GetUtf8(table, signatureIndex.value);
  }

  /** Cut the descriptor into its pieces and collect from them. */
  method SaveMethodRefs(signature: string, refs: set<string>) returns (r: Result<set<string>, Error>)
    ensures r == RefsOfMethod(signature, refs)
  {
    var splits := D.SplitString(signature, D.PARENTHESES, false);
    if |splits| < 2 { return Failure(OutOfBounds); }
    var found := D.ParseAndSaveArguments(splits[1], refs);
    if found == None { return Failure(Endless); }
    if |splits| < 3 { return Failure(OutOfBounds); }
    r := Success(D.SaveRef(D.ClassNameFromSignature(splits[2]), found.value));
  }

  class ClassParser {
    const reader: ByteReader
    var constantPool: Table
    var className: string
    var superClassName: string
    var interfacesRefs: set<string>
    var fieldRefs: set<string>
    var methodRefs: set<string>
    var allRefs: set<string>

    constructor (data: seq<Byte>)
      ensures fresh(reader) && reader.bytes == data && reader.nextPos == 0
      ensures interfacesRefs == fieldRefs == methodRefs == allRefs == {}
    {
      reader := new ByteReader(data);
      constantPool, className, superClassName := [], "", "";
      interfacesRefs, fieldRefs, methodRefs, allRefs := {}, {}, {}, {};
    }

    method ReadMagicIdAndVersions() returns (r: Option<Error>)
      modifies reader
      ensures Moved(PrologueAt(reader.bytes, old(reader.nextPos)), r, reader.nextPos)
    {
      var magic := reader.ReadInt();
      if magic.Failure? { return Some(magic.error); }
      if magic.value != Signed32(MAGIC) { return Some(BadMagic); }
      var minor := reader.ReadShort();
      if minor.Failure? { return Some(minor.error); }
      var major := reader.ReadShort();
      if major.Failure? { return Some(major.error); }
      r := None;
    }

    method ReadClassInfo() returns (r: Option<Error>)
      modifies reader, this`className, this`superClassName
      ensures match ClassInfoAt(reader.bytes, old(reader.nextPos), constantPool)
        case Success((names, next)) => r == None && (className, superClassName) == names && reader.nextPos == next
        case Failure(e) => r == Some(e)
    {
      var access := reader.ReadShort();
      if access.Failure? { return Some(access.error); }
      var isAbstract := HasFlag(access.value, ACC_ABSTRACT);
      if HasFlag(access.value, ACC_INTERFACE) {
        isAbstract := true;
      }
      if isAbstract && HasFlag(access.value, ACC_FINAL) { return Some(FinalAndAbstract); }
      var index := reader.ReadShort();
      if index.Failure? { return Some(index.error); }
      var name := GetConstantString(constantPool, index.value, CONSTANT_CLASS);
      if name.Failure? { return Some(name.error); }
      className := name.value;
      var superIndex := reader.ReadShort();
      if superIndex.Failure? { return Some(superIndex.error); }
      if superIndex.value > 0 {
        var superName := GetConstantString(constantPool, superIndex.value, CONSTANT_CLASS);
        if superName.Failure? { return Some(superName.error); }
        superClassName := superName.value;
      } else {
        superClassName := OBJECT;
      }
      r := None;
    }

    /** A count that sizes an array. */
    method ReadCount() returns (r: Result<nat, Error>)
      modifies reader
      ensures Gives(CountAt(reader.bytes, old(reader.nextPos)), r, reader.nextPos)
    {
      var count := reader.ReadShort();
      if count.Failure? { return Failure(count.error); }
      if count.value < 0 { return Failure(NegativeLength); }
      r := Success(count.value);
    }

    method ReadInterfaces(count: nat) returns (r: Option<Error>)
      modifies reader, this`interfacesRefs
      ensures match InterfacesFrom(reader.bytes, old(reader.nextPos), count, constantPool, old(interfacesRefs))
        case Success((refs, next)) => r == None && interfacesRefs == refs && reader.nextPos == next
        case Failure(e) => r == Some(e)
    {
      for i := 0 to count
        invariant InterfacesFrom(reader.bytes, old(reader.nextPos), count, constantPool, old(interfacesRefs))
          == InterfacesFrom(reader.bytes, reader.nextPos, count - i, constantPool, interfacesRefs)
      {
        var index := reader.ReadShort();
        if index.Failure? { return Some(index.error); }
        var name := GetConstantString(constantPool, index.value, CONSTANT_CLASS);
        if name.Failure? { return Some(name.error); }
        interfacesRefs := interfacesRefs + {name.value};
      }
      r := None;
    }

    method ReadFields(count: nat) returns (r: Option<Error>)
      modifies reader, this`fieldRefs
      ensures match FieldsFrom(reader.bytes, old(reader.nextPos), count, constantPool, old(fieldRefs))
        case Success((refs, next)) => r == None && fieldRefs == refs && reader.nextPos == next
        case Failure(e) => r == Some(e)
    {
      for i := 0 to count
        invariant FieldsFrom(reader.bytes, old(reader.nextPos), count, constantPool, old(fieldRefs))
          == FieldsFrom(reader.bytes, reader.nextPos, count - i, constantPool, fieldRefs)
      {
        hide MemberAt;
        var signature := ReadMember(reader, constantPool);
        if signature.Failure? { return Some(signature.error); }
        fieldRefs := D.SaveRef(D.ClassNameFromSignature(signature.value), fieldRefs);
      }
      r := None;
    }

    method ReadMethods(count: nat) returns (r: Option<Error>)
      modifies reader, this`methodRefs
      ensures match MethodsFrom(reader.bytes, old(reader.nextPos), count, constantPool, old(methodRefs))
        case Success((refs, next)) => r == None && methodRefs == refs && reader.nextPos == next
        case Failure(e) => r == Some(e)
    {
      for i := 0 to count
        invariant MethodsFrom(reader.bytes, old(reader.nextPos), count, constantPool, old(methodRefs))
          == MethodsFrom(reader.bytes, reader.nextPos, count - i, constantPool, methodRefs)
      {
        hide MemberAt;
        var signature := ReadMember(reader, constantPool);
        if signature.Failure? { return Some(signature.error); }
        var refs := SaveMethodRefs(signature.value, methodRefs);
        if refs.Failure? { return Some(refs.error); }
        methodRefs := refs.value;
      }
      r := None;
    }

    /** The header: everything up to the superclass. */
    method ReadHeader() returns (r: Option<Error>)
      requires reader.nextPos == 0
      modifies reader, this`constantPool, this`className, this`superClassName
      ensures match HeaderOf(reader.bytes)
        case Success((h, next)) => r == None && Header(constantPool, className, superClassName) == h
          && reader.nextPos == next
        case Failure(e) => r == Some(e)
    {
      r := ReadMagicIdAndVersions();
      if r.Some? { return; }
      var pool := ReadPool(reader);
      if pool.Failure? { return Some(pool.error); }
      constantPool := pool.value;
      r := ReadClassInfo();
    }

    method ReadMembers() returns (r: Option<Error>)
      requires interfacesRefs == fieldRefs == methodRefs == {}
      modifies reader, this`interfacesRefs, this`fieldRefs, this`methodRefs
      ensures match ParseMembers(reader.bytes, old(reader.nextPos), Header(constantPool, className, superClassName))
        case Success((refs, next)) =>
          r == None && Refs(className, superClassName, interfacesRefs, fieldRefs, methodRefs) == refs
            && reader.nextPos == next
        case Failure(e) => r == Some(e)
    {
      var count := ReadCount();
      if count.Failure? { return Some(count.error); }
      r := ReadInterfaces(count.value);
      if r.Some? { return; }
      count := ReadCount();
      if count.Failure? { return Some(count.error); }
      r := ReadFields(count.value);
      if r.Some? { return; }
      count := ReadCount();
      if count.Failure? { return Some(count.error); }
      r := ReadMethods(count.value);
    }

    method Parse() returns (r: Option<Error>)
      requires reader.nextPos == 0 && interfacesRefs == fieldRefs == methodRefs == allRefs == {}
      modifies reader, this
      ensures match ClassFileParsing.Parse(reader.bytes)
        case Success((refs, next)) =>
          && r == None && reader.nextPos == next && allRefs == AllRefs(refs)
          && Refs(className, superClassName, interfacesRefs, fieldRefs, methodRefs) == refs
        case Failure(e) => r == Some(e)
    {
      r := ReadHeader();
      if r.Some? { return; }
      r := ReadMembers();
      if r.Some? { return; }
      allRefs := allRefs + {superClassName};
      allRefs := allRefs + interfacesRefs;
      allRefs := allRefs + fieldRefs;
      allRefs := allRefs + methodRefs;
    }

    static method ParseJustName(data: seq<Byte>) returns (r: Result<string, Error>)
      ensures r == ClassFileParsing.ParseJustName(data)
    {
      var parser := new ClassParser(data);
      var e := parser.ReadHeader();
      r := if e.Some? then Failure(e.value) else Success(parser.className);
    }
  }
}
