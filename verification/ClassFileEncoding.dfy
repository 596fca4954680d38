/** Class files as structures, their encoding to bytes, and the proof that the parser reads every encoded
    class file back. Constants refer to each other by entry, not by slot: turning entries into slots, past
    the constants that take two, is part of the encoding. */
module ClassFileEncoding {
  import opened Arithmetic
  import opened Wrappers
  import opened ByteReading
  import opened ClassFileParsing
  import D = Descriptors

  datatype Entry =
    | Utf8Entry(text: seq<Unit>)
    | ClassEntry(name: nat)
    | StringEntry(value: nat)
    | OtherEntry(tag: Byte, operands: seq<Byte>)
  {
    function Width(): nat {
      if OtherEntry? && (tag == CONSTANT_DOUBLE || tag == CONSTANT_LONG) then 2 else 1
    }
  }

  datatype Attribute = Attribute(name: nat, content: seq<Byte>)

  datatype Field = Field(access: nat, name: nat, descriptor: nat, fieldType: D.FieldType, attributes: seq<Attribute>)

  datatype Method = Method(access: nat, name: nat, descriptor: nat, methodType: D.MethodType,
      attributes: seq<Attribute>)

  /** `rest` is what follows the methods. */
  datatype ClassFile = ClassFile(minor: nat, major: nat, entries: seq<Entry>, access: nat, thisClass: nat,
      superClass: Option<nat>,
                                 interfaces: seq<nat>, fields: seq<Field>, methods: seq<Method>, rest: seq<Byte>)

  // Encoding

  function U2(n: nat): (r: seq<Byte>)
    ensures |r| == 2
  {
    [n / 256 % 256, n % 256]
  }

  function U4(n: nat): (r: seq<Byte>)
    ensures |r| == 4
  {
    U2(n / 65536) + U2(n)
  }

  /** The slot of entry k; with k the number of entries, the count that the pool starts with. */
  function Slot(entries: seq<Entry>, k: nat): (slot: nat)
    requires k <= |entries|
    ensures slot > k
  {
    if k == 0 then 1 else Slot(entries, k - 1) + entries[k - 1].Width()
  }

  function SlotOf(entries: seq<Entry>, k: nat): nat {
    if k < |entries| then Slot(entries, k) else 0
  }

  function EncodeEntry(entries: seq<Entry>, e: Entry): seq<Byte> {
    match e
    case Utf8Entry(text) => [CONSTANT_UTF8] + (U2(|EncodeText(text)|) + EncodeText(text))
    case ClassEntry(name) => [CONSTANT_CLASS] + U2(SlotOf(entries, name))
    case StringEntry(value) => [CONSTANT_STRING] + U2(SlotOf(entries, value))
    case OtherEntry(tag, operands) => [tag] + operands
  }

  function EncodeEntries(entries: seq<Entry>, k: nat): seq<Byte>
    requires k <= |entries|
    decreases |entries| - k
  {
    if k == |entries| then [] else EncodeEntry(entries, entries[k]) + EncodeEntries(entries, k + 1)
  }

  function EncodePool(entries: seq<Entry>): seq<Byte> {
    U2(Slot(entries, |entries|)) + EncodeEntries(entries, 0)
  }

  function EncodeAttributes(entries: seq<Entry>, attributes: seq<Attribute>): seq<Byte> {
    if attributes == [] then [] else
      var a := attributes[0];
      U2(SlotOf(entries, a.name)) + (U4(|a.content|) + (a.content + EncodeAttributes(entries, attributes[1..])))
  }

  function EncodeMember(entries: seq<Entry>, access: nat, name: nat, descriptor: nat,
        attributes: seq<Attribute>): seq<Byte> {
    U2(access) + (U2(SlotOf(entries, name))
      + (U2(SlotOf(entries, descriptor)) + (U2(|attributes|) + EncodeAttributes(entries, attributes))))
  }

  function EncodeFields(entries: seq<Entry>, fields: seq<Field>): seq<Byte> {
    if fields == [] then [] else
      var f := fields[0];
      EncodeMember(entries, f.access, f.name, f.descriptor, f.attributes) + EncodeFields(entries, fields[1..])
  }

  function EncodeMethods(entries: seq<Entry>, methods: seq<Method>): seq<Byte> {
    if methods == [] then [] else
      var m := methods[0];
      EncodeMember(entries, m.access, m.name, m.descriptor, m.attributes) + EncodeMethods(entries, methods[1..])
  }

  function EncodeIndices(entries: seq<Entry>, indices: seq<nat>): seq<Byte> {
    if indices == [] then [] else U2(SlotOf(entries, indices[0])) + EncodeIndices(entries, indices[1..])
  }

  function EncodeClassInfo(cf: ClassFile): (r: seq<Byte>)
    ensures |r| == 6
  {
    U2(cf.access)
      + (U2(SlotOf(cf.entries, cf.thisClass))
        + U2(if cf.superClass.Some? then SlotOf(cf.entries, cf.superClass.value) else 0))
  }

  function EncodeHeader(cf: ClassFile): seq<Byte> {
    (U4(MAGIC) + (U2(cf.minor) + U2(cf.major))) + (EncodePool(cf.entries) + EncodeClassInfo(cf))
  }

  function EncodeMembers(cf: ClassFile): seq<Byte> {
    (U2(|cf.interfaces|) + EncodeIndices(cf.entries, cf.interfaces))
    + ((U2(|cf.fields|) + EncodeFields(cf.entries, cf.fields))
      + (U2(|cf.methods|) + EncodeMethods(cf.entries, cf.methods)))
  }

  function Encode(cf: ClassFile): seq<Byte> {
    EncodeHeader(cf) + (EncodeMembers(cf) + cf.rest)
  }

  // Which structures are class files

  /** Two-byte numbers from the first limit on are read as negative; none reaches the second. */
  const LIMIT := 0x8000

  const U2_LIMIT := 0x1_0000

  predicate IsUtf8(entries: seq<Entry>, k: nat) {
    k < |entries| && entries[k].Utf8Entry?
  }

  predicate IsClass(entries: seq<Entry>, k: nat) {
    k < |entries| && entries[k].ClassEntry? && IsUtf8(entries, entries[k].name)
  }

  predicate EntryShaped(entries: seq<Entry>, e: Entry) {
    match e
    case Utf8Entry(text) => |EncodeText(text)| < U2_LIMIT
    case ClassEntry(name) => IsUtf8(entries, name)
    case StringEntry(value) => IsUtf8(entries, value)
    case OtherEntry(tag, operands) => OperandSize(tag) == Some(|operands|)
  }

  predicate AttributesShaped(entries: seq<Entry>, attributes: seq<Attribute>) {
    |attributes| < U2_LIMIT
    && forall i :: 0 <= i < |attributes| ==>
         IsUtf8(entries, attributes[i].name) && |attributes[i].content| < 0x8000_0000
  }

  predicate FieldShaped(entries: seq<Entry>, f: Field) {
    && f.access < U2_LIMIT && IsUtf8(entries, f.name) && IsUtf8(entries, f.descriptor)
    && AttributesShaped(entries, f.attributes)
    && D.IsType(f.fieldType) && Shown(entries[f.descriptor].text) == D.TypeText(f.fieldType)
  }

  predicate MethodShaped(entries: seq<Entry>, m: Method) {
    && m.access < U2_LIMIT && IsUtf8(entries, m.name) && IsUtf8(entries, m.descriptor)
    && AttributesShaped(entries, m.attributes)
    && D.IsMethodType(m.methodType)
    && Shown(entries[m.descriptor].text) == D.DescriptorText(m.methodType)
  }

  /** The class is not final and also abstract or an interface. */
  predicate FlagsOk(access: int) {
    !(HasFlag(access, ACC_FINAL) && (HasFlag(access, ACC_ABSTRACT) || HasFlag(access, ACC_INTERFACE)))
  }

  /** Every two-byte number fits two bytes and every index points to a constant of the right kind. */
  predicate WellShaped(cf: ClassFile) {
    && cf.minor < U2_LIMIT && cf.major < U2_LIMIT && cf.access < U2_LIMIT
    && Slot(cf.entries, |cf.entries|) < U2_LIMIT
    && (forall k :: 0 <= k < |cf.entries| ==> EntryShaped(cf.entries, cf.entries[k]))
    && IsClass(cf.entries, cf.thisClass) && (cf.superClass.Some? ==> IsClass(cf.entries, cf.superClass.value))
    && |cf.interfaces| < U2_LIMIT && (forall i :: 0 <= i < |cf.interfaces| ==> IsClass(cf.entries, cf.interfaces[i]))
    && |cf.fields| < U2_LIMIT && (forall i :: 0 <= i < |cf.fields| ==> FieldShaped(cf.entries, cf.fields[i]))
    && |cf.methods| < U2_LIMIT && (forall i :: 0 <= i < |cf.methods| ==> MethodShaped(cf.entries, cf.methods[i]))
  }

  // Which of them can be read

  predicate EntryShort(e: Entry) {
    e.Utf8Entry? ==> |EncodeText(e.text)| < LIMIT
  }

  predicate EntryOk(entries: seq<Entry>, e: Entry) {
    EntryShaped(entries, e) && EntryShort(e)
  }

  predicate PoolOk(entries: seq<Entry>) {
    Slot(entries, |entries|) < LIMIT && forall k :: 0 <= k < |entries| ==> EntryOk(entries, entries[k])
  }

  predicate AttributesOk(entries: seq<Entry>, attributes: seq<Attribute>) {
    AttributesShaped(entries, attributes) && |attributes| < LIMIT
  }

  predicate FieldOk(entries: seq<Entry>, f: Field) {
    FieldShaped(entries, f) && |f.attributes| < LIMIT
  }

  /** Why the first of the methods that cannot be read is not: too many attributes, or a parenthesis in the
      class name of a parameter. */
  function FirstBroken(methods: seq<Method>): (r: Option<Error>)
    ensures r.Some? ==> r.value == NegativeLength || r.value == Endless
  {
    if methods == [] then None
    else if |methods[0].attributes| >= LIMIT then Some(NegativeLength)
    else if !D.ParamsReadable(methods[0].methodType.params) then Some(Endless)
    else FirstBroken(methods[1..])
  }

  /** The number of pool slots, the length of every text and every count before the methods, their own number
      included, is below 32768. There is no limit on versions and access flags. */
  predicate CountsSmall(cf: ClassFile) {
    && Slot(cf.entries, |cf.entries|) < LIMIT && (forall k :: 0 <= k < |cf.entries| ==> EntryShort(cf.entries[k]))
    && |cf.interfaces| < LIMIT && |cf.fields| < LIMIT && |cf.methods| < LIMIT
    && (forall i :: 0 <= i < |cf.fields| ==> |cf.fields[i].attributes| < LIMIT)
  }

  /** Every method has less than 32768 attributes, and none of its class names that matter holds a
      parenthesis. */
  predicate MethodsReadable(methods: seq<Method>) {
    forall i :: 0 <= i < |methods| ==> |methods[i].attributes| < LIMIT && D.NoParentheses(methods[i].methodType)
  }

  // What a class file refers to

  function NameOf(entries: seq<Entry>, k: nat): string
    requires IsClass(entries, k)
  {
    Shown(entries[entries[k].name].text)
  }

  function FieldClasses(fields: seq<Field>): set<string> {
    set i | 0 <= i < |fields| && fields[i].fieldType.Object? :: fields[i].fieldType.name
  }

  function ClassesOf(d: D.MethodType): set<string> {
    D.ParamClasses(d.params) + D.PlainClass(d.result)
  }

  function MethodClasses(methods: seq<Method>): set<string> {
    set i, n | 0 <= i < |methods| && n in ClassesOf(methods[i].methodType) :: n
  }

  /** What the code takes for them. */
  function SeenIn(d: D.MethodType): set<string> {
    D.ParamClasses(d.params) + D.ResultSeen(d.result)
  }

  function MethodsSeen(methods: seq<Method>): set<string> {
    if methods == [] then {} else SeenIn(methods[0].methodType) + MethodsSeen(methods[1..])
  }

  function InterfaceNames(entries: seq<Entry>, interfaces: seq<nat>): set<string>
    requires forall i :: 0 <= i < |interfaces| ==> IsClass(entries, interfaces[i])
  {
    set i | 0 <= i < |interfaces| :: NameOf(entries, interfaces[i])
  }

  function RefsOf(cf: ClassFile): Refs
    requires WellShaped(cf)
  {
    Refs(NameOf(cf.entries, cf.thisClass),
      if cf.superClass.Some? then NameOf(cf.entries, cf.superClass.value) else OBJECT,
         InterfaceNames(cf.entries, cf.interfaces), FieldClasses(cf.fields), MethodClasses(cf.methods))
  }

  // Bytes at a position

  predicate At(b: seq<Byte>, pos: int, xs: seq<Byte>) {
    0 <= pos && pos + |xs| <= |b| && forall i :: 0 <= i < |xs| ==> xs[i] == b[pos + i]
  }

  lemma AtSplit(b: seq<Byte>, pos: int, xs: seq<Byte>, ys: seq<Byte>)
    requires At(b, pos, xs + ys)
    ensures At(b, pos, xs) && At(b, pos + |xs|, ys)
  {
    assert forall i :: 0 <= i < |xs| ==> xs[i] == (xs + ys)[i];
    assert forall i :: 0 <= i < |ys| ==> ys[i] == (xs + ys)[|xs| + i];
  }

  /** A two-byte number is read as a signed one. */
  lemma ShortIsSigned(b: seq<Byte>, pos: int, n: nat)
    requires At(b, pos, U2(n)) && n < U2_LIMIT
    ensures ShortAt(b, pos) == Success((if n < LIMIT then n else n - 0x1_0000, pos + 2))
  {
    assert U2(n)[0] == b[pos + 0] && U2(n)[1] == b[pos + 1];
  }

  lemma ShortIsRead(b: seq<Byte>, pos: int, n: nat)
    requires At(b, pos, U2(n)) && n < LIMIT
    ensures ShortAt(b, pos) == Success((n, pos + 2))
  {
    ShortIsSigned(b, pos, n);
  }

  lemma LastBytes(high: nat, c: nat, d: nat)
    requires c < 256 && d < 256
    ensures var n := (high * 256 + c) * 256 + d; n / 256 % 256 == c && n % 256 == d && n / 0x1_0000 == high
  {
    var n := (high * 256 + c) * 256 + d;
    ModUnique(n, 256, high * 256 + c, d);
    ModUnique(high * 256 + c, 256, high, c);
    ModUnique(n, 0x1_0000, high, c * 256 + d);
  }

  lemma FourBytes(n: nat)
    requires n < 0x1_0000_0000
    ensures BigEndian(BigEndian(BigEndian(n / 0x1_0000 / 256 % 256, n / 0x1_0000 % 256), n / 256 % 256), n % 256) == n
  {
    var high: nat, c: nat, d: nat := n / 0x1_0000, n / 256 % 256, n % 256;
    assert n == (n / 256) * 256 + d && n / 256 == (n / 256 / 256) * 256 + c;
    LastBytes(n / 256 / 256, c, d);
    var a: nat, e: nat := high / 256 % 256, high % 256;
    assert high == (high / 256) * 256 + e;
    LastBytes(0, a, e);
  }

  lemma IntIsRead(b: seq<Byte>, pos: int, n: nat)
    requires At(b, pos, U4(n)) && n < 0x1_0000_0000
    ensures IntAt(b, pos) == Success((Signed32(n), pos + 4))
  {
    hide BigEndian;
    assert U4(n)[0] == b[pos + 0] && U4(n)[1] == b[pos + 1] && U4(n)[2] == b[pos + 2] && U4(n)[3] == b[pos + 3];
    FourBytes(n);
  }

  lemma UtfIsRead(b: seq<Byte>, pos: int, text: seq<Unit>)
    requires At(b, pos, U2(|EncodeText(text)|) + EncodeText(text)) && |EncodeText(text)| < LIMIT
    ensures UtfAt(b, pos) == Success((Shown(text), pos + 2 + |EncodeText(text)|))
  {
    hide U2, ShortAt, EncodeText;
    var encoded := EncodeText(text);
    AtSplit(b, pos, U2(|encoded|), encoded);
    ShortIsRead(b, pos, |encoded|);
    var source := b[pos + 2..pos + 2 + |encoded|];
    assert source == encoded && source[0..] == encoded;
    DecodeInvertsEncode(source, 0, text);
  }

  // The constant pool

  function Image(entries: seq<Entry>, e: Entry): Constant {
    match e
    case Utf8Entry(text) => Utf8Constant(Shown(text))
    case ClassEntry(name) => ClassConstant(SlotOf(entries, name))
    case StringEntry(value) => StringConstant(SlotOf(entries, value))
    case OtherEntry(tag, _) => OtherConstant(tag)
  }

  lemma {:induction false} SlotsGrow(entries: seq<Entry>, j: nat, k: nat)
    requires j < k <= |entries|
    ensures Slot(entries, j) + entries[j].Width() <= Slot(entries, k)
    decreases k
  {
    if j >= k - 1 {
    } else {
      SlotsGrow(entries, j, k - 1);
    }
  }

  lemma SlotBound(entries: seq<Entry>, k: nat)
    requires Slot(entries, |entries|) < LIMIT && k < |entries|
    ensures 0 < SlotOf(entries, k) < Slot(entries, |entries|) < LIMIT
  {
    SlotsGrow(entries, k, |entries|);
  }

  lemma TagIsRead(b: seq<Byte>, pos: int, tag: Byte, body: seq<Byte>)
    requires At(b, pos, [tag] + body)
    ensures ByteAt(b, pos) == Success((tag as int, pos + 1)) && At(b, pos + 1, body)
  {
    assert ([tag] + body)[0] == b[pos + 0];
    AtSplit(b, pos, [tag], body);
  }

  lemma IndexIsRead(b: seq<Byte>, pos: int, entries: seq<Entry>, tag: Byte, k: nat)
    requires Slot(entries, |entries|) < LIMIT && k < |entries| && tag in {CONSTANT_CLASS, CONSTANT_STRING}
    requires At(b, pos, [tag] + U2(SlotOf(entries, k)))
    ensures ConstantAt(b, pos)
      == Success((if tag == CONSTANT_CLASS
        then ClassConstant(SlotOf(entries, k)) else StringConstant(SlotOf(entries, k)), pos + 3))
  {
    hide At, ByteAt, ShortAt, U2, UtfAt;
    TagIsRead(b, pos, tag, U2(SlotOf(entries, k)));
    SlotBound(entries, k);
    ShortIsRead(b, pos + 1, SlotOf(entries, k));
  }

  lemma TextIsRead(b: seq<Byte>, pos: int, text: seq<Unit>)
    requires |EncodeText(text)| < LIMIT && At(b, pos, [CONSTANT_UTF8] + (U2(|EncodeText(text)|) + EncodeText(text)))
    ensures ConstantAt(b, pos) == Success((Utf8Constant(Shown(text)), pos + 3 + |EncodeText(text)|))
  {
    hide At, ByteAt, ShortAt, U2, UtfAt, Shown, EncodeText;
    TagIsRead(b, pos, CONSTANT_UTF8, U2(|EncodeText(text)|) + EncodeText(text));
    UtfIsRead(b, pos + 1, text);
  }

  lemma OtherIsRead(b: seq<Byte>, pos: int, tag: Byte, operands: seq<Byte>)
    requires OperandSize(tag) == Some(|operands|) && At(b, pos, [tag] + operands)
    ensures ConstantAt(b, pos) == Success((OtherConstant(tag), pos + 1 + |operands|))
  {
    hide ByteAt, ShortAt, UtfAt;
    TagIsRead(b, pos, tag, operands);
  }

  lemma EntryIsRead(b: seq<Byte>, pos: int, entries: seq<Entry>, e: Entry)
    requires Slot(entries, |entries|) < LIMIT && EntryOk(entries, e) && At(b, pos, EncodeEntry(entries, e))
    ensures ConstantAt(b, pos) == Success((Image(entries, e), pos + |EncodeEntry(entries, e)|))
  {
    hide At, U2, ConstantAt, Shown, EncodeText, OperandSize;
    match e {
      case Utf8Entry(text) => TextIsRead(b, pos, text);
      case ClassEntry(name) => IndexIsRead(b, pos, entries, CONSTANT_CLASS, name);
      case StringEntry(value) => IndexIsRead(b, pos, entries, CONSTANT_STRING, value);
      case OtherEntry(tag, operands) => OtherIsRead(b, pos, tag, operands);
    }
  }

  /** The table once the entries from k on are in their slots. */
  function Fill(entries: seq<Entry>, k: nat, table: Table): (r: Table)
    requires k <= |entries| && |table| == Slot(entries, |entries|)
    ensures |r| == |table|
    decreases |entries| - k
  {
    if k == |entries| then table
    else
      SlotsGrow(entries, k, |entries|);
      Fill(entries, k + 1, table[Slot(entries, k) := Some(Image(entries, entries[k]))])
  }

  function TableOf(entries: seq<Entry>): Table {
    Fill(entries, 0, Empty(Slot(entries, |entries|)))
  }

  lemma EntryStep(b: seq<Byte>, pos: int, entries: seq<Entry>, k: nat, table: Table)
    requires k < |entries| && |table| == Slot(entries, |entries|) < LIMIT && EntryOk(entries, entries[k])
    requires At(b, pos, EncodeEntries(entries, k))
    ensures var (next, size) := (Some(Image(entries, entries[k])), |EncodeEntry(entries, entries[k])|);
      && Slot(entries, k) < |table|
      && EntriesAt(b, pos, Slot(entries, k), table)
           == EntriesAt(b, pos + size, Slot(entries, k + 1), table[Slot(entries, k) := next])
      && At(b, pos + size, EncodeEntries(entries, k + 1))
      && |EncodeEntries(entries, k)| == size + |EncodeEntries(entries, k + 1)|
  {
    hide At, ConstantAt, EncodeEntry, EntryOk;
    AtSplit(b, pos, EncodeEntry(entries, entries[k]), EncodeEntries(entries, k + 1));
    EntryIsRead(b, pos, entries, entries[k]);
    SlotsGrow(entries, k, |entries|);
  }

  lemma {:induction false} EntriesAreRead(b: seq<Byte>, pos: int, entries: seq<Entry>, k: nat, table: Table)
    requires PoolOk(entries) && k <= |entries| && |table| == Slot(entries, |entries|)
    requires At(b, pos, EncodeEntries(entries, k))
    ensures EntriesAt(b, pos, Slot(entries, k), table)
      == Success((Fill(entries, k, table), pos + |EncodeEntries(entries, k)|))
    decreases |entries| - k
  {
    hide At, ConstantAt, EncodeEntry, Image, EntryOk, Slot;
    if k == |entries| {
    } else {
      EntryStep(b, pos, entries, k, table);
      EntriesAreRead(b, pos + |EncodeEntry(entries, entries[k])|, entries, k + 1,
        table[Slot(entries, k) := Some(Image(entries, entries[k]))]);
    }
  }

  lemma PoolIsRead(b: seq<Byte>, pos: int, entries: seq<Entry>)
    requires PoolOk(entries) && At(b, pos, EncodePool(entries))
    ensures PoolAt(b, pos) == Success((TableOf(entries), pos + |EncodePool(entries)|))
  {
    hide At, EncodeEntries, EntriesAt, U2, ShortAt, EntryOk;
    var count := Slot(entries, |entries|);
    AtSplit(b, pos, U2(count), EncodeEntries(entries, 0));
    ShortIsRead(b, pos, count);
    EntriesAreRead(b, pos + 2, entries, 0, Empty(count));
  }

  /** A text of 32768 bytes or more: its length is read as a negative one. */
  lemma LongTextFails(b: seq<Byte>, pos: int, entries: seq<Entry>, e: Entry)
    requires EntryShaped(entries, e) && !EntryShort(e) && At(b, pos, EncodeEntry(entries, e))
    ensures ConstantAt(b, pos) == Failure(NegativeLength)
  {
    hide U2, EncodeText, ShortAt, At, ByteAt;
    var length := |EncodeText(e.text)|;
    TagIsRead(b, pos, CONSTANT_UTF8, U2(length) + EncodeText(e.text));
    AtSplit(b, pos + 1, U2(length), EncodeText(e.text));
    ShortIsSigned(b, pos + 1, length);
  }

  lemma {:induction false} EntriesFail(b: seq<Byte>, pos: int, entries: seq<Entry>, k: nat, table: Table)
    requires k <= |entries| && |table| == Slot(entries, |entries|) < LIMIT && At(b, pos, EncodeEntries(entries, k))
    requires forall j :: k <= j < |entries| ==> EntryShaped(entries, entries[j])
    requires exists j :: k <= j < |entries| && !EntryShort(entries[j])
    ensures EntriesAt(b, pos, Slot(entries, k), table) == Failure(NegativeLength)
    decreases |entries| - k
  {
    hide At, ConstantAt, EncodeEntry, Image, EntryShaped, EntryShort, Slot;
    if EntryShort(entries[k]) {
      EntryStep(b, pos, entries, k, table);
      EntriesFail(b, pos + |EncodeEntry(entries, entries[k])|, entries, k + 1,
        table[Slot(entries, k) := Some(Image(entries, entries[k]))]);
    } else {
      SlotsGrow(entries, k, |entries|);
      AtSplit(b, pos, EncodeEntry(entries, entries[k]), EncodeEntries(entries, k + 1));
      LongTextFails(b, pos, entries, entries[k]);
    }
  }

  lemma PoolFails(b: seq<Byte>, pos: int, entries: seq<Entry>)
    requires Slot(entries, |entries|) < U2_LIMIT
    requires (forall k :: 0 <= k < |entries| ==> EntryShaped(entries, entries[k]))
    requires !PoolOk(entries) && At(b, pos, EncodePool(entries))
    ensures PoolAt(b, pos) == Failure(NegativeLength)
  {
    hide At, EncodeEntries, EntriesAt, U2, ShortAt, EntryShaped, EntryShort;
    var count := Slot(entries, |entries|);
    AtSplit(b, pos, U2(count), EncodeEntries(entries, 0));
    ShortIsSigned(b, pos, count);
    if count < LIMIT {
      EntriesFail(b, pos + 2, entries, 0, Empty(count));
    }
  }

  lemma {:induction false} FillKeeps(entries: seq<Entry>, k: nat, table: Table, slot: nat)
    requires k <= |entries| && |table| == Slot(entries, |entries|) && slot < Slot(entries, k) && slot < |table|
    ensures Fill(entries, k, table)[slot] == table[slot]
    decreases |entries| - k
  {
    if k == |entries| {
    } else {
      SlotsGrow(entries, k, |entries|);
      FillKeeps(entries, k + 1, table[Slot(entries, k) := Some(Image(entries, entries[k]))], slot);
    }
  }

  /** Every entry is found in its slot, however many two-slot constants precede it. */
  lemma {:induction false} EntryIsInItsSlot(entries: seq<Entry>, k: nat, j: nat, table: Table)
    requires k <= j < |entries| && |table| == Slot(entries, |entries|)
    ensures Slot(entries, j) < |table| && Fill(entries, k, table)[Slot(entries, j)] == Some(Image(entries, entries[j]))
    decreases |entries| - k
  {
    SlotsGrow(entries, j, |entries|);
    SlotsGrow(entries, k, |entries|);
    var next := table[Slot(entries, k) := Some(Image(entries, entries[k]))];
    if k == j {
      FillKeeps(entries, k + 1, next, Slot(entries, j));
    } else {
      EntryIsInItsSlot(entries, k + 1, j, next);
    }
  }

  /** Looking up an entry's slot finds what the entry says. */
  ghost predicate Resolves(entries: seq<Entry>, table: Table) {
    && (forall k: nat {:trigger IsUtf8(entries, k)} :: IsUtf8(entries, k) ==>
          GetUtf8(table, SlotOf(entries, k)) == Success(Shown(entries[k].text)))
    && (forall k: nat {:trigger IsClass(entries, k)} :: IsClass(entries, k) ==>
          GetConstantString(table, SlotOf(entries, k), CONSTANT_CLASS) == Success(NameOf(entries, k)))
  }

  lemma TableResolves(entries: seq<Entry>)
    ensures Resolves(entries, TableOf(entries))
  {
    forall k: nat | IsUtf8(entries, k)
      ensures GetUtf8(TableOf(entries), SlotOf(entries, k)) == Success(Shown(entries[k].text))
    {
      EntryIsInItsSlot(entries, 0, k, Empty(Slot(entries, |entries|)));
    }
    forall k: nat | IsClass(entries, k)
      ensures GetConstantString(TableOf(entries), SlotOf(entries, k), CONSTANT_CLASS) == Success(NameOf(entries, k))
    {
      EntryIsInItsSlot(entries, 0, k, Empty(Slot(entries, |entries|)));
      EntryIsInItsSlot(entries, 0, entries[k].name, Empty(Slot(entries, |entries|)));
    }
  }

  lemma {:induction false} OtherSlotsStay(entries: seq<Entry>, k: nat, table: Table, slot: nat)
    requires k <= |entries| && |table| == Slot(entries, |entries|) && slot < |table|
    requires forall j :: k <= j < |entries| ==> Slot(entries, j) != slot
    ensures Fill(entries, k, table)[slot] == table[slot]
    decreases |entries| - k
  {
    if k == |entries| {
    } else {
      SlotsGrow(entries, k, |entries|);
      OtherSlotsStay(entries, k + 1, table[Slot(entries, k) := Some(Image(entries, entries[k]))], slot);
    }
  }

  function EntryTag(e: Entry): int {
    match e
    case Utf8Entry(_) => 1
    case ClassEntry(_) => 7
    case StringEntry(_) => 8
    case OtherEntry(tag, _) => tag
  }

  /** What a lookup in the table of a pool comes to: an index outside the slots is invalid, one that is no entry's
      slot, which are 0 and the second slots of two-slot constants, holds nothing, and an entry is given exactly
      if it has the tag asked for. */
  lemma LookupOutcome(entries: seq<Entry>, index: int, tag: int)
    ensures !(0 <= index < Slot(entries, |entries|)) ==>
      GetConstant(TableOf(entries), index, tag) == Failure(InvalidIndex(index))
    ensures 0 <= index < Slot(entries, |entries|) && (forall k :: 0 <= k < |entries| ==> Slot(entries, k) != index) ==>
      GetConstant(TableOf(entries), index, tag) == Failure(NullConstant(index))
    ensures forall k :: 0 <= k < |entries| && Slot(entries, k) == index ==>
      GetConstant(TableOf(entries), index, tag) ==
        if EntryTag(entries[k]) == tag then Success(Image(entries, entries[k])) else Failure(WrongTag(tag))
  {
    hide Fill, Slot;
    var empty := Empty(Slot(entries, |entries|));
    if 0 <= index < |empty| && forall k :: 0 <= k < |entries| ==> Slot(entries, k) != index {
      OtherSlotsStay(entries, 0, empty, index);
    }
    forall k | 0 <= k < |entries| && Slot(entries, k) == index
      ensures GetConstant(TableOf(entries), index, tag) ==
        if EntryTag(entries[k]) == tag then Success(Image(entries, entries[k])) else Failure(WrongTag(tag))
    {
      EntryIsInItsSlot(entries, 0, k, empty);
    }
  }

  // The header

  /** The sign does not touch the flags. */
  lemma SignedFlags(access: nat)
    requires access < U2_LIMIT
    ensures forall flag :: flag in {ACC_FINAL, ACC_INTERFACE, ACC_ABSTRACT} ==>
      HasFlag(Signed16(access), flag) == HasFlag(access, flag)
  {
  }

  lemma ClassInfoIsRead(b: seq<Byte>, pos: int, cf: ClassFile, table: Table)
    requires WellShaped(cf) && PoolOk(cf.entries) && Resolves(cf.entries, table) && At(b, pos, EncodeClassInfo(cf))
    ensures ClassInfoAt(b, pos, table)
      == if FlagsOk(cf.access)
        then Success(((RefsOf(cf).className, RefsOf(cf).superClassName), pos + 6)) else Failure(FinalAndAbstract)
  {
    hide At, U2, ShortAt, FieldShaped, MethodShaped, EntryOk, EntryShaped, HasFlag, GetConstantString, InterfaceNames,
      MethodClasses, FieldClasses;
    var super := if cf.superClass.Some? then SlotOf(cf.entries, cf.superClass.value) else 0;
    AtSplit(b, pos, U2(cf.access), U2(SlotOf(cf.entries, cf.thisClass)) + U2(super));
    AtSplit(b, pos + 2, U2(SlotOf(cf.entries, cf.thisClass)), U2(super));
    SlotBound(cf.entries, cf.thisClass);
    if cf.superClass.Some? { SlotBound(cf.entries, cf.superClass.value); }
    ShortIsSigned(b, pos, cf.access);
    SignedFlags(cf.access);
    ShortIsRead(b, pos + 2, SlotOf(cf.entries, cf.thisClass));
    ShortIsRead(b, pos + 4, super);
  }

  lemma PrologueIsRead(b: seq<Byte>, minor: nat, major: nat)
    requires minor < U2_LIMIT && major < U2_LIMIT && At(b, 0, U4(MAGIC) + (U2(minor) + U2(major)))
    ensures PrologueAt(b, 0) == Success(8)
  {
    AtSplit(b, 0, U4(MAGIC), U2(minor) + U2(major));
    AtSplit(b, 4, U2(minor), U2(major));
    IntIsRead(b, 0, MAGIC);
    ShortIsSigned(b, 4, minor);
    ShortIsSigned(b, 6, major);
  }

  lemma HeaderIsRead(b: seq<Byte>, cf: ClassFile)
    requires WellShaped(cf) && PoolOk(cf.entries) && At(b, 0, EncodeHeader(cf))
    ensures HeaderOf(b)
      == if FlagsOk(cf.access)
        then Success((Header(TableOf(cf.entries), RefsOf(cf).className, RefsOf(cf).superClassName), |EncodeHeader(cf)|))
         else Failure(FinalAndAbstract)
  {
    hide FlagsOk, At, EncodePool, EncodeClassInfo, PoolAt, PrologueAt, ClassInfoAt, RefsOf, TableOf, Resolves, U2, U4,
      PoolOk, IsClass;
    var prologue, pool := U4(MAGIC) + (U2(cf.minor) + U2(cf.major)), EncodePool(cf.entries);
    AtSplit(b, 0, prologue, pool + EncodeClassInfo(cf));
    AtSplit(b, 8, pool, EncodeClassInfo(cf));
    PrologueIsRead(b, cf.minor, cf.major);
    PoolIsRead(b, 8, cf.entries);
    TableResolves(cf.entries);
    ClassInfoIsRead(b, 8 + |pool|, cf, TableOf(cf.entries));
  }

  /** A pool that is too large, or a text in it, ends the parse whatever follows. */
  lemma HeaderFails(b: seq<Byte>, cf: ClassFile)
    requires WellShaped(cf) && !PoolOk(cf.entries) && At(b, 0, EncodeHeader(cf))
    ensures HeaderOf(b) == Failure(NegativeLength)
  {
    hide At, EncodePool, EncodeClassInfo, PoolAt, PrologueAt, U2, U4, PoolOk, IsClass, FieldShaped, MethodShaped,
      EntryShaped;
    var prologue, pool := U4(MAGIC) + (U2(cf.minor) + U2(cf.major)), EncodePool(cf.entries);
    AtSplit(b, 0, prologue, pool + EncodeClassInfo(cf));
    AtSplit(b, 8, pool, EncodeClassInfo(cf));
    PrologueIsRead(b, cf.minor, cf.major);
    PoolFails(b, 8, cf.entries);
  }

  // Interfaces, fields and methods

  lemma InterfaceStep(b: seq<Byte>, pos: int, entries: seq<Entry>, interfaces: seq<nat>, table: Table,
        refs: set<string>)
    requires PoolOk(entries) && Resolves(entries, table) && At(b, pos, EncodeIndices(entries, interfaces))
    requires interfaces != [] && IsClass(entries, interfaces[0])
    ensures InterfacesFrom(b, pos, |interfaces|, table, refs)
      == InterfacesFrom(b, pos + 2, |interfaces| - 1, table, refs + {NameOf(entries, interfaces[0])})
    ensures At(b, pos + 2, EncodeIndices(entries, interfaces[1..]))
    ensures |EncodeIndices(entries, interfaces)| == 2 + |EncodeIndices(entries, interfaces[1..])|
  {
    hide At, U2, ShortAt, GetConstantString, NameOf, EntryOk;
    AtSplit(b, pos, U2(SlotOf(entries, interfaces[0])), EncodeIndices(entries, interfaces[1..]));
    SlotBound(entries, interfaces[0]);
    ShortIsRead(b, pos, SlotOf(entries, interfaces[0]));
  }

  lemma UnionStep(a: set<string>, b: set<string>, c: set<string>)
    ensures a + b + c == a + (b + c)
  {
  }

  lemma InterfaceNamesStep(entries: seq<Entry>, interfaces: seq<nat>)
    requires interfaces != [] && forall i :: 0 <= i < |interfaces| ==> IsClass(entries, interfaces[i])
    ensures InterfaceNames(entries, interfaces)
      == {NameOf(entries, interfaces[0])} + InterfaceNames(entries, interfaces[1..])
  {
    assert forall i :: 1 <= i < |interfaces| ==> interfaces[i] == interfaces[1..][i - 1];
    forall n | n in InterfaceNames(entries, interfaces[1..]) ensures n in InterfaceNames(entries, interfaces) {
      var i :| 0 <= i < |interfaces| - 1 && n == NameOf(entries, interfaces[1..][i]);
      assert n == NameOf(entries, interfaces[i + 1]);
    }
  }

  lemma {:induction false} InterfacesAreRead(b: seq<Byte>, pos: int, entries: seq<Entry>, interfaces: seq<nat>,
        table: Table, refs: set<string>)
    requires PoolOk(entries) && Resolves(entries, table) && At(b, pos, EncodeIndices(entries, interfaces))
    requires forall i :: 0 <= i < |interfaces| ==> IsClass(entries, interfaces[i])
    ensures InterfacesFrom(b, pos, |interfaces|, table, refs)
      == Success((refs + InterfaceNames(entries, interfaces), pos + |EncodeIndices(entries, interfaces)|))
    decreases |interfaces|
  {
    hide At, U2, ShortAt, GetConstantString, NameOf, PoolOk, IsClass;
    if interfaces == [] {
      assert refs + InterfaceNames(entries, interfaces) == refs;
    } else {
      var first, more := {NameOf(entries, interfaces[0])}, interfaces[1..];
      InterfaceStep(b, pos, entries, interfaces, table, refs);
      InterfacesAreRead(b, pos + 2, entries, more, table, refs + first);
      InterfaceNamesStep(entries, interfaces);
      UnionStep(refs, first, InterfaceNames(entries, more));
    }
  }

  lemma AttributeStep(b: seq<Byte>, pos: int, entries: seq<Entry>, attributes: seq<Attribute>, table: Table)
    requires PoolOk(entries) && Resolves(entries, table) && attributes != [] && AttributesOk(entries, attributes)
    requires At(b, pos, EncodeAttributes(entries, attributes))
    ensures var (rest, size) := (attributes[1..], 6 + |attributes[0].content|);
      && AttributesFrom(b, pos, |attributes|, table) == AttributesFrom(b, pos + size, |rest|, table)
      && At(b, pos + size, EncodeAttributes(entries, rest))
      && |EncodeAttributes(entries, attributes)| == size + |EncodeAttributes(entries, rest)|
      && AttributesOk(entries, rest)
  {
    hide At, U2, U4, ShortAt, IntAt, GetUtf8, EntryOk;
    var a, more := attributes[0], EncodeAttributes(entries, attributes[1..]);
    AtSplit(b, pos, U2(SlotOf(entries, a.name)), U4(|a.content|) + (a.content + more));
    AtSplit(b, pos + 2, U4(|a.content|), a.content + more);
    AtSplit(b, pos + 6, a.content, more);
    SlotBound(entries, a.name);
    ShortIsRead(b, pos, SlotOf(entries, a.name));
    IntIsRead(b, pos + 2, |a.content|);
  }

  lemma {:induction false} AttributesAreRead(b: seq<Byte>, pos: int, entries: seq<Entry>, attributes: seq<Attribute>,
        table: Table)
    requires PoolOk(entries) && Resolves(entries, table) && AttributesOk(entries, attributes)
    requires At(b, pos, EncodeAttributes(entries, attributes))
    ensures AttributesFrom(b, pos, |attributes|, table) == Success(pos + |EncodeAttributes(entries, attributes)|)
    decreases |attributes|
  {
    hide At, U2, U4, ShortAt, IntAt, GetUtf8, PoolOk, IsUtf8;
    if attributes == [] {
    } else {
      AttributeStep(b, pos, entries, attributes, table);
      AttributesAreRead(b, pos + 6 + |attributes[0].content|, entries, attributes[1..], table);
    }
  }

  /** Where the parts of a field or method stand. */
  lemma MemberStandsAt(b: seq<Byte>, pos: int, entries: seq<Entry>, access: nat, name: nat, descriptor: nat,
        attributes: seq<Attribute>)
    requires At(b, pos, EncodeMember(entries, access, name, descriptor, attributes))
    ensures At(b, pos, U2(access)) && At(b, pos + 2, U2(SlotOf(entries, name)))
    ensures At(b, pos + 4, U2(SlotOf(entries, descriptor)))
    ensures At(b, pos + 6, U2(|attributes|)) && At(b, pos + 8, EncodeAttributes(entries, attributes))
  {
    hide At, U2, EncodeAttributes;
    var n, d, e := SlotOf(entries, name), SlotOf(entries, descriptor), EncodeAttributes(entries, attributes);
    AtSplit(b, pos, U2(access), U2(n) + (U2(d) + (U2(|attributes|) + e)));
    AtSplit(b, pos + 2, U2(n), U2(d) + (U2(|attributes|) + e));
    AtSplit(b, pos + 4, U2(d), U2(|attributes|) + e);
    AtSplit(b, pos + 6, U2(|attributes|), e);
  }

  lemma MemberIsRead(b: seq<Byte>, pos: int, entries: seq<Entry>, access: nat, name: nat, descriptor: nat,
        attributes: seq<Attribute>, table: Table)
    requires PoolOk(entries) && Resolves(entries, table)
    requires access < U2_LIMIT && IsUtf8(entries, name) && IsUtf8(entries, descriptor)
    requires AttributesOk(entries, attributes)
    requires At(b, pos, EncodeMember(entries, access, name, descriptor, attributes))
    ensures MemberAt(b, pos, table)
      == Success((Shown(entries[descriptor].text), pos + |EncodeMember(entries, access, name, descriptor, attributes)|))
  {
    hide At, U2, ShortAt, GetUtf8, EntryOk, AttributesFrom, EncodeAttributes, EncodeText;
    MemberStandsAt(b, pos, entries, access, name, descriptor, attributes);
    SlotBound(entries, name);
    SlotBound(entries, descriptor);
    ShortIsSigned(b, pos, access);
    ShortIsRead(b, pos + 2, SlotOf(entries, name));
    ShortIsRead(b, pos + 4, SlotOf(entries, descriptor));
    ShortIsRead(b, pos + 6, |attributes|);
    AttributesAreRead(b, pos + 8, entries, attributes, table);
  }

  /** Too many attributes: their number is read as a negative one. */
  lemma MemberFails(b: seq<Byte>, pos: int, entries: seq<Entry>, access: nat, name: nat, descriptor: nat,
        attributes: seq<Attribute>, table: Table)
    requires At(b, pos, EncodeMember(entries, access, name, descriptor, attributes)) && LIMIT <= |attributes| < U2_LIMIT
    ensures MemberAt(b, pos, table) == Failure(NegativeLength)
  {
    hide U2, EncodeAttributes;
    MemberStandsAt(b, pos, entries, access, name, descriptor, attributes);
    ShortIsSigned(b, pos + 6, |attributes|);
  }

  lemma FieldIsSaved(t: D.FieldType, refs: set<string>)
    requires D.IsType(t)
    ensures D.SaveRef(D.ClassNameFromSignature(D.TypeText(t)), refs) == refs + D.PlainClass(Some(t))
  {
    D.TypeNameOf(t);
    assert refs + {} == refs;
  }

  lemma FieldStep(b: seq<Byte>, pos: int, entries: seq<Entry>, fields: seq<Field>, table: Table, refs: set<string>)
    returns (size: nat)
    requires PoolOk(entries) && Resolves(entries, table) && At(b, pos, EncodeFields(entries, fields))
    requires fields != [] && FieldOk(entries, fields[0])
    ensures FieldsFrom(b, pos, |fields|, table, refs)
      == FieldsFrom(b, pos + size, |fields| - 1, table, refs + D.PlainClass(Some(fields[0].fieldType)))
    ensures At(b, pos + size, EncodeFields(entries, fields[1..]))
    ensures |EncodeFields(entries, fields)| == size + |EncodeFields(entries, fields[1..])|
  {
    hide At, MemberAt, EncodeMember, PoolOk, IsUtf8, AttributesShaped;
    var f := fields[0];
    var e := EncodeMember(entries, f.access, f.name, f.descriptor, f.attributes);
    size := |e|;
    AtSplit(b, pos, e, EncodeFields(entries, fields[1..]));
    MemberIsRead(b, pos, entries, f.access, f.name, f.descriptor, f.attributes, table);
    FieldIsSaved(f.fieldType, refs);
  }

  lemma FieldClassesStep(fields: seq<Field>)
    requires fields != []
    ensures FieldClasses(fields) == D.PlainClass(Some(fields[0].fieldType)) + FieldClasses(fields[1..])
  {
    assert forall i :: 1 <= i < |fields| ==> fields[i] == fields[1..][i - 1];
    forall n | n in FieldClasses(fields[1..]) ensures n in FieldClasses(fields) {
      var i :| 0 <= i < |fields| - 1 && fields[1..][i].fieldType.Object? && n == fields[1..][i].fieldType.name;
      assert fields[i + 1] == fields[1..][i];
    }
  }

  lemma {:induction false} FieldsAreRead(b: seq<Byte>, pos: int, entries: seq<Entry>, fields: seq<Field>, table: Table,
        refs: set<string>)
    requires PoolOk(entries) && Resolves(entries, table) && At(b, pos, EncodeFields(entries, fields))
    requires forall i :: 0 <= i < |fields| ==> FieldOk(entries, fields[i])
    ensures FieldsFrom(b, pos, |fields|, table, refs)
      == Success((refs + FieldClasses(fields), pos + |EncodeFields(entries, fields)|))
    decreases |fields|
  {
    hide At, MemberAt, EncodeMember, PoolOk, FieldOk;
    if fields == [] {
      assert refs + FieldClasses(fields) == refs;
    } else {
      var first, more := D.PlainClass(Some(fields[0].fieldType)), fields[1..];
      var size := FieldStep(b, pos, entries, fields, table, refs);
      FieldsAreRead(b, pos + size, entries, more, table, refs + first);
      FieldClassesStep(fields);
      UnionStep(refs, first, FieldClasses(more));
    }
  }

  lemma FieldIsShaped(entries: seq<Entry>, f: Field)
    ensures FieldShaped(entries, f) ==> |f.attributes| < U2_LIMIT
  {
  }

  lemma FirstFieldFails(b: seq<Byte>, pos: int, entries: seq<Entry>, fields: seq<Field>, table: Table,
        refs: set<string>)
    requires PoolOk(entries) && Resolves(entries, table) && At(b, pos, EncodeFields(entries, fields))
    requires fields != [] && FieldShaped(entries, fields[0]) && |fields[0].attributes| >= LIMIT
    ensures FieldsFrom(b, pos, |fields|, table, refs) == Failure(NegativeLength)
  {
    hide At, MemberAt, EncodeMember, PoolOk, Resolves, FieldShaped;
    var f := fields[0];
    AtSplit(b, pos, EncodeMember(entries, f.access, f.name, f.descriptor, f.attributes),
      EncodeFields(entries, fields[1..]));
    FieldIsShaped(entries, f);
    MemberFails(b, pos, entries, f.access, f.name, f.descriptor, f.attributes, table);
  }

  lemma {:induction false} FieldsFail(b: seq<Byte>, pos: int, entries: seq<Entry>, fields: seq<Field>, table: Table,
        refs: set<string>)
    requires PoolOk(entries) && Resolves(entries, table) && At(b, pos, EncodeFields(entries, fields))
    requires forall i :: 0 <= i < |fields| ==> FieldShaped(entries, fields[i])
    requires exists i :: 0 <= i < |fields| && |fields[i].attributes| >= LIMIT
    ensures FieldsFrom(b, pos, |fields|, table, refs) == Failure(NegativeLength)
    decreases |fields|
  {
    hide At, PoolOk, Resolves, FieldShaped, FieldsFrom, EncodeFields;
    var f, more := fields[0], fields[1..];
    if |f.attributes| < LIMIT {
      var size := FieldStep(b, pos, entries, fields, table, refs);
      var i :| 0 <= i < |fields| && |fields[i].attributes| >= LIMIT;
      assert more[i - 1] == fields[i];
      assert forall j :: 0 <= j < |more| ==> more[j] == fields[j + 1];
      FieldsFail(b, pos + size, entries, more, table, refs + D.PlainClass(Some(f.fieldType)));
    } else {
      FirstFieldFails(b, pos, entries, fields, table, refs);
    }
  }

  lemma MethodStep(b: seq<Byte>, pos: int, entries: seq<Entry>, methods: seq<Method>, table: Table, refs: set<string>)
      returns (size: nat)
    requires PoolOk(entries) && Resolves(entries, table) && At(b, pos, EncodeMethods(entries, methods))
    requires methods != [] && MethodShaped(entries, methods[0]) && |methods[0].attributes| < LIMIT
    ensures MethodsFrom(b, pos, |methods|, table, refs)
      == if D.ParamsReadable(methods[0].methodType.params)
         then MethodsFrom(b, pos + size, |methods| - 1, table, refs + SeenIn(methods[0].methodType))
         else Failure(Endless)
    ensures At(b, pos + size, EncodeMethods(entries, methods[1..]))
    ensures |EncodeMethods(entries, methods)| == size + |EncodeMethods(entries, methods[1..])|
  {
    hide At, MemberAt, EncodeMember, PoolOk, IsUtf8, AttributesShaped, D.MethodRefs, D.DescriptorText, D.ParamsReadable;
    var m := methods[0];
    var e := EncodeMember(entries, m.access, m.name, m.descriptor, m.attributes);
    size := |e|;
    AtSplit(b, pos, e, EncodeMethods(entries, methods[1..]));
    MemberIsRead(b, pos, entries, m.access, m.name, m.descriptor, m.attributes, table);
    D.MethodRefsAre(m.methodType, refs);
    UnionStep(refs, D.ParamClasses(m.methodType.params), D.ResultSeen(m.methodType.result));
  }

  lemma MethodIsShaped(entries: seq<Entry>, m: Method)
    ensures MethodShaped(entries, m) ==> |m.attributes| < U2_LIMIT
  {
  }

  /** The methods are read to the end, unless one of them cannot be read. */
  lemma {:induction false} MethodsAreRead(b: seq<Byte>, pos: int, entries: seq<Entry>, methods: seq<Method>,
        table: Table,
        refs: set<string>)
    requires PoolOk(entries) && Resolves(entries, table) && At(b, pos, EncodeMethods(entries, methods))
    requires forall i :: 0 <= i < |methods| ==> MethodShaped(entries, methods[i])
    ensures MethodsFrom(b, pos, |methods|, table, refs) ==
      match FirstBroken(methods)
      case Some(e) => Failure(e)
      case None => Success((refs + MethodsSeen(methods), pos + |EncodeMethods(entries, methods)|))
    decreases |methods|
  {
    hide At, MemberAt, EncodeMember, PoolOk, MethodShaped, Resolves, SeenIn, D.ParamsReadable;
    if methods == [] {
      assert refs + {} == refs;
    } else {
      var m, more := methods[0], methods[1..];
      MethodIsShaped(entries, m);
      if |m.attributes| < LIMIT {
        var size := MethodStep(b, pos, entries, methods, table, refs);
        if D.ParamsReadable(m.methodType.params) {
          MethodsAreRead(b, pos + size, entries, more, table, refs + SeenIn(m.methodType));
          UnionStep(refs, SeenIn(m.methodType), MethodsSeen(more));
        }
      } else {
        AtSplit(b, pos, EncodeMember(entries, m.access, m.name, m.descriptor, m.attributes),
          EncodeMethods(entries, more));
        MemberFails(b, pos, entries, m.access, m.name, m.descriptor, m.attributes, table);
      }
    }
  }

  lemma MethodClassesStep(methods: seq<Method>)
    requires methods != []
    ensures MethodClasses(methods) == ClassesOf(methods[0].methodType) + MethodClasses(methods[1..])
  {
    hide ClassesOf;
    assert forall i :: 1 <= i < |methods| ==> methods[i] == methods[1..][i - 1];
    forall n | n in MethodClasses(methods[1..]) ensures n in MethodClasses(methods) {
      var i :| 0 <= i < |methods| - 1 && n in ClassesOf(methods[1..][i].methodType);
      assert methods[i + 1] == methods[1..][i];
    }
  }

  // What a parenthesis does

  lemma OneSeenHoldsNone(d: D.MethodType, n: string)
    requires D.IsMethodType(d) && D.ParamsReadable(d.params) && n in SeenIn(d)
    ensures D.Without(n, D.PARENTHESES)
  {
    hide D.ResultSeen, D.Without;
    D.ResultIsSeen(d.result);
  }

  /** No name with a parenthesis is ever collected. */
  lemma {:induction false} SeenHoldNoParentheses(methods: seq<Method>, n: string)
    requires forall i :: 0 <= i < |methods| ==> D.IsMethodType(methods[i].methodType)
    requires FirstBroken(methods) == None && n in MethodsSeen(methods)
    ensures D.Without(n, D.PARENTHESES)
    decreases |methods|
  {
    hide D.ResultSeen, D.PlainClass, D.ParamClasses, D.Without;
    assert methods != [];
    D.ResultIsSeen(methods[0].methodType.result);
    if n !in SeenIn(methods[0].methodType) {
      SeenHoldNoParentheses(methods[1..], n);
    } else {
      OneSeenHoldsNone(methods[0].methodType, n);
    }
  }

  lemma {:induction false} ReadableIsUnbroken(methods: seq<Method>)
    requires forall i :: 0 <= i < |methods| ==> D.IsMethodType(methods[i].methodType)
    requires MethodsReadable(methods)
    ensures FirstBroken(methods) == None && MethodsSeen(methods) == MethodClasses(methods)
    decreases |methods|
  {
    hide D.ResultSeen, D.ParamsReadable, D.PlainClass;
    if methods == [] {
    } else {
      assert D.NoParentheses(methods[0].methodType);
      D.ResultIsSeen(methods[0].methodType.result);
      ReadableIsUnbroken(methods[1..]);
      MethodClassesStep(methods);
    }
  }

  lemma {:induction false} UnbrokenParams(methods: seq<Method>, i: nat)
    requires i < |methods| && FirstBroken(methods) == None
    ensures |methods[i].attributes| < LIMIT && D.ParamsReadable(methods[i].methodType.params)
    decreases |methods|
  {
    hide D.ParamsReadable;
    if i == 0 {
    } else {
      UnbrokenParams(methods[1..], i - 1);
    }
  }

  /** All methods are read and the right classes collected exactly if every method is readable: a class name
      that is read wrongly for its parenthesis is not made up for by any other method. */
  lemma CollectedExactlyWhenReadable(methods: seq<Method>)
    requires forall i :: 0 <= i < |methods| ==> D.IsMethodType(methods[i].methodType)
    ensures FirstBroken(methods) == None && MethodsSeen(methods) == MethodClasses(methods) <==> MethodsReadable(methods)
  {
    hide D.IsMethodType, D.ParamsReadable, D.Without, FirstBroken, MethodsSeen;
    if MethodsReadable(methods) {
      ReadableIsUnbroken(methods);
    }
    if FirstBroken(methods) == None && MethodsSeen(methods) == MethodClasses(methods) {
      forall i | 0 <= i < |methods| ensures |methods[i].attributes| < LIMIT && D.NoParentheses(methods[i].methodType) {
        UnbrokenParams(methods, i);
        forall n | n in D.PlainClass(methods[i].methodType.result) ensures D.Without(n, D.PARENTHESES) {
          assert n in ClassesOf(methods[i].methodType) && n in MethodClasses(methods);
          SeenHoldNoParentheses(methods, n);
        }
      }
    }
  }

  // The whole file

  lemma CountIsRead(b: seq<Byte>, pos: int, n: nat)
    requires At(b, pos, U2(n)) && n < U2_LIMIT
    ensures CountAt(b, pos) == if n < LIMIT then Success((n, pos + 2)) else Failure(NegativeLength)
  {
    ShortIsSigned(b, pos, n);
  }

  /** Where the parts behind the header stand. */
  lemma MembersStandAt(b: seq<Byte>, p: int, cf: ClassFile)
    requires At(b, p, EncodeMembers(cf))
    ensures var (i, f, m) :=
      (EncodeIndices(cf.entries, cf.interfaces), EncodeFields(cf.entries, cf.fields),
        EncodeMethods(cf.entries, cf.methods));
      && At(b, p, U2(|cf.interfaces|)) && At(b, p + 2, i)
      && At(b, p + 2 + |i|, U2(|cf.fields|)) && At(b, p + 4 + |i|, f)
      && At(b, p + 4 + |i| + |f|, U2(|cf.methods|)) && At(b, p + 6 + |i| + |f|, m)
      && |EncodeMembers(cf)| == 6 + |i| + |f| + |m|
  {
    hide At, EncodeIndices, EncodeFields, EncodeMethods, U2;
    var i, f, m :=
      EncodeIndices(cf.entries, cf.interfaces), EncodeFields(cf.entries, cf.fields),
        EncodeMethods(cf.entries, cf.methods);
    var fields, methods := U2(|cf.fields|) + f, U2(|cf.methods|) + m;
    AtSplit(b, p, U2(|cf.interfaces|) + i, fields + methods);
    AtSplit(b, p, U2(|cf.interfaces|), i);
    AtSplit(b, p + 2 + |i|, fields, methods);
    AtSplit(b, p + 2 + |i|, U2(|cf.fields|), f);
    AtSplit(b, p + 4 + |i| + |f|, U2(|cf.methods|), m);
  }

  lemma PartsAreOk(cf: ClassFile)
    requires WellShaped(cf)
    ensures CountsSmall(cf) <==>
      && PoolOk(cf.entries) && |cf.interfaces| < LIMIT && |cf.fields| < LIMIT && |cf.methods| < LIMIT
      && forall i :: 0 <= i < |cf.fields| ==> FieldOk(cf.entries, cf.fields[i])
  {
    hide EntryShaped, EntryShort, FieldShaped, MethodShaped, IsClass;
  }

  /** What the code makes of the structure if it can be read. */
  function SeenOf(cf: ClassFile): Refs
    requires WellShaped(cf)
  {
    RefsOf(cf).(methods := MethodsSeen(cf.methods))
  }

  /** Behind the header: the references are those that are seen if every count is small enough and every
      method can be read, and otherwise the parse ends with the first count or method for which this is not
      so. */
  lemma MembersAreRead(b: seq<Byte>, p: int, cf: ClassFile)
    requires WellShaped(cf) && PoolOk(cf.entries) && At(b, p, EncodeMembers(cf))
    ensures ParseMembers(b, p, Header(TableOf(cf.entries), RefsOf(cf).className, RefsOf(cf).superClassName)) ==
      if !CountsSmall(cf) then Failure(NegativeLength) else
        match FirstBroken(cf.methods)
        case Some(e) => Failure(e)
        case None => Success((SeenOf(cf), p + |EncodeMembers(cf)|))
  {
    hide At, MethodsFrom, FieldsFrom, InterfacesFrom, EncodeIndices, EncodeFields, EncodeMethods, CountAt, Resolves,
      TableOf,
      CountsSmall, FieldShaped, MethodShaped, EntryShaped, EntryShort, PoolOk, IsClass, FirstBroken, MethodsSeen;
    var (i, f, entries) := (EncodeIndices(cf.entries, cf.interfaces), EncodeFields(cf.entries, cf.fields), cf.entries);
    var table := TableOf(entries);
    PartsAreOk(cf);
    TableResolves(entries);
    MembersStandAt(b, p, cf);
    CountIsRead(b, p, |cf.interfaces|);
    InterfacesAreRead(b, p + 2, entries, cf.interfaces, table, {});
    CountIsRead(b, p + 2 + |i|, |cf.fields|);
    if forall k :: 0 <= k < |cf.fields| ==> FieldOk(entries, cf.fields[k]) {
      FieldsAreRead(b, p + 4 + |i|, entries, cf.fields, table, {});
      CountIsRead(b, p + 4 + |i| + |f|, |cf.methods|);
      MethodsAreRead(b, p + 6 + |i| + |f|, entries, cf.methods, table, {});
    } else {
      FieldsFail(b, p + 4 + |i|, entries, cf.fields, table, {});
    }
    assert {} + RefsOf(cf).interfaces == RefsOf(cf).interfaces && {} + RefsOf(cf).fields == RefsOf(cf).fields;
    assert {} + MethodsSeen(cf.methods) == MethodsSeen(cf.methods);
  }

  /** For every class file: what the parser makes of its bytes, stopping exactly behind the methods whatever
      attributes were skipped on the way. The first of these to be met ends the parse: a number of 32768 or
      more that is taken for a negative length, flags that are not allowed, and a method with a parenthesis
      in the class name of a parameter. */
  lemma ParseOfEncode(cf: ClassFile)
    requires WellShaped(cf)
    ensures Parse(Encode(cf)) ==
      if !PoolOk(cf.entries) then Failure(NegativeLength)
      else if !FlagsOk(cf.access) then Failure(FinalAndAbstract)
      else if !CountsSmall(cf) then Failure(NegativeLength)
      else
        match FirstBroken(cf.methods)
        case Some(e) => Failure(e)
        case None => Success((SeenOf(cf), |Encode(cf)| - |cf.rest|))
    ensures ParseJustName(Encode(cf)) ==
      if !PoolOk(cf.entries) then Failure(NegativeLength)
      else if !FlagsOk(cf.access) then Failure(FinalAndAbstract)
      else Success(RefsOf(cf).className)
  {
    hide ParseMembers, HeaderOf, EncodeMembers, EncodeHeader, RefsOf, TableOf, WellShaped, FlagsOk, PoolOk,
      CountsSmall, FirstBroken;
    var b, p := Encode(cf), |EncodeHeader(cf)|;
    assert At(b, 0, b);
    AtSplit(b, 0, EncodeHeader(cf), EncodeMembers(cf) + cf.rest);
    AtSplit(b, p, EncodeMembers(cf), cf.rest);
    if PoolOk(cf.entries) {
      HeaderIsRead(b, cf);
      MembersAreRead(b, p, cf);
    } else {
      HeaderFails(b, cf);
    }
  }

  lemma MethodsAreMethodTypes(cf: ClassFile)
    requires WellShaped(cf)
    ensures forall i :: 0 <= i < |cf.methods| ==> D.IsMethodType(cf.methods[i].methodType)
  {
    forall i | 0 <= i < |cf.methods| ensures D.IsMethodType(cf.methods[i].methodType) {
      assert MethodShaped(cf.entries, cf.methods[i]);
    }
  }

  /** A class file is read back completely exactly when its flags are allowed, its counts are small enough
      and every method is readable; its name alone as soon as pool and flags allow it. */
  lemma ParseInvertsEncode(cf: ClassFile)
    requires WellShaped(cf)
    ensures Parse(Encode(cf)) == Success((RefsOf(cf), |Encode(cf)| - |cf.rest|))
      <==> FlagsOk(cf.access) && CountsSmall(cf) && MethodsReadable(cf.methods)
    ensures Parse(Encode(cf)).Success? <==> FlagsOk(cf.access) && CountsSmall(cf) && FirstBroken(cf.methods) == None
    ensures ParseJustName(Encode(cf)) == Success(RefsOf(cf).className) <==> FlagsOk(cf.access) && PoolOk(cf.entries)
  {
    hide Parse, ParseJustName, Encode, WellShaped, FlagsOk, PoolOk, CountsSmall, FirstBroken, MethodsSeen,
      MethodsReadable,
      InterfaceNames, FieldClasses, MethodClasses, NameOf;
    ParseOfEncode(cf);
    PartsAreOk(cf);
    MethodsAreMethodTypes(cf);
    CollectedExactlyWhenReadable(cf.methods);
  }

  /** A file whose pool can be read is rejected for its flags exactly if it is final and also abstract or an
      interface, by the full parse and by the parse of the name alone. */
  lemma RejectsExactlyFinalAndAbstract(cf: ClassFile)
    requires WellShaped(cf) && PoolOk(cf.entries)
    ensures Parse(Encode(cf)) == Failure(FinalAndAbstract) <==> !FlagsOk(cf.access)
    ensures ParseJustName(Encode(cf)).Success? <==> FlagsOk(cf.access)
  {
    hide Parse, ParseJustName, Encode, RefsOf, WellShaped, FlagsOk, PoolOk, CountsSmall;
    ParseOfEncode(cf);
  }

  /** With 32768 or more slots in the pool nothing is ever read, even if what follows is not a class file. */
  lemma LargePoolIsRejected(minor: nat, major: nat, count: nat, rest: seq<Byte>)
    requires minor < U2_LIMIT && major < U2_LIMIT && LIMIT <= count < U2_LIMIT
    ensures var b := (U4(MAGIC) + (U2(minor) + U2(major))) + (U2(count) + rest);
      Parse(b) == Failure(NegativeLength) && ParseJustName(b) == Failure(NegativeLength)
  {
    hide U2, U4, ShortAt, PrologueAt;
    var prologue := U4(MAGIC) + (U2(minor) + U2(major));
    var b := prologue + (U2(count) + rest);
    assert At(b, 0, b);
    AtSplit(b, 0, prologue, U2(count) + rest);
    AtSplit(b, 8, U2(count), rest);
    PrologueIsRead(b, minor, major);
    ShortIsSigned(b, 8, count);
  }

  // The numbers of the specification

  /** The flags by their bits in table 4.1-B of the JVM Specification: bit 4 for final, bit 9 for interface,
      bit 10 for abstract. */
  lemma FlagBits(access: nat)
    ensures FlagsOk(access) <==> !(access / 16 % 2 == 1 && (access / 1024 % 2 == 1 || access / 512 % 2 == 1))
  {
  }

  /** What a tag stands for: a text, the index of one, operands of a size that take slots, or nothing. */
  datatype ConstantShape = TextKind | IndexKind | BytesKind(size: nat, slots: nat) | NoConstant

  function ConstantKind(tag: Byte): ConstantShape {
    if tag == CONSTANT_UTF8 then TextKind
    else if tag == CONSTANT_CLASS || tag == CONSTANT_STRING then IndexKind
    else match OperandSize(tag)
      case Some(size) => BytesKind(size, OtherConstant(tag).Width())
      case None => NoConstant
  }

  lemma {:induction false} DecodeNeverComplainsOfTags(bytes: seq<Byte>, i: nat)
    requires i <= |bytes|
    ensures Decode(bytes, i) != Failure(BadTag)
    decreases |bytes| - i
  {
    if i < |bytes| && UnitAt(bytes, i).Success? { DecodeNeverComplainsOfTags(bytes, UnitAt(bytes, i).value.1); }
  }

  lemma NoTagComplaint(b: seq<Byte>, pos: int)
    ensures UtfAt(b, pos) != Failure(BadTag)
  {
    hide Decode, UntilNul;
    if 0 <= pos <= |b| - 2 {
      var (length, start) := ShortAt(b, pos).value;
      if 0 <= length <= |b| - start { DecodeNeverComplainsOfTags(b[start..start + length], 0); }
    }
  }

  /** The constants by their tags in tables 4.4-A and 4.4.1 to 4.4.10 of the JVM Specification: what follows
      each tag, how many slots it takes, and that there are no other tags. */
  lemma TagsOfTheSpecification(tag: Byte)
    ensures ConstantKind(tag) == match tag
      case 1 => TextKind
      case 7 => IndexKind
      case 8 => IndexKind
      case 3 => BytesKind(4, 1)
      case 4 => BytesKind(4, 1)
      case 5 => BytesKind(8, 2)
      case 6 => BytesKind(8, 2)
      case 9 => BytesKind(4, 1)
      case 10 => BytesKind(4, 1)
      case 11 => BytesKind(4, 1)
      case 12 => BytesKind(4, 1)
      case 15 => BytesKind(3, 1)
      case 16 => BytesKind(2, 1)
      case 18 => BytesKind(4, 1)
      case _ => NoConstant
  {
  }

  /** Exactly the other tags end the reading with that complaint. */
  lemma UnknownTagEndsReading(b: seq<Byte>, pos: nat)
    requires pos < |b|
    ensures ConstantAt(b, pos) == Failure(BadTag) <==> ConstantKind(b[pos]) == NoConstant
  {
    hide Decode, UntilNul;
    NoTagComplaint(b, pos + 1);
  }

  /** The magic number by its bytes. */
  lemma MagicBytes(b: seq<Byte>)
    requires |b| >= 8
    ensures PrologueAt(b, 0).Success? <==> b[0] == 0xCA && b[1] == 0xFE && b[2] == 0xBA && b[3] == 0xBE
    ensures PrologueAt(b, 0).Success? || PrologueAt(b, 0) == Failure(BadMagic)
  {
  }
}
