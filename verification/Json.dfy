/** The JSON writer: objects and arrays that grow, and the builder that their text is written to. */
module Json {
  import opened Wrappers
  import opened JsonText
  import opened Decimal

  /** A number is kept as its text. Members keep the order in which their names were first added. */
  datatype Value =
    | Null | True | False
    | Number(numeral: Text)
    | String(text: Text)
    | Array(items: seq<Value>)
    | Object(members: seq<Member>)

  datatype Member = Member(name: Text, value: Value)

  const ARRAY_OPEN: Unit := 0x5B
  const ARRAY_CLOSE: Unit := 0x5D
  const OBJECT_OPEN: Unit := 0x7B
  const OBJECT_CLOSE: Unit := 0x7D
  const COMMA: Unit := 0x2C
  const COLON: Unit := 0x3A
  const MINUS: Unit := 0x2D

  // What is written

  function DropLast(t: Text): Text
    requires t != []
  {
    t[..|t| - 1]
  }

  function IntText(n: int): Text {
    if n < 0 then [MINUS] + Units(Numeral(-n)) else Units(Numeral(n))
  }

  /** The value of an integer. */
  function ValueOf(n: int): Value {
    Number(IntText(n))
  }

  function Quoted(text: Text): Text {
    [QUOTE] + (Escaped(text) + [QUOTE])
  }

  /** Every element is followed by a separator; the last character before the closing bracket is then taken
      away, whatever it is. */
  function TextOf(v: Value): Text
    decreases v
  {
    match v
    case Null => Units("null")
    case True => Units("true")
    case False => Units("false")
    case Number(numeral) => numeral
    case String(text) => Quoted(text)
    case Array(items) => DropLast([ARRAY_OPEN] + ItemsText(items)) + [ARRAY_CLOSE]
    case Object(members) => DropLast([OBJECT_OPEN] + MembersText(members)) + [OBJECT_CLOSE]
  }

  function ItemsText(items: seq<Value>): Text
    decreases items
  {
    if items == [] then [] else TextOf(items[0]) + [COMMA] + ItemsText(items[1..])
  }

  function MemberText(m: Member): Text
    decreases m
  {
    Quoted(m.name) + [COLON] + TextOf(m.value)
  }

  function MembersText(members: seq<Member>): Text
    decreases members
  {
    if members == [] then [] else MemberText(members[0]) + [COMMA] + MembersText(members[1..])
  }

  lemma {:induction false} ItemsTextSnoc(items: seq<Value>, v: Value)
    ensures ItemsText(items + [v]) == ItemsText(items) + (TextOf(v) + [COMMA])
    decreases |items|
  {
    if items == [] {
      assert (items + [v])[1..] == [];
    } else {
      assert (items + [v])[1..] == items[1..] + [v];
      ItemsTextSnoc(items[1..], v);
    }
  }

  lemma {:induction false} MembersTextSnoc(members: seq<Member>, m: Member)
    ensures MembersText(members + [m]) == MembersText(members) + (MemberText(m) + [COMMA])
    decreases |members|
  {
    if members == [] {
      assert (members + [m])[1..] == [];
    } else {
      assert (members + [m])[1..] == members[1..] + [m];
      MembersTextSnoc(members[1..], m);
    }
  }

  lemma ArrayText(items: seq<Value>)
    ensures TextOf(Array(items)) == DropLast([ARRAY_OPEN] + ItemsText(items)) + [ARRAY_CLOSE]
    ensures ItemsText([]) == []
  {
  }

  lemma ObjectText(members: seq<Member>)
    ensures TextOf(Object(members)) == DropLast([OBJECT_OPEN] + MembersText(members)) + [OBJECT_CLOSE]
    ensures MembersText([]) == []
  {
  }

  class JSONStringBuilder {
    var sb: Text

    constructor ()
      ensures sb == []
    {
      sb := [];
    }

    method Append(text: Text)
      modifies this
      ensures sb == old(sb) + text
    {
      sb := sb + text;
    }

    method AppendString(value: Text)
      modifies this
      ensures sb == old(sb) + Quoted(value)
    {
      hide Escaped;
      var escaped := JsonEscaped(value);
      Append([QUOTE]);
      Append(escaped);
      Append([QUOTE]);
    }

    method RemoveSingleTrailingChar()
      requires sb != []
      modifies this
      ensures sb == DropLast(old(sb))
    {
      sb := sb[..|sb| - 1];
    }

    /** The writer of each kind of value. */
    method Write(v: Value)
      modifies this
      ensures sb == old(sb) + TextOf(v)
      decreases v, 1
    {
      match v {
        case Null => Append(Units("null"));
        case True => Append(Units("true"));
        case False => Append(Units("false"));
        case Number(numeral) => Append(numeral);
        case String(text) => AppendString(text);
        case Array(items) => WriteArray(items, v);
        case Object(members) => WriteObject(members, v);
      }
    }

    method WriteArray(items: seq<Value>, ghost v: Value)
      requires v == Array(items)
      modifies this
      ensures sb == old(sb) + TextOf(v)
      decreases v, 0
    {
      hide TextOf, ItemsText;
      ArrayText(items);
      Append([ARRAY_OPEN]);
      for i := 0 to |items|
        invariant sb == old(sb) + ([ARRAY_OPEN] + ItemsText(items[..i]))
      {
        ItemsTextSnoc(items[..i], items[i]);
        assert items[..i + 1] == items[..i] + [items[i]];
        Write(items[i]);
        Append([COMMA]);
      }
      assert items[..|items|] == items;
      RemoveSingleTrailingChar();
      Append([ARRAY_CLOSE]);
    }

    method WriteMember(m: Member)
      modifies this
      ensures sb == old(sb) + MemberText(m)
      decreases m, 0
    {
      AppendString(m.name);
      Append([COLON]);
      Write(m.value);
    }

    method WriteObject(members: seq<Member>, ghost v: Value)
      requires v == Object(members)
      modifies this
      ensures sb == old(sb) + TextOf(v)
      decreases v, 0
    {
      hide TextOf, MemberText, Escaped, MembersText;
      ObjectText(members);
      Append([OBJECT_OPEN]);
      for i := 0 to |members|
        invariant sb == old(sb) + ([OBJECT_OPEN] + MembersText(members[..i]))
      {
        MembersTextSnoc(members[..i], members[i]);
        assert members[..i + 1] == members[..i] + [members[i]];
        WriteMember(members[i]);
        Append([COMMA]);
      }
      assert members[..|members|] == members;
      RemoveSingleTrailingChar();
      Append([OBJECT_CLOSE]);
    }
  }

  // Building values

  function Find(members: seq<Member>, name: Text): (i: nat)
    ensures i <= |members|
    ensures i < |members| ==> members[i].name == name
    ensures forall j :: 0 <= j < i ==> members[j].name != name
  {
    if members == [] || members[0].name == name then 0 else 1 + Find(members[1..], name)
  }

  /** A linked hash map: a new name goes to the end, a known one keeps its place and gets the new value. */
  function Put(members: seq<Member>, name: Text, value: Value): seq<Member> {
    var i := Find(members, name);
    if i < |members| then members[i := Member(name, value)] else members + [Member(name, value)]
  }

  predicate DistinctNames(members: seq<Member>) {
    forall i, j :: 0 <= i < j < |members| ==> members[i].name != members[j].name
  }

  /** Names stay distinct and in the order of their first appearance; only the named value changes. */
  lemma PutKeepsOrder(members: seq<Member>, name: Text, value: Value)
    requires DistinctNames(members)
    ensures var r := Put(members, name, value);
      && DistinctNames(r) && |members| <= |r| <= |members| + 1
      && (forall i :: 0 <= i < |members| ==>
            r[i].name == members[i].name && (members[i].name != name ==> r[i] == members[i]))
      && exists i :: 0 <= i < |r| && r[i] == Member(name, value)
  {
    var r, i := Put(members, name, value), Find(members, name);
    assert r[i] == Member(name, value);
  }

  class JSONArray {
    var values: seq<Value>

    constructor ()
      ensures values == []
    {
      values := [];
    }

    method Add(value: Value)
      modifies this
      ensures values == old(values) + [value]
    {
      values := values + [value];
    }
  }

  class JSONObject {
    var values: seq<Member>

    constructor ()
      ensures values == [] && DistinctNames(values)
    {
      values := [];
    }

    method Add(name: Text, value: Value)
      requires DistinctNames(values)
      modifies this
      ensures DistinctNames(values) && values == Put(old(values), name, value)
    {
      PutKeepsOrder(values, name, value);
      var i := Find(values, name);
      values := if i < |values| then values[i := Member(name, value)] else values + [Member(name, value)];
    }

    method AddIfNotEmpty(name: Text, value: JSONArray)
      requires DistinctNames(values)
      modifies this
      ensures DistinctNames(values)
      ensures values == if value.values == [] then old(values) else Put(old(values), name, Array(value.values))
    {
      if |value.values| != 0 {
        Add(name, Array(value.values));
      }
    }
  }
}
