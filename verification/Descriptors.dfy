/** Splitting and joining text, and picking class names out of field and method descriptors
    (section 4.3 of the JVM Specification SE 8). */
module Descriptors {
  import opened Wrappers

  const PARENTHESES: set<char> := {'(', ')'}

  // Splitting and joining

  /** Where the first of the delimiters is at or after `from`, or the length of the text. */
  function FindFirstOf(s: string, delimiters: set<char>, from: nat): (pos: nat)
    requires from <= |s|
    ensures from <= pos <= |s|
    ensures pos < |s| ==> s[pos] in delimiters
    ensures forall i :: from <= i < pos ==> s[i] !in delimiters
    decreases |s| - from
  {
    if from == |s| || s[from] in delimiters then from else FindFirstOf(s, delimiters, from + 1)
  }

  predicate Without(s: string, delimiters: set<char>) {
    forall i :: 0 <= i < |s| ==> s[i] !in delimiters
  }

  lemma {:induction false} FirstOfIs(s: string, delimiters: set<char>, from: nat, pos: nat)
    requires from <= pos <= |s| && (pos < |s| ==> s[pos] in delimiters)
    requires forall i :: from <= i < pos ==> s[i] !in delimiters
    ensures FindFirstOf(s, delimiters, from) == pos
    decreases pos - from
  {
    if from >= pos {
    } else {
      FirstOfIs(s, delimiters, from + 1, pos);
    }
  }

  /** The pieces between delimiters, empty ones included. */
  function Split(s: string, delimiters: set<char>): (r: seq<string>)
    ensures r != []
    decreases |s|
  {
    var pos := FindFirstOf(s, delimiters, 0);
    if pos == |s| then [s] else [s[..pos]] + Split(s[pos + 1..], delimiters)
  }

  function DropEmpty(pieces: seq<string>): seq<string> {
    if pieces == [] then [] else (if pieces[0] == [] then [] else [pieces[0]]) + DropEmpty(pieces[1..])
  }

  function Join(tokens: seq<string>, sep: string): string {
    if tokens == [] then [] else if |tokens| == 1 then tokens[0] else tokens[0] + sep + Join(tokens[1..], sep)
  }

  function Kept(pieces: seq<string>, compressDelimiters: bool): seq<string> {
    if compressDelimiters then DropEmpty(pieces) else pieces
  }

  lemma {:induction false} KeptSnoc(pieces: seq<string>, token: string, compressDelimiters: bool)
    ensures Kept(pieces + [token], compressDelimiters)
      == Kept(pieces, compressDelimiters) + if !compressDelimiters || token != [] then [token] else []
    decreases |pieces|
  {
    var all := pieces + [token];
    if pieces == [] {
      assert all == [token] && DropEmpty([]) == [];
    } else {
      assert all[1..] == pieces[1..] + [token];
      KeptSnoc(pieces[1..], token, compressDelimiters);
    }
  }

  /** Splitting at the first delimiter. */
  lemma {:induction false} SplitAt(s: string, delimiters: set<char>, pos: nat)
    requires pos <= |s| && Without(s[..pos], delimiters) && (pos < |s| ==> s[pos] in delimiters)
    ensures Split(s, delimiters) == if pos == |s| then [s] else [s[..pos]] + Split(s[pos + 1..], delimiters)
  {
    assert forall i :: 0 <= i < pos ==> s[i] == s[..pos][i];
    FirstOfIs(s, delimiters, 0, pos);
  }

  lemma SliceOfTail(s: string, prev: nat, pos: nat)
    requires prev <= pos <= |s|
    ensures s[prev..][..pos - prev] == s[prev..pos]
    ensures pos < |s| ==> s[prev..][pos - prev] == s[pos] && s[prev..][pos - prev + 1..] == s[pos + 1..]
  {
  }

  lemma NoneBefore(s: string, delimiters: set<char>, prev: nat)
    requires prev <= |s|
    ensures Without(s[prev..FindFirstOf(s, delimiters, prev)], delimiters)
  {
    hide FindFirstOf;
    var pos := FindFirstOf(s, delimiters, prev);
    forall i | 0 <= i < pos - prev ensures s[prev..pos][i] !in delimiters {
      assert s[prev..pos][i] == s[prev + i];
    }
  }

  lemma {:induction false} SplitTail(s: string, delimiters: set<char>, prev: nat)
    requires prev <= |s|
    ensures var pos := FindFirstOf(s, delimiters, prev);
      Split(s[prev..], delimiters) == if pos == |s|
        then [s[prev..]] else [s[prev..pos]] + Split(s[pos + 1..], delimiters)
  {
    hide Split, FindFirstOf, Without;
    var pos, tail := FindFirstOf(s, delimiters, prev), s[prev..];
    NoneBefore(s, delimiters, prev);
    SliceOfTail(s, prev, pos);
    SplitAt(tail, delimiters, pos - prev);
  }

  /** One more piece is cut off. */
  lemma {:induction false} OneMorePiece(s: string, delimiters: set<char>, prev: nat, pieces: seq<string>)
    requires prev <= |s| && Split(s, delimiters) == pieces + Split(s[prev..], delimiters)
    ensures var pos := FindFirstOf(s, delimiters, prev);
      Split(s, delimiters) == if pos == |s|
        then pieces + [s[prev..]] else (pieces + [s[prev..pos]]) + Split(s[pos + 1..], delimiters)
  {
    SplitTail(s, delimiters, prev);
  }

  lemma NothingKept(compressDelimiters: bool)
    ensures Kept([], compressDelimiters) == []
  {
  }

  method SplitString(input: string, delimiters: set<char>, compressDelimiters: bool) returns (splits: seq<string>)
    ensures splits == Kept(Split(input, delimiters), compressDelimiters)
  {
    hide Split, FindFirstOf, Kept;
    splits := [];
    ghost var pieces := [];
    NothingKept(compressDelimiters);
    var prev := 0;
    var pos := FindFirstOf(input, delimiters, prev);
    assert input[0..] == input;
    while pos < |input|
      invariant prev <= |input| && pos == FindFirstOf(input, delimiters, prev)
      invariant Split(input, delimiters) == pieces + Split(input[prev..], delimiters)
      invariant splits == Kept(pieces, compressDelimiters)
      decreases |input| - prev
    {
      var token := input[prev..pos];
      OneMorePiece(input, delimiters, prev, pieces);
      KeptSnoc(pieces, token, compressDelimiters);
      pieces := pieces + [token];
      if !compressDelimiters || token != [] {
        splits := splits + [token];
      }
      prev := pos + 1;
      pos := FindFirstOf(input, delimiters, prev);
    }
    OneMorePiece(input, delimiters, prev, pieces);
    KeptSnoc(pieces, input[prev..], compressDelimiters);
    if !compressDelimiters || input[prev..] != [] {
      splits := splits + [input[prev..]];
    }
  }

  lemma {:induction false} JoinSnoc(tokens: seq<string>, last: string, sep: string)
    requires tokens != []
    ensures Join(tokens + [last], sep) == Join(tokens, sep) + sep + last
  {
    if |tokens| == 1 {
      assert (tokens + [last])[1..] == [last];
    } else {
      assert (tokens + [last])[1..] == tokens[1..] + [last];
      JoinSnoc(tokens[1..], last, sep);
    }
  }

  method JoinTokens(tokens: seq<string>, sep: string) returns (s: string)
    ensures s == Join(tokens, sep)
  {
    s := [];
    for i := 0 to |tokens|
      invariant s == if 0 < i < |tokens| then Join(tokens[..i], sep) + sep else Join(tokens[..i], sep)
    {
      assert tokens[..i + 1] == tokens[..i] + [tokens[i]];
      if i > 0 { JoinSnoc(tokens[..i], tokens[i], sep); }
      s := s + tokens[i];
      if i < |tokens| - 1 {
        s := s + sep;
      }
    }
    assert tokens[..|tokens|] == tokens;
  }

  /** Splitting at one character and joining with it are inverse, both ways. */
  lemma {:induction false} JoinOfSplit(s: string, d: char)
    ensures Join(Split(s, {d}), [d]) == s
    decreases |s|
  {
    var pos := FindFirstOf(s, {d}, 0);
    if pos == |s| {
    } else {
      JoinOfSplit(s[pos + 1..], d);
      assert s == s[..pos] + [d] + s[pos + 1..];
    }
  }

  lemma {:induction false} SplitOfJoin(tokens: seq<string>, d: char)
    requires tokens != [] && forall i :: 0 <= i < |tokens| ==> Without(tokens[i], {d})
    ensures Split(Join(tokens, [d]), {d}) == tokens
    decreases |tokens|
  {
    var s, first := Join(tokens, [d]), tokens[0];
    if |tokens| == 1 {
      FirstOfIs(s, {d}, 0, |s|);
    } else {
      assert s[|first| + 1..] == Join(tokens[1..], [d]) && s[..|first|] == first;
      FirstOfIs(s, {d}, 0, |first|);
      SplitOfJoin(tokens[1..], d);
    }
  }

  // Picking class names out of signatures

  /** A type that starts with L, without this and its last character; otherwise no reference. */
  function ClassNameFromSignature(typeSignature: string): string {
    if "L" <= typeSignature && |typeSignature| >= 2 then typeSignature[1..|typeSignature| - 1] else ""
  }

  function SaveRef(ref: string, refs: set<string>): set<string> {
    if ref != "" then refs + {ref} else refs
  }

  /** The scan over the argument types. None: the loop never ends. */
  function ScanArguments(arguments: string, refs: set<string>): Option<set<string>>
    decreases |arguments|, 1
  {
    var start := FindFirstOf(arguments, {'L'}, 0);
    if start == |arguments| then Some(refs) else ScanReference(arguments[start..], refs)
  }

  /** One round, from the L on. */
  function ScanReference(trimmed: string, refs: set<string>): Option<set<string>>
    decreases |trimmed|, 0
  {
    var end := FindFirstOf(trimmed, {';'}, 0) + 1;
    if end > |trimmed| then None
    else ScanArguments(trimmed[end..], SaveRef(ClassNameFromSignature(trimmed[..end]), refs))
  }

  /** The loop itself. When no semicolon follows, `find` gives npos, one more is 0, nothing is cut off and
      the next round starts from the same text: that round and all after it are left out here. */
  method ParseAndSaveArguments(arguments: string, refs: set<string>) returns (r: Option<set<string>>)
    ensures r == ScanArguments(arguments, refs)
  {
    var rest, found := arguments, refs;
    while FindFirstOf(rest, {'L'}, 0) < |rest|
      invariant ScanArguments(arguments, refs) == ScanArguments(rest, found)
      decreases |rest|
    {
      var start := FindFirstOf(rest, {'L'}, 0);
      var trimmedStart := rest[start..];
      var semicolon := FindFirstOf(trimmedStart, {';'}, 0);
      var end := if semicolon < |trimmedStart| then semicolon + 1 else 0;
      if end == 0 {
        return None;
      }
      found := SaveRef(ClassNameFromSignature(trimmedStart[..end]), found);
      rest := trimmedStart[end..];
    }
    r := Some(found);
  }

  function AfterLast(s: string, c: char): (r: string)
    ensures |r| <= |s| && c !in r
  {
    if s == [] || s[|s| - 1] == c then [] else AfterLast(s[..|s| - 1], c) + [s[|s| - 1]]
  }

  lemma {:induction false} AfterLastOf(s: string, c: char, from: nat)
    requires from <= |s| && (from > 0 ==> s[from - 1] == c)
    ensures AfterLast(s[from..], c) == AfterLast(s, c)
    decreases |s|
  {
    if from < |s| && s[|s| - 1] != c {
      assert s[from..][..|s| - from - 1] == s[..|s| - 1][from..];
      AfterLastOf(s[..|s| - 1], c, from);
    }
  }

  lemma {:induction false} AfterLastHasNo(s: string, c: char, other: char)
    requires other !in s
    ensures other !in AfterLast(s, c)
    decreases |s|
  {
    if s == [] || s[|s| - 1] == c {
    } else {
      AfterLastHasNo(s[..|s| - 1], c, other);
    }
  }

  lemma {:induction false} LastSemicolonBefore(s: string, at: nat)
    requires at < |s| && ';' !in s[at..]
    ensures s[at] in AfterLast(s, ';')
    decreases |s|
  {
    assert s[at..][|s| - 1 - at] == s[|s| - 1];
    if at >= |s| - 1 {
    } else {
      assert forall i :: 0 <= i < |s| - 1 - at ==> s[..|s| - 1][at..][i] == s[at..][i];
      LastSemicolonBefore(s[..|s| - 1], at);
    }
  }

  lemma NotFound(s: string, c: char)
    requires FindFirstOf(s, {c}, 0) == |s|
    ensures c !in s
  {
    hide FindFirstOf;
  }

  /** Two steps of the scan at once. */
  lemma ScanUnfolds(arguments: string, refs: set<string>)
    ensures var start := FindFirstOf(arguments, {'L'}, 0);
      if start == |arguments| then ScanArguments(arguments, refs) == Some(refs) else
        var trimmed := arguments[start..];
        var semicolon := FindFirstOf(trimmed, {';'}, 0);
        if semicolon == |trimmed| then ScanArguments(arguments, refs) == None
        else
          ScanArguments(arguments, refs)
            == ScanArguments(trimmed[semicolon + 1..], SaveRef(ClassNameFromSignature(trimmed[..semicolon + 1]), refs))
  {
    hide FindFirstOf, SaveRef, ClassNameFromSignature;
  }

  /** The scan ends exactly when no L comes after the last semicolon. */
  lemma {:induction false} ScanHalts(arguments: string, refs: set<string>)
    ensures ScanArguments(arguments, refs).Some? <==> 'L' !in AfterLast(arguments, ';')
    decreases |arguments|
  {
    hide ScanArguments, ScanReference, FindFirstOf, SaveRef, ClassNameFromSignature, AfterLast;
    ScanUnfolds(arguments, refs);
    var start := FindFirstOf(arguments, {'L'}, 0);
    if start == |arguments| {
      NotFound(arguments, 'L');
      AfterLastHasNo(arguments, ';', 'L');
    } else {
      var trimmed := arguments[start..];
      var semicolon := FindFirstOf(trimmed, {';'}, 0);
      if semicolon == |trimmed| {
        NotFound(trimmed, ';');
        LastSemicolonBefore(arguments, start);
        assert arguments[start] == 'L';
      } else {
        var end := semicolon + 1;
        assert trimmed[end..] == arguments[start + end..];
        AfterLastOf(arguments, ';', start + end);
        ScanHalts(trimmed[end..], SaveRef(ClassNameFromSignature(trimmed[..end]), refs));
      }
    }
  }

  // The grammar

  datatype FieldType = Base(letter: char) | Object(name: string) | Array(component: FieldType)

  /** `result` is None for void. */
  datatype MethodType = MethodType(params: seq<FieldType>, result: Option<FieldType>)

  const BASE_LETTERS := "BCDFIJSZ"

  /** A class name is not empty and holds no semicolon; its other restrictions do not matter here. */
  predicate IsType(t: FieldType) {
    match t
    case Base(letter) => letter in BASE_LETTERS
    case Object(name) => name != [] && Without(name, {';'})
    case Array(component) => IsType(component)
  }

  predicate IsMethodType(d: MethodType) {
    (forall i :: 0 <= i < |d.params| ==> IsType(d.params[i])) && (d.result.Some? ==> IsType(d.result.value))
  }

  function TypeText(t: FieldType): string {
    match t
    case Base(letter) => [letter]
    case Object(name) => "L" + name + ";"
    case Array(component) => "[" + TypeText(component)
  }

  function ParamsText(params: seq<FieldType>): string {
    if params == [] then [] else TypeText(params[0]) + ParamsText(params[1..])
  }

  function ReturnText(result: Option<FieldType>): string {
    match result
    case None => "V"
    case Some(t) => TypeText(t)
  }

  function DescriptorText(d: MethodType): string {
    "(" + (ParamsText(d.params) + (")" + ReturnText(d.result)))
  }

  /** The class a type is about: its own, or that of its elements. */
  function ElementClass(t: FieldType): set<string> {
    match t
    case Base(_) => {}
    case Object(name) => {name}
    case Array(component) => ElementClass(component)
  }

  function ParamClasses(params: seq<FieldType>): set<string> {
    if params == [] then {} else ElementClass(params[0]) + ParamClasses(params[1..])
  }

  /** The class of a plain object type. */
  function PlainClass(t: Option<FieldType>): set<string> {
    match t
    case Some(Object(name)) => {name}
    case _ => {}
  }

  lemma TypeNameOf(t: FieldType)
    requires IsType(t)
    ensures SaveRef(ClassNameFromSignature(TypeText(t)), {}) == PlainClass(Some(t))
  {
    var text := TypeText(t);
    if t.Object? {
      assert text[1..|text| - 1] == t.name;
    } else {
      assert text[0] != 'L';
    }
  }

  lemma {:induction false} ScanObject(name: string, rest: string, refs: set<string>)
    requires name != [] && Without(name, {';'})
    ensures ScanArguments("L" + name + ";" + rest, refs) == ScanArguments(rest, refs + {name})
  {
    var text, end := "L" + name + ";" + rest, |name| + 2;
    assert text[0] == 'L';
    FirstOfIs(text, {'L'}, 0, 0);
    assert text[0..] == text;
    assert forall i :: 1 <= i <= |name| ==> text[i] == name[i - 1];
    FirstOfIs(text, {';'}, 0, |name| + 1);
    assert text[..end][1..end - 1] == name;
    assert text[end..] == rest;
  }

  lemma BehindOne(c: char, rest: string, from: nat)
    requires from <= |rest|
    ensures ([c] + rest)[from + 1..] == rest[from..]
  {
  }

  lemma {:induction false} SkipOne(c: char, rest: string, refs: set<string>)
    requires c != 'L'
    ensures ScanArguments([c] + rest, refs) == ScanArguments(rest, refs)
  {
    hide FindFirstOf, ScanReference;
    var text, start := [c] + rest, FindFirstOf(rest, {'L'}, 0);
    assert forall i :: 1 <= i < |text| ==> text[i] == rest[i - 1];
    FirstOfIs(text, {'L'}, 0, start + 1);
    BehindOne(c, rest, start);
  }

  /** Where the scan stands after one type. */
  lemma {:induction false} ScanOneType(t: FieldType, rest: string, refs: set<string>)
    requires IsType(t)
    ensures ScanArguments(TypeText(t) + rest, refs) == ScanArguments(rest, refs + ElementClass(t))
    decreases t
  {
    match t {
      case Base(letter) =>
        SkipOne(letter, rest, refs);
        assert refs + {} == refs;
      case Object(name) => ScanObject(name, rest, refs);
      case Array(component) =>
        assert TypeText(t) + rest == ['['] + (TypeText(component) + rest);
        SkipOne('[', TypeText(component) + rest, refs);
        ScanOneType(component, rest, refs);
    }
  }

  /** On every list of types the scan ends and adds exactly the classes of the parameters and of the
      elements of array parameters. */
  lemma {:induction false} ScanParams(params: seq<FieldType>, rest: string, refs: set<string>)
    requires forall i :: 0 <= i < |params| ==> IsType(params[i])
    ensures ScanArguments(ParamsText(params) + rest, refs) == ScanArguments(rest, refs + ParamClasses(params))
    decreases |params|
  {
    if params == [] {
      assert ParamsText(params) + rest == rest && refs + {} == refs;
    } else {
      assert ParamsText(params) + rest == TypeText(params[0]) + (ParamsText(params[1..]) + rest);
      ScanOneType(params[0], ParamsText(params[1..]) + rest, refs);
      ScanParams(params[1..], rest, refs + ElementClass(params[0]));
      assert refs + ElementClass(params[0]) + ParamClasses(params[1..]) == refs + ParamClasses(params);
    }
  }

  /** MissingPiece stands for reading past the pieces of a descriptor, Endless for a scan without end. */
  datatype Broken = MissingPiece | Endless

  /** What reading one method adds to the references. */
  function MethodRefs(signature: string, refs: set<string>): Result<set<string>, Broken> {
    var splits := Split(signature, PARENTHESES);
    if |splits| < 2 then Failure(MissingPiece) else
      match ScanArguments(splits[1], refs)
      case None => Failure(Endless)
      case Some(found) =>
        if |splits| < 3 then Failure(MissingPiece) else Success(SaveRef(ClassNameFromSignature(splits[2]), found))
  }

  /** No class name of a parameter holds a parenthesis. */
  predicate ParamsReadable(params: seq<FieldType>) {
    forall n :: n in ParamClasses(params) ==> Without(n, PARENTHESES)
  }

  /** No class name of a parameter, and not the class name of a plain object as the result, holds a
      parenthesis. (The class of an array result is of no interest to the code.) */
  predicate NoParentheses(d: MethodType) {
    ParamsReadable(d.params) && forall n :: n in PlainClass(d.result) ==> Without(n, PARENTHESES)
  }

  function FirstPiece(s: string): string {
    s[..FindFirstOf(s, PARENTHESES, 0)]
  }

  /** What the code takes for the class of the result. */
  function ResultSeen(result: Option<FieldType>): set<string> {
    SaveRef(ClassNameFromSignature(FirstPiece(ReturnText(result))), {})
  }

  lemma ConcatWithout(a: string, b: string, delimiters: set<char>)
    ensures Without(a + b, delimiters) <==> Without(a, delimiters) && Without(b, delimiters)
  {
    assert forall i :: 0 <= i < |a| ==> (a + b)[i] == a[i];
    assert forall i :: 0 <= i < |b| ==> (a + b)[|a| + i] == b[i];
  }

  lemma {:induction false} TypeWithoutParens(t: FieldType)
    requires IsType(t)
    ensures Without(TypeText(t), PARENTHESES) <==> forall n :: n in ElementClass(t) ==> Without(n, PARENTHESES)
  {
    match t {
      case Base(_) =>
      case Object(name) =>
        var text := TypeText(t);
        assert forall i :: 0 <= i < |name| ==> text[i + 1] == name[i];
        assert forall i :: 1 <= i <= |name| ==> text[i] == name[i - 1];
        assert name in ElementClass(t);
      case Array(component) =>
        TypeWithoutParens(component);
        ConcatWithout("[", TypeText(component), PARENTHESES);
    }
  }

  lemma {:induction false} ParamsWithoutParens(params: seq<FieldType>)
    requires forall i :: 0 <= i < |params| ==> IsType(params[i])
    ensures Without(ParamsText(params), PARENTHESES) <==> ParamsReadable(params)
    decreases |params|
  {
    if params == [] {
    } else {
      TypeWithoutParens(params[0]);
      ParamsWithoutParens(params[1..]);
      ConcatWithout(TypeText(params[0]), ParamsText(params[1..]), PARENTHESES);
    }
  }

  lemma {:induction false} SplitFront(front: string, d: char, rest: string, delimiters: set<char>)
    requires Without(front, delimiters) && d in delimiters
    ensures Split(front + ([d] + rest), delimiters) == [front] + Split(rest, delimiters)
  {
    var s := front + ([d] + rest);
    assert s[..|front|] == front && s[|front| + 1..] == rest;
    SplitAt(s, delimiters, |front|);
  }

  lemma NothingWithout(delimiters: set<char>)
    ensures Without("", delimiters)
  {
  }

  lemma RegroupDescriptor(params: string, returned: string, pieces: seq<string>)
    ensures "(" + (params + (")" + returned)) == "" + (['('] + (params + ([')'] + returned)))
    ensures [""] + ([params] + pieces) == ["", params] + pieces
  {
  }

  /** The pieces of a descriptor: nothing, and what stands before and after the first parenthesis that
      follows the opening one. */
  lemma {:induction false} DescriptorPieces(d: MethodType)
    requires Without(ParamsText(d.params), PARENTHESES)
    ensures Split(DescriptorText(d), PARENTHESES)
      == ["", ParamsText(d.params)] + Split(ReturnText(d.result), PARENTHESES)
  {
    hide Split, Without, ParamsText, ReturnText;
    var params, returned := ParamsText(d.params), ReturnText(d.result);
    NothingWithout(PARENTHESES);
    RegroupDescriptor(params, returned, Split(returned, PARENTHESES));
    SplitFront(params, ')', returned, PARENTHESES);
    SplitFront("", '(', params + ([')'] + returned), PARENTHESES);
  }

  lemma {:induction false} FirstPieceOf(a: string, b: string)
    ensures FirstPiece(a + b) == if Without(a, PARENTHESES) then a + FirstPiece(b) else FirstPiece(a)
  {
    var at := FindFirstOf(a, PARENTHESES, 0);
    if at == |a| {
      var more := FindFirstOf(b, PARENTHESES, 0);
      assert forall i :: |a| <= i < |a| + more ==> (a + b)[i] == b[i - |a|];
      FirstOfIs(a + b, PARENTHESES, 0, |a| + more);
    } else {
      FirstOfIs(a + b, PARENTHESES, 0, at);
    }
  }

  lemma LettersWithout(letter: char)
    requires letter in BASE_LETTERS || letter in "[;L"
    ensures Without([letter], PARENTHESES)
  {
  }

  lemma FirstPieceWithin(s: string)
    ensures FirstPiece(s) <= s && (Without(s, {';'}) ==> Without(FirstPiece(s), {';'}))
  {
  }

  lemma ScanBrokenName(piece: string, refs: set<string>)
    requires Without(piece, {';'})
    ensures ScanArguments("L" + piece, refs) == None
  {
    hide ScanArguments, ScanReference, FindFirstOf, SaveRef, ClassNameFromSignature;
    var text := "L" + piece;
    ScanUnfolds(text, refs);
    FirstOfIs(text, {'L'}, 0, 0);
    assert text[0..] == text;
    assert forall i :: 1 <= i < |text| ==> text[i] == piece[i - 1];
    FirstOfIs(text, {';'}, 0, |text|);
  }

  /** A type whose class name holds a parenthesis is cut off before its semicolon: the scan never ends. */
  lemma {:induction false} ScanBrokenType(t: FieldType, refs: set<string>)
    requires IsType(t) && !Without(TypeText(t), PARENTHESES)
    ensures ScanArguments(FirstPiece(TypeText(t)), refs) == None
    decreases t
  {
    hide ScanArguments, ScanReference, FirstPiece;
    match t {
      case Base(letter) => LettersWithout(letter);
      case Object(name) =>
        var piece := FirstPiece(name);
        LettersWithout('L');
        LettersWithout(';');
        ConcatWithout("L" + name, ";", PARENTHESES);
        ConcatWithout("L", name, PARENTHESES);
        FirstPieceWithin(name);
        FirstPieceOf("L" + name, ";");
        FirstPieceOf("L", name);
        ScanBrokenName(piece, refs);
      case Array(component) =>
        ConcatWithout("[", TypeText(component), PARENTHESES);
        FirstPieceOf("[", TypeText(component));
        var piece := FirstPiece(TypeText(component));
        SkipOne('[', piece, refs);
        ScanBrokenType(component, refs);
    }
  }

  lemma {:induction false} ScanBrokenParams(params: seq<FieldType>, rest: string, refs: set<string>)
    requires forall i :: 0 <= i < |params| ==> IsType(params[i])
    requires !Without(ParamsText(params), PARENTHESES)
    ensures ScanArguments(FirstPiece(ParamsText(params) + rest), refs) == None
    decreases |params|
  {
    var first, more := TypeText(params[0]), ParamsText(params[1..]);
    FirstPieceOf(first + more, rest);
    FirstPieceOf(first, more);
    if Without(first, PARENTHESES) {
      ConcatWithout(first, more, PARENTHESES);
      ScanOneType(params[0], FirstPiece(more), refs);
      ScanBrokenParams(params[1..], [], refs + ElementClass(params[0]));
      assert more + [] == more;
    } else {
      ScanBrokenType(params[0], refs);
    }
  }

  lemma {:induction false} SecondPiece(signature: string, rest: string)
    requires signature == "(" + rest
    ensures |Split(signature, PARENTHESES)| >= 2 && Split(signature, PARENTHESES)[1] == FirstPiece(rest)
  {
    SplitAt(signature, PARENTHESES, 0);
    assert signature[1..] == rest;
    var at := FindFirstOf(rest, PARENTHESES, 0);
    SplitAt(rest, PARENTHESES, at);
    assert rest[..|rest|] == rest;
  }

  lemma NameOfObject(name: string)
    ensures ClassNameFromSignature("L" + name + ";") == name
  {
    var text := "L" + name + ";";
    assert text[1..|text| - 1] == name;
  }

  lemma NameOfCut(cut: string)
    ensures ClassNameFromSignature("L" + cut) == if cut == [] then [] else cut[..|cut| - 1]
  {
    var text := "L" + cut;
    assert cut != [] ==> text[1..|text| - 1] == cut[..|cut| - 1];
  }

  lemma {:induction false} ObjectPiece(name: string)
    ensures var seen := ClassNameFromSignature(FirstPiece("L" + name + ";"));
      if Without(name, PARENTHESES) then seen == name else Without(seen, PARENTHESES)
  {
    FirstPieceOf("L" + name, ";");
    FirstPieceOf("L", name);
    ConcatWithout("L", name, PARENTHESES);
    if Without(name, PARENTHESES) {
      FirstOfIs(";", PARENTHESES, 0, 1);
      NameOfObject(name);
    } else {
      NameOfCut(FirstPiece(name));
    }
  }

  /** What is taken for the class of the result is nothing for a base type or an array, and for an object type
      its name, or what precedes the last character before a parenthesis. */
  lemma ResultIsSeen(result: Option<FieldType>)
    requires result.Some? ==> IsType(result.value)
    ensures if forall n :: n in PlainClass(result) ==> Without(n, PARENTHESES)
      then ResultSeen(result) == PlainClass(result)
      else forall n :: n in ResultSeen(result) ==> Without(n, PARENTHESES)
  {
    var piece := FirstPiece(ReturnText(result));
    match result {
      case None =>
      case Some(Base(_)) =>
      case Some(Array(component)) =>
        FirstPieceOf("[", TypeText(component));
        assert piece[0] == '[';
      case Some(Object(name)) =>
        ObjectPiece(name);
        assert name in PlainClass(result);
    }
  }

  lemma {:induction false} NothingToScan(refs: set<string>)
    ensures ScanArguments([], refs) == Some(refs)
  {
  }

  lemma {:induction false} PieceOfSplit(s: string)
    ensures Split(s, PARENTHESES)[0] == FirstPiece(s)
  {
    SplitAt(s, PARENTHESES, FindFirstOf(s, PARENTHESES, 0));
  }

  lemma {:induction false} PiecesOfDescriptor(d: MethodType)
    requires Without(ParamsText(d.params), PARENTHESES)
    ensures var splits := Split(DescriptorText(d), PARENTHESES);
      |splits| >= 3 && splits[1] == ParamsText(d.params) && splits[2] == FirstPiece(ReturnText(d.result))
  {
    DescriptorPieces(d);
    PieceOfSplit(ReturnText(d.result));
  }

  lemma SaveIsUnion(ref: string, refs: set<string>)
    ensures SaveRef(ref, refs) == refs + SaveRef(ref, {})
  {
  }

  /** On every descriptor: the scan never ends if the class name of a parameter holds a parenthesis, and
      otherwise the classes of the parameters, of the elements of array parameters, and what is taken for the
      class of the result are collected. */
  lemma MethodRefsAre(d: MethodType, refs: set<string>)
    requires IsMethodType(d)
    ensures MethodRefs(DescriptorText(d), refs)
      == if ParamsReadable(d.params)
        then Success(refs + ParamClasses(d.params) + ResultSeen(d.result)) else Failure(Endless)
  {
    hide ParamsReadable, ParamsText, ReturnText, ParamClasses, Split, ScanArguments, FirstPiece,
      ClassNameFromSignature, SaveRef, Without;
    var params, found := ParamsText(d.params), refs + ParamClasses(d.params);
    ParamsWithoutParens(d.params);
    if ParamsReadable(d.params) {
      PiecesOfDescriptor(d);
      assert params + [] == params;
      ScanParams(d.params, [], refs);
      NothingToScan(found);
      SaveIsUnion(ClassNameFromSignature(FirstPiece(ReturnText(d.result))), found);
    } else {
      SecondPiece(DescriptorText(d), params + (")" + ReturnText(d.result)));
      ScanBrokenParams(d.params, ")" + ReturnText(d.result), refs);
    }
  }

  /** On every descriptor whose names hold no parenthesis exactly the classes are collected that should be. */
  lemma MethodRefsOfDescriptor(d: MethodType, refs: set<string>)
    requires IsMethodType(d) && NoParentheses(d)
    ensures MethodRefs(DescriptorText(d), refs) == Success(refs + ParamClasses(d.params) + PlainClass(d.result))
  {
    hide MethodRefs, ResultSeen, ParamsReadable;
    MethodRefsAre(d, refs);
    ResultIsSeen(d.result);
  }

  /** For every well-formed descriptor: the code collects the right classes exactly when none of the names
      that matter holds a parenthesis. Otherwise it loops for ever or leaves the result's class out. */
  lemma CollectsExactlyWithoutParentheses(d: MethodType)
    requires IsMethodType(d)
    ensures MethodRefs(DescriptorText(d), {}) == Success(ParamClasses(d.params) + PlainClass(d.result))
      <==> NoParentheses(d)
  {
    hide MethodRefs, ResultSeen;
    MethodRefsAre(d, {});
    ResultIsSeen(d.result);
    assert {} + ParamClasses(d.params) == ParamClasses(d.params);
    if ParamsReadable(d.params) && !NoParentheses(d) {
      var n :| n in PlainClass(d.result) && !Without(n, PARENTHESES);
      assert n !in ParamClasses(d.params) && n !in ResultSeen(d.result);
    }
  }

  lemma PiecesOfAnyText(s: string)
    ensures Split(s, PARENTHESES)[0] == FirstPiece(s)
    ensures |Split(s, PARENTHESES)| == 1 <==> Without(s, PARENTHESES)
  {
    var pos := FindFirstOf(s, PARENTHESES, 0);
    SplitAt(s, PARENTHESES, pos);
    if pos == |s| { assert s[..pos] == s; }
  }

  /** On every text, a descriptor or not: without a parenthesis a piece is missing. With one in front of `rest`,
      the scan of what comes up to the next one never ends exactly if an L comes after the last semicolon there,
      and otherwise a piece is missing exactly if there is no next one. */
  lemma MethodRefsOfAnyText(front: string, parenthesis: char, rest: string, refs: set<string>)
    requires Without(front, PARENTHESES) && parenthesis in PARENTHESES
    ensures MethodRefs(front, refs) == Failure(MissingPiece)
    ensures var outcome := MethodRefs(front + ([parenthesis] + rest), refs);
      && (outcome == Failure(Endless) <==> 'L' in AfterLast(FirstPiece(rest), ';'))
      && (outcome == Failure(MissingPiece) <==> 'L' !in AfterLast(FirstPiece(rest), ';') && Without(rest, PARENTHESES))
  {
    hide Split, ScanArguments, FirstPiece, ClassNameFromSignature, SaveRef, Without, AfterLast;
    PiecesOfAnyText(front);
    PiecesOfAnyText(rest);
    SplitFront(front, parenthesis, rest, PARENTHESES);
    ScanHalts(FirstPiece(rest), refs);
  }

  /** An instance: a method with a parameter of a class whose name is `(`, which no reference is collected
      of, as the scan never ends. */
  lemma ParenthesisIsNeverScanned()
    ensures DescriptorText(MethodType([Object("(")], None)) == "(L(;)V" && MethodRefs("(L(;)V", {}) == Failure(Endless)
  {
    hide MethodRefs;
    var params := [Object("(")];
    assert ParamsText(params) == "L(;" + ParamsText([]);
    assert "(" in ParamClasses(params) && "("[0] in PARENTHESES;
    MethodRefsAre(MethodType(params, None), {});
  }
}
