/** What a class file refers to: the set that the parser collects for the walk over the referenced classes, and
    what that walk sends when the classes are class files. */
module ClassReferences {
  import D = Descriptors
  import opened ByteReading
  import opened ClassFileEncoding
  import opened ClassFileParsing
  import opened Conversation
  import opened Dependencies
  import opened Wrappers

  /** The class of an object type, or of the elements of an array type at any depth. */
  predicate Mentions(t: D.FieldType, n: string) {
    match t
    case Base(_) => false
    case Object(name) => name == n
    case Array(component) => Mentions(component, n)
  }

  /** A class of a parameter, or the class of a plain object as the result. */
  predicate MethodMentions(d: D.MethodType, n: string) {
    d.result == Some(D.Object(n)) || exists j :: 0 <= j < |d.params| && Mentions(d.params[j], n)
  }

  function SuperClassOf(cf: ClassFile): string
    requires WellShaped(cf)
  {
    if cf.superClass.Some? then NameOf(cf.entries, cf.superClass.value) else "java/lang/Object"
  }

  /** The superclass, an interface, the class of a plain object field, or a class of a method descriptor. */
  predicate RefersTo(cf: ClassFile, n: string)
    requires WellShaped(cf)
  {
    || n == SuperClassOf(cf)
    || (exists i :: 0 <= i < |cf.interfaces| && NameOf(cf.entries, cf.interfaces[i]) == n)
    || (exists i :: 0 <= i < |cf.fields| && cf.fields[i].fieldType == D.Object(n))
    || (exists i :: 0 <= i < |cf.methods| && MethodMentions(cf.methods[i].methodType, n))
  }

  lemma {:induction false} ElementIsMentioned(t: D.FieldType, n: string)
    ensures n in D.ElementClass(t) <==> Mentions(t, n)
    decreases t
  {
    match t {
      case Array(component) => ElementIsMentioned(component, n);
      case _ =>
    }
  }

  lemma {:induction false} ParamsAreMentioned(params: seq<D.FieldType>, n: string)
    ensures n in D.ParamClasses(params) <==> exists j :: 0 <= j < |params| && Mentions(params[j], n)
    decreases |params|
  {
    hide Mentions;
    if params == [] {
    } else {
      ElementIsMentioned(params[0], n);
      ParamsAreMentioned(params[1..], n);
      if j :| 0 <= j < |params[1..]| && Mentions(params[1..][j], n) {
        assert Mentions(params[j + 1], n);
      }
      if j :| 0 <= j < |params| && Mentions(params[j], n) && j > 0 {
        assert Mentions(params[1..][j - 1], n);
      }
    }
  }

  lemma MethodClassesAreMentioned(d: D.MethodType, n: string)
    ensures n in ClassesOf(d) <==> MethodMentions(d, n)
  {
    ParamsAreMentioned(d.params, n);
  }

  lemma MethodsAreMentioned(methods: seq<Method>, n: string)
    ensures n in MethodClasses(methods) <==>
      exists i :: 0 <= i < |methods| && MethodMentions(methods[i].methodType, n)
  {
    hide ClassesOf, MethodMentions;
    forall i | 0 <= i < |methods|
      ensures n in ClassesOf(methods[i].methodType) <==> MethodMentions(methods[i].methodType, n)
    {
      MethodClassesAreMentioned(methods[i].methodType, n);
    }
  }

  /** The parser can read all of the file. */
  predicate Readable(cf: ClassFile) {
    WellShaped(cf) && FlagsOk(cf.access) && CountsSmall(cf) && MethodsReadable(cf.methods)
  }

  lemma SuperIsName(cf: ClassFile)
    requires WellShaped(cf)
    ensures RefsOf(cf).superClassName == SuperClassOf(cf)
  {
  }

  /** For every class file that can be read: the set that the walk goes over holds exactly the classes that the
      file refers to. */
  lemma AllRefsAreReferences(cf: ClassFile, n: string)
    requires Readable(cf)
    ensures Parse(Encode(cf)).Success?
    ensures n in AllRefs(Parse(Encode(cf)).value.0) <==> RefersTo(cf, n)
  {
    hide Parse, Encode, WellShaped, FlagsOk, CountsSmall, MethodsReadable, MethodClasses, MethodMentions, NameOf;
    ParseInvertsEncode(cf);
    MethodsAreMentioned(cf.methods, n);
    SuperIsName(cf);
  }

  lemma {:induction false} SeenInSome(methods: seq<Method>, n: string)
    ensures n in MethodsSeen(methods) <==> exists i :: 0 <= i < |methods| && n in SeenIn(methods[i].methodType)
    decreases |methods|
  {
    hide SeenIn;
    if methods == [] {
    } else {
      SeenInSome(methods[1..], n);
      if i :| 0 <= i < |methods[1..]| && n in SeenIn(methods[1..][i].methodType) {
        assert n in SeenIn(methods[i + 1].methodType);
      }
      if i :| 0 <= i < |methods| && n in SeenIn(methods[i].methodType) && i > 0 {
        assert n in SeenIn(methods[1..][i - 1].methodType);
      }
    }
  }

  /** And for every class file that is parsed to its end, with parentheses in its descriptors or without: the
      walk also goes over what is taken for a class of a method, and over nothing else. */
  lemma AllRefsAreSeen(cf: ClassFile, n: string)
    requires WellShaped(cf) && Parse(Encode(cf)).Success?
    ensures n in AllRefs(Parse(Encode(cf)).value.0) <==>
      || n == SuperClassOf(cf)
      || (exists i :: 0 <= i < |cf.interfaces| && NameOf(cf.entries, cf.interfaces[i]) == n)
      || (exists i :: 0 <= i < |cf.fields| && cf.fields[i].fieldType == D.Object(n))
      || (exists i :: 0 <= i < |cf.methods| && n in SeenIn(cf.methods[i].methodType))
  {
    hide Parse, Encode, WellShaped, FlagsOk, PoolOk, CountsSmall, FirstBroken, MethodsSeen, NameOf, SeenIn;
    ParseOfEncode(cf);
    SuperIsName(cf);
    SeenInSome(cf.methods, n);
  }

  // The walk over class files

  /** The bytes of a class file as the text that goes over the channel. */
  function TextOf(bytes: seq<Byte>): (text: string)
    ensures |text| == |bytes|
  {
    seq(|bytes|, i requires 0 <= i < |bytes| => bytes[i] as char)
  }

  function BytesOf(text: string): (bytes: seq<Byte>)
    ensures |bytes| == |text|
  {
    seq(|text|, i requires 0 <= i < |text| => (text[i] as int) % 256)
  }

  lemma BytesOfText(bytes: seq<Byte>)
    ensures BytesOf(TextOf(bytes)) == bytes
  {
  }

  /** What the walk looks up for a file that can be parsed is what the parser collects. */
  ghost predicate RefsAreParsed(w: World) {
    forall code, n :: Parse(BytesOf(code)).Success? ==>
      (n in w.refs(code) <==> n in AllRefs(Parse(BytesOf(code)).value.0))
  }

  /** The byte code that can be had is that of these class files, by name with slashes. */
  ghost predicate MadeOf(w: World, files: map<string, ClassFile>) {
    && RefsAreParsed(w) && w.code.Keys == files.Keys
    && forall n :: n in files ==> Readable(files[n]) && w.code[n] == TextOf(Encode(files[n]))
  }

  /** A chain of references from a class file through files, every class on it one that the walk has to send. */
  predicate FilePath(w: World, s: ServerStore, files: map<string, ClassFile>, cf: ClassFile, path: seq<string>)
    requires WellShaped(cf) && forall n :: n in files ==> WellShaped(files[n])
    decreases |path|
  {
    && path != [] && RefersTo(cf, path[0]) && Fetchable(w, s, path[0])
    && (|path| > 1 ==> ToSlashes(path[0]) in files && FilePath(w, s, files, files[ToSlashes(path[0])], path[1..]))
  }

  /** Some such chain leads to the class. */
  ghost predicate Leads(w: World, s: ServerStore, files: map<string, ClassFile>, cf: ClassFile, n: string)
    requires WellShaped(cf) && forall f :: f in files ==> WellShaped(files[f])
  {
    exists path :: FilePath(w, s, files, cf, path) && path[|path| - 1] == n
  }

  lemma RefsOfFile(w: World, cf: ClassFile, n: string)
    requires RefsAreParsed(w) && Readable(cf)
    ensures n in w.refs(TextOf(Encode(cf))) <==> RefersTo(cf, n)
  {
    hide Parse, Encode, Readable, RefersTo, AllRefs, TextOf, BytesOf;
    BytesOfText(Encode(cf));
    AllRefsAreReferences(cf, n);
    var code := TextOf(Encode(cf));
    assert BytesOf(code) == Encode(cf);
  }

  lemma CodeOfFile(w: World, s: ServerStore, files: map<string, ClassFile>, name: string)
    requires MadeOf(w, files) && Fetchable(w, s, name)
    ensures ToSlashes(name) in files && Readable(files[ToSlashes(name)])
    ensures CodeOf(w, name) == TextOf(Encode(files[ToSlashes(name)]))
  {
    hide RefsAreParsed, Readable, Encode, TextOf;
  }

  lemma FilesAreShaped(w: World, files: map<string, ClassFile>)
    requires MadeOf(w, files)
    ensures forall n :: n in files ==> WellShaped(files[n])
  {
    hide RefsAreParsed, WellShaped, FlagsOk, CountsSmall, MethodsReadable;
  }

  lemma {:induction false} PathsThroughFiles(w: World, s: ServerStore, files: map<string, ClassFile>, cf: ClassFile,
        path: seq<string>)
    requires MadeOf(w, files) && Readable(cf)
    ensures forall n :: n in files ==> WellShaped(files[n])
    ensures IsPath(w, s, TextOf(Encode(cf)), path) <==> FilePath(w, s, files, cf, path)
    decreases |path|
  {
    hide RefsAreParsed, Readable, Encode, TextOf, RefersTo, Fetchable, CodeOf;
    FilesAreShaped(w, files);
    if path != [] {
      RefsOfFile(w, cf, path[0]);
      if Fetchable(w, s, path[0]) {
        CodeOfFile(w, s, files, path[0]);
        if |path| > 1 { PathsThroughFiles(w, s, files, files[ToSlashes(path[0])], path[1..]); }
      }
    }
  }

  /** Where the byte code is that of class files: the walk from a class file sends exactly the classes that
      chains of superclasses, interfaces, field types and method types lead to, through classes the server
      lacked and byte code can be had of. */
  lemma SentExactlyWhatFilesReferTo(w: World, files: map<string, ClassFile>, s: ServerStore, t: ServerStore,
        cf: ClassFile, names: seq<string>, n: string)
    requires MadeOf(w, files) && Readable(cf)
    requires Progress(w, s, t, names, TextOf(Encode(cf))) && AllSettled(w, t, TextOf(Encode(cf)))
    ensures forall f :: f in files ==> WellShaped(files[f])
    ensures Leads(w, s, files, cf, n) ==> exists i :: 0 <= i < |names| && ToDots(names[i]) == ToDots(n)
    ensures n in names ==> Leads(w, s, files, cf, n)
  {
    hide MadeOf, WellShaped, FlagsOk, CountsSmall, MethodsReadable, Encode, TextOf, Progress, AllSettled, RefersTo;
    FilesAreShaped(w, files);
    var code := TextOf(Encode(cf));
    SentExactlyWhatIsReachable(w, s, t, code, names, n);
    if Leads(w, s, files, cf, n) {
      var path :| FilePath(w, s, files, cf, path) && path[|path| - 1] == n;
      PathsThroughFiles(w, s, files, cf, path);
      assert Reachable(w, s, code, n);
    }
    if n in names {
      var path :| IsPath(w, s, code, path) && path[|path| - 1] == n;
      PathsThroughFiles(w, s, files, cf, path);
    }
  }
}
