/** Trace contexts and their chains of open spans. Clocks and random numbers are parameters. */
module Tracing {
  import opened Wrappers

  /** What a span holds, apart from its parent. */
  datatype SpanData = SpanData(traceId: string, spanId: string, name: string, timestamp: int,
                               annotations: map<string, int>, binaryAnnotations: map<string, string>,
                                 flags: seq<string>,
                               serviceName: string, ipv4: Option<string>, port: int)

  const UNKNOWN := "Unknown"

  /** A span as it is created. */
  function NewData(traceId: string, spanId: string, name: string, time: int): SpanData {
    SpanData(traceId, spanId, name, time, map["cs" := time], map[], [], UNKNOWN, None, 0)
  }

  /** A copy has everything but the service name. */
  function Copied(d: SpanData): SpanData {
    d.(serviceName := UNKNOWN)
  }

  function CopiedChain(chain: seq<SpanData>): (r: seq<SpanData>)
    ensures |r| == |chain|
  {
    seq(|chain|, i requires 0 <= i < |chain| => Copied(chain[i]))
  }

  lemma CopiedChainStep(d: SpanData, rest: seq<SpanData>)
    ensures CopiedChain([d] + rest) == [Copied(d)] + CopiedChain(rest) && CopiedChain([]) == []
  {
  }

  /** What the exporter gets. */
  datatype Exported = Exported(data: SpanData, parentId: Option<string>, duration: int)

  /** The current span of a chain, as it is exported when it is closed at the given time. */
  function ExportOf(chain: seq<SpanData>, time: int, stackTrace: string): Exported
    requires chain != []
  {
    Exported(chain[0].(annotations := chain[0].annotations["cr" := time],
                       binaryAnnotations := chain[0].binaryAnnotations["closing stacktrace" := stackTrace]),
             if |chain| > 1 then Some(chain[1].spanId) else None,
             if time - chain[0].timestamp < 1 then 1 else time - chain[0].timestamp)
  }

  method CopyMap<V(==)>(m: map<string, V>) returns (r: map<string, V>)
    ensures r == m
  {
    r := map[];
    var left := m.Keys;
    while left != {}
      invariant left <= m.Keys && r.Keys == m.Keys - left
      invariant forall k :: k in r ==> r[k] == m[k]
      decreases |left|
    {
      var k :| k in left;
      r := r[k := m[k]];
      left := left - {k};
    }
  }

  lemma ExportIs(chain: seq<SpanData>, above: seq<SpanData>, time: int, stackTrace: string)
    requires chain != [] && chain == [chain[0]] + above
    ensures ExportOf(chain, time, stackTrace)
      == Exported(chain[0].(annotations := chain[0].annotations["cr" := time],
                            binaryAnnotations := chain[0].binaryAnnotations["closing stacktrace" := stackTrace]),
                  if above == [] then None else Some(above[0].spanId),
                  if time - chain[0].timestamp < 1 then 1 else time - chain[0].timestamp)
  {
  }

  lemma RestOf(first: SpanData, rest: seq<SpanData>)
    ensures ([first] + rest)[1..] == rest
  {
  }

  class Span {
    const parentSpan: Span?
    const traceId: string
    const spanId: string
    const timestamp: int
    var name: string
    var annotations: map<string, int>
    var binaryAnnotations: map<string, string>
    var flags: seq<string>
    var serviceName: string
    var ipv4: Option<string>
    var port: int
    var duration: int
    ghost const Repr: set<Span>  // the span and those above it

    /** The chain above has no cycle and belongs to one trace. */
    ghost predicate Valid()
      decreases |Repr|
    {
      && this in Repr
      && (parentSpan == null ==> Repr == {this})
      && (parentSpan != null ==>
            && parentSpan in Repr && Repr == {this} + parentSpan.Repr && this !in parentSpan.Repr
            && |parentSpan.Repr| < |Repr| && parentSpan.Valid() && parentSpan.traceId == traceId)
    }

    function Data(): SpanData
      reads this
    {
      SpanData(traceId, spanId, name, timestamp, annotations, binaryAnnotations, flags, serviceName, ipv4, port)
    }

    /** From this span up to the top. */
    ghost function Chain(): (r: seq<SpanData>)
      requires Valid()
      reads Repr
      ensures r != [] && r[0] == Data()
      decreases |Repr|
    {
      [Data()] + if parentSpan == null then [] else parentSpan.Chain()
    }

    lemma ChainIs()
      requires Valid()
      ensures Chain() == if parentSpan == null then [Data()] + [] else [Data()] + parentSpan.Chain()
    {
    }

    lemma ParentIsApart()
      requires Valid()
      ensures this in Repr && (parentSpan != null ==>
        parentSpan.Valid() && this !in parentSpan.Repr && parentSpan.Repr <= Repr && parentSpan.traceId == traceId)
    {
    }

    constructor Top(traceId: string, name: string, spanId: string, time: int)
      ensures Valid() && Repr == {this}
      ensures Chain() == [NewData(traceId, spanId, name, time)]
    {
      this.traceId, this.spanId, this.name, this.timestamp := traceId, spanId, name, time;
      parentSpan := null;
      annotations, binaryAnnotations, flags := map["cs" := time], map[], [];
      serviceName, ipv4, port, duration := UNKNOWN, None, 0, 0;
      Repr := {this};
    }

    constructor Nested(traceId: string, parent: Span, name: string, spanId: string, time: int)
      requires parent.Valid() && parent.traceId == traceId
      ensures Valid() && parentSpan == parent && Repr == {this} + parent.Repr
      ensures Chain() == [NewData(traceId, spanId, name, time)] + parent.Chain()
    {
      this.traceId, this.spanId, this.name, this.timestamp := traceId, spanId, name, time;
      parentSpan := parent;
      annotations, binaryAnnotations, flags := map["cs" := time], map[], [];
      serviceName, ipv4, port, duration := UNKNOWN, None, 0, 0;
      Repr := {this} + parent.Repr;
      new;
      assert this !in parent.Repr;
    }

    /** Copies one span below the copy of its parent. */
    constructor Copy(span: Span, parent: Span?)
      requires parent != null ==> parent.Valid() && parent.traceId == span.traceId
      ensures Valid() && Repr == {this} + (if parent == null then {} else parent.Repr) && traceId == span.traceId
      ensures Chain() == [Copied(span.Data())] + (if parent == null then [] else parent.Chain())
    {
      traceId, spanId, timestamp, name := span.traceId, span.spanId, span.timestamp, span.name;
      var copiedAnnotations := CopyMap(span.annotations);
      var copiedBinary := CopyMap(span.binaryAnnotations);
      annotations, binaryAnnotations, flags := copiedAnnotations, copiedBinary, span.flags;
      ipv4, port := span.ipv4, span.port;
      serviceName, duration := UNKNOWN, 0;
      parentSpan := parent;
      Repr := {this} + if parent == null then {} else parent.Repr;
      new;
      assert parent != null ==> this !in parent.Repr;
    }

    /** Copies the whole chain, from the top down. */
    static method CopyOf(span: Span) returns (copy: Span)
      requires span.Valid()
      ensures copy.Valid() && fresh(copy.Repr) && copy.traceId == span.traceId
      ensures copy.Chain() == CopiedChain(old(span.Chain()))
      decreases |span.Repr|
    {
      hide CopiedChain, Copied, Span.Chain;
      span.ChainIs();
      if span.parentSpan == null {
        CopiedChainStep(span.Data(), []);
        copy := new Span.Copy(span, null);
      } else {
        CopiedChainStep(span.Data(), span.parentSpan.Chain());
        var parent := CopyOf(span.parentSpan);
        copy := new Span.Copy(span, parent);
      }
    }

    function GetParentSpanId(): Option<string> {
      if parentSpan == null then None else Some(parentSpan.spanId)
    }

    method Add(key: string, value: string)
      requires Valid()
      modifies this`binaryAnnotations
      ensures binaryAnnotations == old(binaryAnnotations)[key := value]
      ensures Chain() == [Data()] + old(Chain())[1..]
    {
      binaryAnnotations := binaryAnnotations[key := value];
    }

    method SetServiceName(serviceName: string)
      requires Valid()
      modifies this`serviceName
      ensures this.serviceName == serviceName && Chain() == [Data()] + old(Chain())[1..]
    {
      this.serviceName := serviceName;
    }

    method SetIp(ip: string)
      requires Valid()
      modifies this`ipv4
      ensures ipv4 == Some(ip) && Chain() == [Data()] + old(Chain())[1..]
    {
      ipv4 := Some(ip);
    }

    method SetPort(port: int)
      requires Valid()
      modifies this`port
      ensures this.port == port && Chain() == [Data()] + old(Chain())[1..]
    {
      this.port := port;
    }

    method Export(time: int) returns (e: Exported)
      modifies this`annotations, this`duration
      ensures annotations == old(annotations)["cr" := time]
      ensures e == Exported(Data(), GetParentSpanId(), if time - timestamp < 1 then 1 else time - timestamp)
    {
      annotations := annotations["cr" := time];
      duration := time - timestamp;
      if duration < 1 {
        duration := 1;
      }
      e := Exported(Data(), GetParentSpanId(), duration);
    }

    /** The last annotation of a span, and its export. */
    method Close(time: int, stackTrace: string) returns (e: Exported)
      requires Valid() && (parentSpan != null ==> parentSpan.Valid())
      modifies this
      ensures e == ExportOf(old(Chain()), time, stackTrace)
      ensures parentSpan != null ==> parentSpan.Chain() == old(parentSpan.Chain())
    {
      hide Valid, Chain, ExportOf;
      ghost var above := if parentSpan == null then [] else parentSpan.Chain();
      ChainIs();
      ParentIsApart();
      ExportIs(Chain(), above, time, stackTrace);
      Add("closing stacktrace", stackTrace);
      e := Export(time);
    }
  }

  /** A new current span on a chain. */
  function Opened(traceId: string, chain: seq<SpanData>, name: string, spanId: string, time: int,
        stackTrace: string): seq<SpanData> {
    [NewData(traceId, spanId, name, time).(binaryAnnotations := map["opening stacktrace" := stackTrace])] + chain
  }

  class TraceContext {
    const traceId: string
    var span: Span?

    ghost predicate Valid()
      reads this
    {
      span != null ==> span.Valid() && span.traceId == traceId
    }

    /** The spans of the chain. */
    ghost function Spans(): set<Span>
      reads this
    {
      if span == null then {} else span.Repr
    }

    ghost function Chain(): seq<SpanData>
      requires Valid()
      reads this, Spans()
    {
      if span == null then [] else span.Chain()
    }

    lemma CurrentIsOwn()
      requires Valid()
      ensures (span != null ==> span in Spans()) && (span == null <==> Chain() == [])
    {
    }

    constructor Create(id: string)
      ensures Valid() && traceId == id && Spans() == {} && Chain() == []
    {
      traceId := id;
      span := null;
    }

    constructor CopyFrom(context: TraceContext)
      requires context.Valid()
      ensures Valid() && traceId == context.traceId && fresh(Spans())
      ensures Chain() == CopiedChain(old(context.Chain()))
    {
      var copy: Span? := null;
      if context.span != null {
        copy := Span.CopyOf(context.span);
      }
      traceId := context.traceId;
      span := copy;
    }

    /** An annotation on the current span. */
    method Annotate(key: string, value: string)
      requires Valid() && span != null
      modifies span
      ensures Valid()
      ensures Chain()
        == [old(Chain())[0].(binaryAnnotations := old(Chain())[0].binaryAnnotations[key := value])] + old(Chain())[1..]
    {
      span.Add(key, value);
    }

    method OpenNestedSpan(name: string, spanId: string, time: int, stackTrace: string)
      requires Valid()
      modifies this
      ensures Valid() && span != null && fresh(span) && Spans() == old(Spans()) + {span}
      ensures Chain() == Opened(traceId, old(Chain()), name, spanId, time, stackTrace)
    {
      hide Span.Valid, Span.Chain;
      ghost var above := Chain();
      if span == null {
        span := new Span.Top(traceId, name, spanId, time);
      } else {
        span := new Span.Nested(traceId, span, name, spanId, time);
      }
      assert Chain() == [NewData(traceId, spanId, name, time)] + above;
      Annotate("opening stacktrace", stackTrace);
    }

    method NameService(serviceName: string)
      requires Valid() && span != null
      modifies span
      ensures Valid()
      ensures Chain() == [old(Chain())[0].(serviceName := serviceName)] + old(Chain())[1..]
    {
      span.SetServiceName(serviceName);
    }

    method SetEndpoint(ip: string, port: int)
      requires Valid() && span != null
      modifies span
      ensures Valid()
      ensures Chain() == [old(Chain())[0].(ipv4 := Some(ip), port := port)] + old(Chain())[1..]
    {
      span.SetIp(ip);
      span.SetPort(port);
    }

    /** None stands for the null pointer exception when there is no current span. */
    method CloseCurrentSpan(time: int, stackTrace: string) returns (e: Option<Exported>)
      requires Valid()
      modifies this, span
      ensures Valid() && Spans() <= old(Spans())
      ensures e.Some? <==> old(Chain()) != []
      ensures e.Some? ==> e.value == ExportOf(old(Chain()), time, stackTrace)
      ensures Chain() == if old(Chain()) == [] then [] else old(Chain())[1..]
    {
      if span == null {
        return None;
      }
      hide Span.Valid, Span.Chain, ExportOf;
      var current := span;
      current.ChainIs();
      current.ParentIsApart();
      ghost var above := if current.parentSpan == null then [] else current.parentSpan.Chain();
      RestOf(current.Data(), above);
      var exported := current.Close(time, stackTrace);
      span := current.parentSpan;
      e := Some(exported);
    }

    method DeepCopy() returns (copy: TraceContext)
      requires Valid()
      ensures fresh(copy) && copy.Valid() && fresh(copy.Spans())
      ensures copy.traceId == traceId && copy.Chain() == CopiedChain(old(Chain()))
    {
      copy := new TraceContext.CopyFrom(this);
    }
  }

  // Many contexts

  datatype Context = Context(traceId: string, chain: seq<SpanData>)

  datatype Operation =
    | Create(id: string)
    | Open(at: nat, name: string, spanId: string, time: int, stackTrace: string)
    | Close(at: nat, time: int, stackTrace: string)
    | Annotate(at: nat, key: string, value: string)
    | NameService(at: nat, serviceName: string)
    | SetEndpoint(at: nat, ip: string, port: int)
    | Copy(at: nat)

  /** One operation on one chain; where there is no span, only a new one can be opened. */
  function OnChain(c: Context, op: Operation): Context {
    match op
    case Open(_, name, spanId, time, stackTrace) =>
      c.(chain := Opened(c.traceId, c.chain, name, spanId, time, stackTrace))
    case Close(_, _, _) => if c.chain == [] then c else c.(chain := c.chain[1..])
    case Annotate(_, key, value) =>
      if c.chain == [] then c
      else c.(chain := [c.chain[0].(binaryAnnotations := c.chain[0].binaryAnnotations[key := value])] + c.chain[1..])
    case NameService(_, serviceName) =>
      if c.chain == [] then c else c.(chain := [c.chain[0].(serviceName := serviceName)] + c.chain[1..])
    case SetEndpoint(_, ip, port) =>
      if c.chain == [] then c else c.(chain := [c.chain[0].(ipv4 := Some(ip), port := port)] + c.chain[1..])
    case _ => c
  }

  predicate Possible(w: seq<Context>, op: Operation) {
    op.Create? || op.at < |w|
  }

  function Apply(w: seq<Context>, op: Operation): seq<Context>
    requires Possible(w, op)
  {
    match op
    case Create(id) => w + [Context(id, [])]
    case Copy(at) => w + [Context(w[at].traceId, CopiedChain(w[at].chain))]
    case _ => w[op.at := OnChain(w[op.at], op)]
  }

  /** All contexts of a program: whatever is done to one of them, the others keep their chains. */
  class Contexts {
    var contexts: seq<TraceContext>
    ghost var view: seq<Context>     // their trace ids and chains
    ghost var owner: map<Span, nat>  // the one context whose chain a span is in

    ghost predicate Owns(i: nat)
      requires i < |contexts|
      reads this, contexts[i]
    {
      contexts[i].Valid() && forall s :: s in contexts[i].Spans() ==> s in owner && owner[s] == i
    }

    ghost predicate Shows(i: nat)
      requires i < |contexts| && |view| == |contexts| && Owns(i)
      reads this, contexts[i], contexts[i].Spans()
    {
      view[i] == Context(contexts[i].traceId, contexts[i].Chain())
    }

    ghost predicate Valid()
      reads this, contexts, owner.Keys
    {
      && |view| == |contexts|
      && (forall i, j :: 0 <= i < j < |contexts| ==> contexts[i] != contexts[j])
      && (forall i :: 0 <= i < |contexts| ==> Owns(i) && Shows(i))
    }

    /** A context that nothing has touched. */
    twostate lemma Stays(i: nat)
      requires old(i < |contexts| && |view| == |contexts| && Owns(i) && Shows(i))
      requires i < |contexts| && |view| == |contexts| && contexts[i] == old(contexts[i]) && view[i] == old(view[i])
      requires unchanged(contexts[i]) && unchanged(contexts[i].Spans())
      requires forall s :: s in old(owner) && old(owner)[s] == i ==> s in owner && owner[s] == i
      ensures Owns(i) && Shows(i)
    {
    }

    /** Two contexts, and their chains, have nothing in common. */
    lemma Apart(i: nat, j: nat)
      requires Valid() && i < |contexts| && j < |contexts| && i != j
      ensures contexts[i] != contexts[j] && contexts[i].Spans() !! contexts[j].Spans()
    {
      hide Span.Valid, Span.Chain, TraceContext.Chain;
      assert Owns(i) && Owns(j);
      assert i < j ==> contexts[i] != contexts[j];
    }

    constructor ()
      ensures Valid() && view == []
    {
      contexts, view, owner := [], [], map[];
    }

    method CreateContext(id: string)
      requires Valid()
      modifies this
      ensures Valid() && view == Apply(old(view), Create(id))
    {
      hide Span.Valid, Span.Chain, Opened, CopiedChain;
      var c := new TraceContext.Create(id);
      contexts := contexts + [c];
      view := view + [Context(id, [])];
      forall i | 0 <= i < |contexts| ensures Owns(i) && Shows(i) {
        if i < |old(contexts)| { Stays(i); }
      }
    }

    method CopyContext(at: nat)
      requires Valid() && at < |contexts|
      modifies this
      ensures Valid() && view == Apply(old(view), Copy(at))
    {
      hide Span.Valid, Span.Chain, TraceContext.Chain, Opened, CopiedChain;
      assert Owns(at) && Shows(at);
      var c := contexts[at].DeepCopy();
      contexts := contexts + [c];
      view := view + [Context(c.traceId, c.Chain())];
      owner := owner + map s | s in c.Spans() :: |contexts| - 1;
      forall i | 0 <= i < |contexts| ensures Owns(i) && Shows(i) {
        if i < |old(contexts)| { Stays(i); }
      }
    }

    method OpenIn(at: nat, name: string, spanId: string, time: int, stackTrace: string)
      requires Valid() && at < |contexts|
      modifies this, contexts[at]
      ensures Valid() && view == Apply(old(view), Open(at, name, spanId, time, stackTrace))
    {
      hide Span.Valid, Span.Chain, Opened, CopiedChain;
      assert Owns(at) && Shows(at);
      contexts[at].OpenNestedSpan(name, spanId, time, stackTrace);
      view := Apply(view, Open(at, name, spanId, time, stackTrace));
      owner := owner[contexts[at].span := at];
      forall i | 0 <= i < |contexts| ensures Owns(i) && Shows(i) {
        if i != at { Stays(i); }
      }
    }

    method AnnotateIn(at: nat, key: string, value: string)
      requires Valid() && at < |contexts|
      modifies this, contexts[at].Spans()
      ensures Valid() && view == Apply(old(view), Annotate(at, key, value))
    {
      hide Span.Valid, Span.Chain, TraceContext.Chain;
      assert Owns(at) && Shows(at);
      contexts[at].CurrentIsOwn();
      forall i | 0 <= i < |contexts| && i != at
        ensures contexts[i] != contexts[at] && contexts[i].Spans() !! contexts[at].Spans()
      {
        Apart(i, at);
      }
      if contexts[at].span != null {
        contexts[at].Annotate(key, value);
      }
      view := Apply(view, Annotate(at, key, value));
      forall i | 0 <= i < |contexts| ensures Owns(i) && Shows(i) {
        if i != at { Stays(i); }
      }
    }

    method NameServiceIn(at: nat, serviceName: string)
      requires Valid() && at < |contexts|
      modifies this, contexts[at].Spans()
      ensures Valid() && view == Apply(old(view), NameService(at, serviceName))
    {
      hide Span.Valid, Span.Chain, TraceContext.Chain;
      assert Owns(at) && Shows(at);
      contexts[at].CurrentIsOwn();
      forall i | 0 <= i < |contexts| && i != at
        ensures contexts[i] != contexts[at] && contexts[i].Spans() !! contexts[at].Spans()
      {
        Apart(i, at);
      }
      if contexts[at].span != null {
        contexts[at].NameService(serviceName);
      }
      view := Apply(view, NameService(at, serviceName));
      forall i | 0 <= i < |contexts| ensures Owns(i) && Shows(i) {
        if i != at { Stays(i); }
      }
    }

    method SetEndpointIn(at: nat, ip: string, port: int)
      requires Valid() && at < |contexts|
      modifies this, contexts[at].Spans()
      ensures Valid() && view == Apply(old(view), SetEndpoint(at, ip, port))
    {
      hide Span.Valid, Span.Chain, TraceContext.Chain;
      assert Owns(at) && Shows(at);
      contexts[at].CurrentIsOwn();
      forall i | 0 <= i < |contexts| && i != at
        ensures contexts[i] != contexts[at] && contexts[i].Spans() !! contexts[at].Spans()
      {
        Apart(i, at);
      }
      if contexts[at].span != null {
        contexts[at].SetEndpoint(ip, port);
      }
      view := Apply(view, SetEndpoint(at, ip, port));
      forall i | 0 <= i < |contexts| ensures Owns(i) && Shows(i) {
        if i != at { Stays(i); }
      }
    }

    method CloseIn(at: nat, time: int, stackTrace: string) returns (e: Option<Exported>)
      requires Valid() && at < |contexts|
      modifies this, contexts[at], contexts[at].Spans()
      ensures Valid() && view == Apply(old(view), Close(at, time, stackTrace))
      ensures e == if old(view)[at].chain == [] then None else Some(ExportOf(old(view)[at].chain, time, stackTrace))
    {
      hide Span.Valid, Span.Chain, TraceContext.Chain;
      assert Owns(at) && Shows(at);
      contexts[at].CurrentIsOwn();
      forall i | 0 <= i < |contexts| && i != at
        ensures contexts[i] != contexts[at] && contexts[i].Spans() !! contexts[at].Spans()
      {
        Apart(i, at);
      }
      e := contexts[at].CloseCurrentSpan(time, stackTrace);
      view := Apply(view, Close(at, time, stackTrace));
      forall i | 0 <= i < |contexts| ensures Owns(i) && Shows(i) {
        if i != at { Stays(i); }
      }
    }
  }

  // Every run

  function ApplyAll(ops: seq<Operation>): Option<seq<Context>> {
    if ops == [] then Some([]) else
      match ApplyAll(ops[..|ops| - 1])
      case None => None
      case Some(w) => if Possible(w, ops[|ops| - 1]) then Some(Apply(w, ops[|ops| - 1])) else None
  }

  predicate OneTrace(c: Context) {
    forall i :: 0 <= i < |c.chain| ==> c.chain[i].traceId == c.traceId
  }

  /** Every run: all spans of a context carry its trace id. */
  lemma {:induction false} RunsKeepOneTrace(ops: seq<Operation>)
    requires ApplyAll(ops).Some?
    ensures forall i :: 0 <= i < |ApplyAll(ops).value| ==> OneTrace(ApplyAll(ops).value[i])
  {
    if ops == [] {
    } else {
      RunsKeepOneTrace(ops[..|ops| - 1]);
    }
  }

  /** What of an exported span ties it to its trace. */
  function Ids(e: Exported): (string, string, Option<string>) {
    (e.data.traceId, e.data.spanId, e.parentId)
  }

  /** What a sequence of operations on one context exports; closing without a span ends it. */
  function ExportedIds(c: Context, ops: seq<Operation>): seq<(string, string, Option<string>)>
    decreases |ops|
  {
    if ops == [] then [] else
      (match ops[0]
       case Close(_, time, stackTrace) => if c.chain == [] then [] else [Ids(ExportOf(c.chain, time, stackTrace))]
       case _ => []) + ExportedIds(OnChain(c, ops[0]), ops[1..])
  }

  predicate SameIds(a: Context, b: Context) {
    && a.traceId == b.traceId && |a.chain| == |b.chain|
    && forall i :: 0 <= i < |a.chain| ==>
         a.chain[i].traceId == b.chain[i].traceId && a.chain[i].spanId == b.chain[i].spanId
  }

  lemma SameIdsHead(a: Context, b: Context, x: SpanData, y: SpanData)
    requires SameIds(a, b) && a.chain != [] && x.traceId == y.traceId && x.spanId == y.spanId
    ensures SameIds(a.(chain := [x] + a.chain[1..]), b.(chain := [y] + b.chain[1..]))
  {
    var more, other := [x] + a.chain[1..], [y] + b.chain[1..];
    assert more[0] == x && other[0] == y;
    forall i | 0 <= i < |more| ensures more[i].traceId == other[i].traceId && more[i].spanId == other[i].spanId {
      if i > 0 { assert more[i] == a.chain[i] && other[i] == b.chain[i]; }
    }
  }

  lemma SameIdsStart(a: Context, b: Context)
    requires SameIds(a, b) && a.chain != []
    ensures b.chain != [] && a.chain[0].traceId == b.chain[0].traceId && a.chain[0].spanId == b.chain[0].spanId
  {
  }

  /** What is done to the current span leaves its ids. */
  lemma SameIdsOnTop(a: Context, b: Context, op: Operation)
    requires SameIds(a, b) && !op.Close? && !op.Open?
    ensures SameIds(OnChain(a, op), OnChain(b, op))
  {
    if a.chain != [] && (op.Annotate? || op.NameService? || op.SetEndpoint?) {
      hide SameIds;
      SameIdsStart(a, b);
      SameIdsHead(a, b, OnChain(a, op).chain[0], OnChain(b, op).chain[0]);
    }
  }

  lemma SameIdsStep(a: Context, b: Context, op: Operation)
    requires SameIds(a, b)
    ensures SameIds(OnChain(a, op), OnChain(b, op)) && (a.chain == [] <==> b.chain == [])
    ensures a.chain != [] && op.Close? ==>
      Ids(ExportOf(a.chain, op.time, op.stackTrace)) == Ids(ExportOf(b.chain, op.time, op.stackTrace))
  {
    match op {
      case Close(_, _, _) =>
      case Open(_, _, _, _, _) =>
      case _ => SameIdsOnTop(a, b, op);
    }
  }

  lemma {:induction false} SameIdsExportAlike(a: Context, b: Context, ops: seq<Operation>)
    requires SameIds(a, b)
    ensures ExportedIds(a, ops) == ExportedIds(b, ops)
    decreases |ops|
  {
    hide OnChain, SameIds;
    if ops == [] {
    } else {
      SameIdsStep(a, b, ops[0]);
      SameIdsExportAlike(OnChain(a, ops[0]), OnChain(b, ops[0]), ops[1..]);
    }
  }

  /** A copy is the context itself exactly if no span of it has been given a service name. */
  lemma CopyLosesServiceNames(c: Context)
    ensures CopiedChain(c.chain) == c.chain <==> forall i :: 0 <= i < |c.chain| ==> c.chain[i].serviceName == UNKNOWN
  {
    if CopiedChain(c.chain) == c.chain {
      forall i | 0 <= i < |c.chain| ensures c.chain[i].serviceName == UNKNOWN {
        assert CopiedChain(c.chain)[i] == c.chain[i];
      }
    }
  }

  /** The span with d spans above it in the hierarchy. */
  function AtDepth(c: Context, d: nat): SpanData
    requires d < |c.chain|
  {
    c.chain[|c.chain| - 1 - d]
  }

  predicate StaysNamed(c: Context, d: nat, op: Operation) {
    d < |OnChain(c, op).chain| && !(op.NameService? && |c.chain| == d + 1)
  }

  /** The run neither closes that span of the context nor gives it another service name. */
  predicate KeepsSpan(w: seq<Context>, at: nat, d: nat, ops: seq<Operation>)
    requires at < |w|
    decreases |ops|
  {
    ops == [] || (
      && Possible(w, ops[0])
      && (ops[0].Create? || ops[0].Copy? || ops[0].at != at || StaysNamed(w[at], d, ops[0]))
      && KeepsSpan(Apply(w, ops[0]), at, d, ops[1..]))
  }

  function RunOf(w: seq<Context>, at: nat, d: nat, ops: seq<Operation>): (r: seq<Context>)
    requires at < |w| && KeepsSpan(w, at, d, ops)
    ensures |w| <= |r|
    decreases |ops|
  {
    if ops == [] then w else RunOf(Apply(w, ops[0]), at, d, ops[1..])
  }

  lemma NameStays(c: Context, d: nat, op: Operation)
    requires d < |c.chain| && StaysNamed(c, d, op)
    ensures AtDepth(OnChain(c, op), d).serviceName == AtDepth(c, d).serviceName
  {
  }

  lemma StaysInChain(c: Context, d: nat, op: Operation)
    requires StaysNamed(c, d, op)
    ensures d < |OnChain(c, op).chain|
  {
  }

  lemma {:induction false} NameStaysAlong(w: seq<Context>, at: nat, d: nat, ops: seq<Operation>)
    requires at < |w| && d < |w[at].chain| && KeepsSpan(w, at, d, ops)
    ensures var c := RunOf(w, at, d, ops)[at];
      d < |c.chain| && AtDepth(c, d).serviceName == AtDepth(w[at], d).serviceName
    decreases |ops|
  {
    hide OnChain, CopiedChain, StaysNamed;
    if ops == [] {
    } else {
      var op := ops[0];
      if !op.Create? && !op.Copy? && op.at == at {
        NameStays(w[at], d, op);
        assert d < |OnChain(w[at], op).chain| by { StaysInChain(w[at], d, op); }
      }
      NameStaysAlong(Apply(w, op), at, d, ops[1..]);
    }
  }

  /** Every run in which a span is given a service name and its context is copied later, when other spans may
      have been opened on top of it and anything may have been done to it but naming and closing it: where the
      original exports the name, the copy exports none. */
  lemma NamedSpanIsCopiedUnnamed(w: seq<Context>, at: nat, serviceName: string, ops: seq<Operation>, end: int,
        stackTrace: string)
    requires at < |w| && w[at].chain != []
    requires KeepsSpan(Apply(w, NameService(at, serviceName)), at, |w[at].chain| - 1, ops)
    ensures var (d, r) :=
      (|w[at].chain| - 1, RunOf(Apply(w, NameService(at, serviceName)), at, |w[at].chain| - 1, ops));
      var both := Apply(r, Copy(at));
      && d < |both[at].chain| == |both[|r|].chain|
      && var i := |both[at].chain| - 1 - d;
      && ExportOf(both[at].chain[i..], end, stackTrace).data.serviceName == serviceName
      && ExportOf(both[|r|].chain[i..], end, stackTrace).data.serviceName == "Unknown"
      && (ExportOf(both[at].chain[i..], end, stackTrace) == ExportOf(both[|r|].chain[i..], end, stackTrace)
          <==> serviceName == UNKNOWN)
  {
    hide RunOf, KeepsSpan;
    NameStaysAlong(Apply(w, NameService(at, serviceName)), at, |w[at].chain| - 1, ops);
  }

  /** Whatever is done to a copy exports the same trace, span and parent ids as when it is done to the
      original. */
  lemma CopyExportsAlike(c: Context, ops: seq<Operation>)
    ensures ExportedIds(Context(c.traceId, CopiedChain(c.chain)), ops) == ExportedIds(c, ops)
  {
    SameIdsExportAlike(Context(c.traceId, CopiedChain(c.chain)), c, ops);
  }

  // The life of one span

  /** The contexts after the operations, if each was possible when its turn came. */
  function RunAll(w: seq<Context>, ops: seq<Operation>): Option<seq<Context>>
    decreases |ops|
  {
    if ops == [] then Some(w)
    else if Possible(w, ops[0]) then RunAll(Apply(w, ops[0]), ops[1..])
    else None
  }

  /** What the operations do to a span of a context that has `level` spans below it: how many it has below it
      afterwards, and the operations that fell on it because it was the current one; None if it was closed. */
  function Story(ops: seq<Operation>, at: nat, level: nat): Option<(nat, seq<Operation>)>
    decreases |ops|
  {
    if ops == [] then Some((level, [])) else
      var op, rest := ops[0], ops[1..];
      if op.Create? || op.Copy? || op.at != at then Story(rest, at, level)
      else if op.Open? then Story(rest, at, level + 1)
      else if op.Close? then if level == 0 then None else Story(rest, at, level - 1)
      else
        match Story(rest, at, level)
        case None => None
        case Some((end, own)) => Some((end, if level == 0 then [op] + own else own))
  }

  /** The service name given last. */
  function LastName(own: seq<Operation>): string {
    if own == [] then "Unknown" else
      var last := own[|own| - 1];
      if last.NameService? then last.serviceName else LastName(own[..|own| - 1])
  }

  function LastEndpoint(own: seq<Operation>): (Option<string>, int) {
    if own == [] then (None, 0) else
      var last := own[|own| - 1];
      if last.SetEndpoint? then (Some(last.ip), last.port) else LastEndpoint(own[..|own| - 1])
  }

  /** The value an annotation was given last. */
  function LastValue(own: seq<Operation>, key: string): Option<string> {
    if own == [] then None else
      var last := own[|own| - 1];
      if last.Annotate? && last.key == key then Some(last.value) else LastValue(own[..|own| - 1], key)
  }

  /** A span after an operation that fell on it. */
  function Told(d: SpanData, op: Operation): SpanData {
    match op
    case Annotate(_, key, value) => d.(binaryAnnotations := d.binaryAnnotations[key := value])
    case NameService(_, serviceName) => d.(serviceName := serviceName)
    case SetEndpoint(_, ip, port) => d.(ipv4 := Some(ip), port := port)
    case _ => d
  }

  function ToldAll(d: SpanData, own: seq<Operation>): SpanData
    decreases |own|
  {
    if own == [] then d else ToldAll(Told(d, own[0]), own[1..])
  }

  lemma {:induction false} ToldLast(d: SpanData, own: seq<Operation>)
    requires own != []
    ensures ToldAll(d, own) == Told(ToldAll(d, own[..|own| - 1]), own[|own| - 1])
    decreases |own|
  {
    hide Told;
    if |own| == 1 {
      assert own[1..] == [] && own[..0] == [];
    } else {
      var last := |own| - 1;
      ToldLast(Told(d, own[0]), own[1..]);
      assert own[1..][..last - 1] == own[..last][1..] && own[1..][last - 1] == own[last];
    }
  }

  /** What the operations that fell on a span leave of it and in it. */
  lemma {:induction false} ToldTells(d: SpanData, own: seq<Operation>)
    requires d.serviceName == UNKNOWN && d.ipv4 == None && d.port == 0
    ensures var r := ToldAll(d, own);
      && r == d.(binaryAnnotations := r.binaryAnnotations, serviceName := LastName(own),
        ipv4 := LastEndpoint(own).0, port := LastEndpoint(own).1)
      && forall key :: key in r.binaryAnnotations <==> LastValue(own, key).Some? || key in d.binaryAnnotations
    ensures var r := ToldAll(d, own);
      forall key :: key in r.binaryAnnotations ==>
        r.binaryAnnotations[key]
          == if LastValue(own, key).Some? then LastValue(own, key).value else d.binaryAnnotations[key]
    decreases |own|
  {
    if own == [] {
    } else {
      ToldLast(d, own);
      ToldTells(d, own[..|own| - 1]);
    }
  }

  lemma StepOnSpan(c: Context, op: Operation, level: nat)
    requires level < |c.chain| && !op.Create? && !op.Copy? && !op.Open? && !op.Close?
    ensures var r := OnChain(c, op);
      && |r.chain| == |c.chain| && r.traceId == c.traceId
      && r.chain[level..] == if level == 0 then [Told(c.chain[0], op)] + c.chain[1..] else c.chain[level..]
  {
  }

  lemma OpenOverSpan(c: Context, op: Operation, level: nat)
    requires level < |c.chain| && op.Open?
    ensures var r := OnChain(c, op);
      |r.chain| == |c.chain| + 1 && r.chain[level + 1..] == c.chain[level..] && r.traceId == c.traceId
  {
    var r := OnChain(c, op);
    assert r.chain[1..] == c.chain;
    assert r.chain[1..][level..] == r.chain[level + 1..];
  }

  lemma CloseUnderSpan(c: Context, op: Operation, level: nat)
    requires 0 < level < |c.chain| && op.Close?
    ensures var r := OnChain(c, op);
      |r.chain| == |c.chain| - 1 && r.chain[level - 1..] == c.chain[level..] && r.traceId == c.traceId
  {
    assert c.chain[1..][level - 1..] == c.chain[level..];
  }

  lemma TailsAgree(a: seq<SpanData>, i: nat, b: seq<SpanData>, j: nat)
    requires i < |a| && j < |b| && a[i..] == b[j..]
    ensures a[i] == b[j] && a[i + 1..] == b[j + 1..]
  {
    assert a[i..][0] == b[j..][0];
    assert a[i..][1..] == a[i + 1..] && b[j..][1..] == b[j + 1..];
  }

  /** One operation on the context. */
  lemma StoryStep(w: seq<Context>, at: nat, level: nat, ops: seq<Operation>)
    requires at < |w| && level < |w[at].chain| && ops != [] && Possible(w, ops[0]) && Story(ops, at, level).Some?
    ensures var (op, r, own) := (ops[0], Apply(w, ops[0]), Story(ops, at, level).value.1);
      && at < |r| && r[at].traceId == w[at].traceId
      && exists next: nat, more ::
        && next < |r[at].chain|
        && Story(ops[1..], at, next) == Some((Story(ops, at, level).value.0, more))
        && r[at].chain[next + 1..] == w[at].chain[level + 1..]
        && ToldAll(w[at].chain[level], own) == ToldAll(r[at].chain[next], more)
  {
    hide OnChain, Told;
    var op, c, r := ops[0], w[at], Apply(w, ops[0]);
    var (end, own) := Story(ops, at, level).value;
    if op.Create? || op.Copy? || op.at != at {
      assert r[at] == c;
      assert Story(ops[1..], at, level) == Some((end, own));
    } else if op.Open? {
      OpenOverSpan(c, op, level);
      TailsAgree(r[at].chain, level + 1, c.chain, level);
      assert Story(ops[1..], at, level + 1) == Some((end, own));
    } else if op.Close? {
      CloseUnderSpan(c, op, level);
      TailsAgree(r[at].chain, level - 1, c.chain, level);
      assert Story(ops[1..], at, level - 1) == Some((end, own));
    } else {
      StepOnSpan(c, op, level);
      var more := Story(ops[1..], at, level).value.1;
      if level == 0 {
        assert own[1..] == more && r[at].chain[0] == Told(c.chain[0], op);
        assert r[at].chain[1..] == c.chain[1..];
      } else {
        TailsAgree(r[at].chain, level, c.chain, level);
      }
      assert Story(ops[1..], at, level) == Some((end, more));
    }
  }

  lemma NothingTold(d: SpanData)
    ensures ToldAll(d, []) == d
  {
  }

  lemma {:induction false} StoryGoesOn(w: seq<Context>, at: nat, level: nat, ops: seq<Operation>)
    requires at < |w| && level < |w[at].chain| && RunAll(w, ops).Some? && Story(ops, at, level).Some?
    ensures var (r, (end, own)) := (RunAll(w, ops).value, Story(ops, at, level).value);
      && at < |r| && end < |r[at].chain| && r[at].traceId == w[at].traceId
      && r[at].chain[end] == ToldAll(w[at].chain[level], own) && r[at].chain[end + 1..] == w[at].chain[level + 1..]
    decreases |ops|
  {
    hide OnChain, Apply, Possible, ToldAll;
    if ops == [] {
      NothingTold(w[at].chain[level]);
    } else {
      StoryStep(w, at, level, ops);
      var r := Apply(w, ops[0]);
      var next: nat, more :| next < |r[at].chain|
        && Story(ops[1..], at, next) == Some((Story(ops, at, level).value.0, more))
        && r[at].chain[next + 1..] == w[at].chain[level + 1..]
        && ToldAll(w[at].chain[level], Story(ops, at, level).value.1) == ToldAll(r[at].chain[next], more);
      StoryGoesOn(r, at, next, ops[1..]);
    }
  }

  /** Every run, a span from its opening to its closing, whatever is done in between, to it, to spans opened on
      top of it and to other contexts: it is exported under its own name and id, with the id of the span that
      was current when it was opened as its parent; with the two times and the time between them, or 1; with
      the service name and the address it was given last, and its annotations as they were set last, among
      them the two stack traces. The spans above it are as they were. */
  lemma SpanIsExportedWhole(w: seq<Context>, at: nat, name: string, spanId: string, start: int, opening: string,
        ops: seq<Operation>, own: seq<Operation>, end: int, closing: string)
    requires at < |w| && Story(ops, at, 0) == Some((0, own))
    requires RunAll(Apply(w, Open(at, name, spanId, start, opening)), ops).Some?
    ensures var r := RunAll(Apply(w, Open(at, name, spanId, start, opening)), ops).value;
      && at < |r| && r[at].chain != [] && r[at].chain[1..] == w[at].chain
      && var e := ExportOf(r[at].chain, end, closing);
      && (e.data.traceId, e.data.spanId, e.data.name) == (w[at].traceId, spanId, name)
      && e.parentId == (if w[at].chain == [] then None else Some(w[at].chain[0].spanId))
      && e.data.timestamp == start && e.data.annotations == map["cs" := start, "cr" := end]
      && e.duration == (if end - start >= 1 then end - start else 1)
      && e.data.flags == [] && e.data.serviceName == LastName(own)
      && (e.data.ipv4, e.data.port) == LastEndpoint(own)
      && forall key :: key in e.data.binaryAnnotations <==>
        key == "opening stacktrace" || key == "closing stacktrace" || LastValue(own, key).Some?
    ensures var r := RunAll(Apply(w, Open(at, name, spanId, start, opening)), ops).value;
      var annotations := ExportOf(r[at].chain, end, closing).data.binaryAnnotations;
      forall key :: key in annotations ==>
        annotations[key] ==
          if key == "closing stacktrace" then closing
          else if LastValue(own, key).Some? then LastValue(own, key).value else opening
  {
    hide RunAll, Story, ToldAll, LastName, LastEndpoint, LastValue;
    var open := Open(at, name, spanId, start, opening);
    var first := Apply(w, open);
    assert first[at].chain[1..] == w[at].chain;
    StoryGoesOn(first, at, 0, ops);
    ToldTells(first[at].chain[0], own);
  }

  /** A context has the trace id it was created with, and a copy that of its original, whatever is done later. */
  lemma {:induction false} TraceIdStays(w: seq<Context>, at: nat, ops: seq<Operation>)
    requires at < |w| && RunAll(w, ops).Some?
    ensures at < |RunAll(w, ops).value| && RunAll(w, ops).value[at].traceId == w[at].traceId
    decreases |ops|
  {
    if ops == [] {
    } else {
      TraceIdStays(Apply(w, ops[0]), at, ops[1..]);
    }
  }

  lemma NewContextsKeepTheirTrace(w: seq<Context>, id: string, from: nat, ops: seq<Operation>)
    requires from < |w| && RunAll(Apply(Apply(w, Create(id)), Copy(from)), ops).Some?
    ensures var r := RunAll(Apply(Apply(w, Create(id)), Copy(from)), ops).value;
      |r| > |w| + 1 && r[|w|].traceId == id && r[|w| + 1].traceId == w[from].traceId
  {
    hide RunAll, OnChain, CopiedChain;
    var first := Apply(Apply(w, Create(id)), Copy(from));
    assert |first| == |w| + 2 && first[|w|].traceId == id && first[|w| + 1].traceId == w[from].traceId;
    TraceIdStays(first, |w|, ops);
    TraceIdStays(first, |w| + 1, ops);
  }
}
