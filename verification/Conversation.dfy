/** The conversation between the native agent and the instrumentor server: two processes and two FIFO
    channels. Replies carry no tag on the wire; the kind recorded with each message says what its sender
    meant, no process looks at it, and the agent remembers whether it ever took a message for another. */
module Conversation {
  import opened Decimal
  import opened Wrappers

  datatype Kind = OpCode | Ack | Name | Length | Bytes | Marker | Verdict | Answer

  datatype Msg = Msg(kind: Kind, payload: string)

  datatype Request =
    | Instrument(name: string, loader: int)
    | CheckHas(name: string)
    | Register(name: string, code: string)
    | PrepClasses
    | Stop

  function OpCodeOf(r: Request): char {
    match r
    case Instrument(_, _) => 0 as char
    case Stop => 1 as char
    case CheckHas(_) => 2 as char
    case Register(_, _) => 3 as char
    case PrepClasses => 4 as char
  }

  function ToDots(name: string): (r: string)
    ensures |r| == |name|
  {
    seq(|name|, i requires 0 <= i < |name| => if name[i] == '/' then '.' else name[i])
  }

  function ToSlashes(name: string): (r: string)
    ensures |r| == |name|
  {
    seq(|name|, i requires 0 <= i < |name| => if name[i] == '.' then '/' else name[i])
  }

  // What the byte code library is asked to do, left abstract

  datatype Initializer =
    | ForStaticField(interceptor: string, className: string, serialized: string)
    | Compound(parts: seq<Initializer>)
    | OtherInitializer

  datatype Outcome = Ignored | Transformed(aux: seq<(string, string)>, initializers: seq<Initializer>, code: string)

  /** The fixed surroundings of the server: the transformer by class name, the byte code of the
      interceptors, the classes its own class loader finds, and the helper classes it ships. */
  datatype Env = Env(transform: string -> Outcome, interceptorCode: map<string, string>, loadable: set<string>,
      prep: seq<(string, string)>)

  // Messages

  const ACK := Msg(Ack, "ack_req_msg")
  const AUX := "auxiliary_types"
  const NO_MORE_AUX := "no_more_aux_classes"
  const INIT := "initializers"
  const NO_MORE_INIT := "no_more_initializers"
  const YES_INSTRUMENT := "ack_req_int_yes"
  const NO_INSTRUMENT := "ack_req_int_no"
  const YES := "yes"

  /** A length in decimal followed by that many bytes. */
  function Sized(code: string): seq<Msg> {
    [Msg(Length, Numeral(|code|)), Msg(Bytes, code)]
  }

  function NamedClass(c: (string, string)): seq<Msg> {
    [Msg(Name, c.0)] + Sized(c.1)
  }

  function AuxMessages(aux: seq<(string, string)>): seq<Msg> {
    if aux == [] then [] else [Msg(Marker, AUX)] + NamedClass(aux[0]) + AuxMessages(aux[1..])
  }

  function ClassMessages(classes: seq<(string, string)>): seq<Msg> {
    if classes == [] then [] else NamedClass(classes[0]) + ClassMessages(classes[1..])
  }

  /** The leaves of an initializer tree that are sent, from left to right. */
  function Leaves(inits: seq<Initializer>): (r: seq<Initializer>)
    ensures forall i :: 0 <= i < |r| ==> r[i].ForStaticField?
  {
    if inits == [] then [] else
      (match inits[0]
       case ForStaticField(_, _, _) => [inits[0]]
       case Compound(parts) => Leaves(parts)
       case OtherInitializer => []) + Leaves(inits[1..])
  }

  /** The messages for one leaf; the interceptor's code goes along only the first time. */
  function LeafMessages(env: Env, leaf: Initializer, sent: seq<string>): seq<Msg>
    requires leaf.ForStaticField? && leaf.interceptor in env.interceptorCode
  {
    [Msg(Marker, INIT), Msg(Name, leaf.interceptor)]
    + (if leaf.interceptor in sent then [] else Sized(env.interceptorCode[leaf.interceptor]))
    + [Msg(Name, leaf.className)] + Sized(leaf.serialized)
  }

  function AfterLeaf(leaf: Initializer, sent: seq<string>): seq<string>
    requires leaf.ForStaticField?
  {
    if leaf.interceptor in sent then sent else sent + [leaf.interceptor]
  }

  predicate KnownInterceptors(env: Env, leaves: seq<Initializer>) {
    forall i :: 0 <= i < |leaves| ==> leaves[i].ForStaticField? && leaves[i].interceptor in env.interceptorCode
  }

  function InitMessages(env: Env, leaves: seq<Initializer>, sent: seq<string>): seq<Msg>
    requires KnownInterceptors(env, leaves)
  {
    if leaves == [] then []
    else LeafMessages(env, leaves[0], sent) + InitMessages(env, leaves[1..], AfterLeaf(leaves[0], sent))
  }

  /** What has been sent when the first interceptor without known code throws. */
  function UntilUnknown(env: Env, leaves: seq<Initializer>, sent: seq<string>): seq<Msg>
    requires forall i :: 0 <= i < |leaves| ==> leaves[i].ForStaticField?
  {
    if leaves == [] then []
    else if leaves[0].interceptor in env.interceptorCode then
      LeafMessages(env, leaves[0], sent) + UntilUnknown(env, leaves[1..], AfterLeaf(leaves[0], sent))
    else [Msg(Marker, INIT), Msg(Name, leaves[0].interceptor)]
  }

  function AfterLeaves(leaves: seq<Initializer>, sent: seq<string>): seq<string>
    requires forall i :: 0 <= i < |leaves| ==> leaves[i].ForStaticField?
  {
    if leaves == [] then sent else AfterLeaves(leaves[1..], AfterLeaf(leaves[0], sent))
  }

  // The server

  datatype ServerPc = AwaitRequest | AwaitInstrumentName | AwaitCheckName | AwaitRegisterName
      | AwaitRegisterCode(name: string) | Stopped | Crashed

  /** A cached None is the null that the transformer returns for an ignored class. */
  datatype ServerStore = ServerStore(byteCodeCache: map<string, Option<string>>, registered: map<string, string>,
      sentInterceptors: seq<string>)

  /** `outbox` is what the code between two receives has still to send. */
  datatype Server = Server(pc: ServerPc, outbox: seq<Msg>, store: ServerStore)

  predicate ServerReads(pc: ServerPc) {
    !pc.Stopped? && !pc.Crashed?
  }

  function PrepMessages(env: Env): seq<Msg> {
    [Msg(Length, Numeral(|env.prep|))] + ClassMessages(env.prep)
  }

  function TakeRequest(env: Env, st: ServerStore, op: char): Server {
    if op == 0 as char then Server(AwaitInstrumentName, [ACK], st)
    else if op == 1 as char then Server(Stopped, [ACK], st)
    else if op == 2 as char then Server(AwaitCheckName, [ACK], st)
    else if op == 3 as char then Server(AwaitRegisterName, [ACK], st)
    else if op == 4 as char then Server(AwaitRequest, [ACK] + PrepMessages(env), st)
    else Server(Crashed, [ACK], st)
  }

  predicate HasClass(env: Env, st: ServerStore, dots: string) {
    dots in st.byteCodeCache || dots in st.registered || dots in env.loadable
  }

  function HasClassAnswer(env: Env, st: ServerStore, dots: string): Msg {
    Msg(Answer, if HasClass(env, st, dots) then YES else "no")
  }

  /** The first code received for a name stays. */
  function RegisterByteCode(st: ServerStore, dots: string, code: string): ServerStore {
    if dots in st.registered then st else st.(registered := st.registered[dots := code])
  }

  function CachedReply(code: Option<string>): seq<Msg> {
    match code
    case None => []
    case Some(c) => Sized(c)
  }

  const IGNORED_REPLY := [Msg(Marker, NO_MORE_AUX), Msg(Marker, NO_MORE_INIT), Msg(Verdict, NO_INSTRUMENT)]

  function VerdictMessages(code: string): seq<Msg> {
    [Msg(Marker, NO_MORE_INIT)] + ([Msg(Verdict, YES_INSTRUMENT)] + Sized(code))
  }

  function TransformedReply(env: Env, aux: seq<(string, string)>, leaves: seq<Initializer>, code: string,
        sent: seq<string>): seq<Msg>
    requires KnownInterceptors(env, leaves)
  {
    AuxMessages(aux) + ([Msg(Marker, NO_MORE_AUX)] + (InitMessages(env, leaves, sent) + VerdictMessages(code)))
  }

  function HandleInstrument(env: Env, st: ServerStore, dots: string): Server {
    if dots in st.byteCodeCache then Server(AwaitRequest, CachedReply(st.byteCodeCache[dots]), st)
    else match env.transform(dots)
      case Ignored => Server(AwaitRequest, IGNORED_REPLY, st.(byteCodeCache := st.byteCodeCache[dots := None]))
      case Transformed(aux, initializers, code) =>
        var leaves := Leaves(initializers);
        if !KnownInterceptors(env, leaves) then
          Server(Crashed,
            AuxMessages(aux) + [Msg(Marker, NO_MORE_AUX)] + UntilUnknown(env, leaves, st.sentInterceptors), st)
        else Server(AwaitRequest, TransformedReply(env, aux, leaves, code, st.sentInterceptors),
                    st.(byteCodeCache := st.byteCodeCache[dots := Some(code)],
                      sentInterceptors := AfterLeaves(leaves, st.sentInterceptors)))
  }

  function ServerReceive(env: Env, s: Server, m: Msg): Server
    requires ServerReads(s.pc)
  {
    match s.pc
    case AwaitRequest => if m.payload == []
      then Server(Crashed, [], s.store) else TakeRequest(env, s.store, m.payload[0])
    case AwaitInstrumentName => HandleInstrument(env, s.store, ToDots(m.payload))
    case AwaitCheckName => Server(AwaitRequest, [HasClassAnswer(env, s.store, ToDots(m.payload))], s.store)
    case AwaitRegisterName => Server(AwaitRegisterCode(ToDots(m.payload)), [], s.store)
    case AwaitRegisterCode(name) => Server(AwaitRequest, [], RegisterByteCode(s.store, name, m.payload))
  }

  // The agent

  datatype AgentPc =
    | Idle
    | AwaitAck(req: Request) | SendName(req: Request) | SendCode(req: Request)
    | AwaitAuxMarker | AwaitAuxName | AwaitAuxLength(name: string) | AwaitAuxCode(name: string, len: nat)
    | AwaitInitMarker | AwaitInterceptorName | AwaitInterceptorLength(name: string)
    | AwaitInterceptorCode(name: string, len: nat)
    | AwaitInitName | AwaitInitLength | AwaitInitObject(len: nat)
    | AwaitVerdict | AwaitCodeLength | AwaitCode(len: nat)
    | AwaitAnswer(name: string)
    | AwaitPrepCount | AwaitPrepName(left: nat) | AwaitPrepLength(left: nat, name: string)
    | AwaitPrepCode(left: nat, name: string, len: nat)
    | Ended
    | Failed

  /** A call of DefineClass: which loader, which interceptor with which byte code, and whether it was on the
      ignored list then. */
  datatype Definition = Definition(loader: int, interceptor: string, code: string, wasIgnored: bool)

  /** `className` and `loader` are the arguments of the latest instrument call; `results` records, by dotted
      name, what instrument calls ended with, and `defined` the calls of DefineClass. */
  datatype Store = Store(className: string, loader: int, ignored: set<string>, disk: map<string, string>,
                         interceptors: map<string, string>, initializers: map<string, seq<string>>,
                         loaded: map<int, set<string>>, known: set<string>, answer: bool,
                         results: map<string, Option<string>>, defined: seq<Definition>)

  /** `mismatch` records that some message was not what it was taken for. */
  datatype Agent = Agent(pc: AgentPc, mismatch: bool, store: Store)

  predicate AgentReads(pc: AgentPc) {
    !pc.Idle? && !pc.SendName? && !pc.SendCode? && !pc.Ended? && !pc.Failed?
  }

  function Expected(pc: AgentPc): Kind {
    match pc
    case AwaitAck(_) => Ack
    case AwaitAuxMarker => Marker
    case AwaitInitMarker => Marker
    case AwaitVerdict => Verdict
    case AwaitAnswer(_) => Answer
    case AwaitAuxName => Name
    case AwaitInterceptorName => Name
    case AwaitInitName => Name
    case AwaitPrepName(_) => Name
    case AwaitAuxCode(_, _) => Bytes
    case AwaitInterceptorCode(_, _) => Bytes
    case AwaitInitObject(_) => Bytes
    case AwaitCode(_) => Bytes
    case AwaitPrepCode(_, _, _) => Bytes
    case _ => Length
  }

  function BufferLength(pc: AgentPc): nat {
    match pc
    case AwaitAuxCode(_, len) => len
    case AwaitInterceptorCode(_, len) => len
    case AwaitInitObject(len) => len
    case AwaitCode(len) => len
    case AwaitPrepCode(_, _, len) => len
    case _ => 0
  }

  /** The message is what the receiver takes it for, and as long as its buffer. */
  predicate Fits(pc: AgentPc, m: Msg) {
    m.kind == Expected(pc) && (m.kind == Bytes ==> |m.payload| == BufferLength(pc))
  }

  /** What ends up in a buffer of the given length. */
  function Truncated(payload: string, len: nat): string {
    if |payload| <= len then payload else payload[..len]
  }

  function LoadedBy(st: Store, loader: int): set<string> {
    if loader in st.loaded then st.loaded[loader] else {}
  }

  function InitializersOf(st: Store, dots: string): seq<string> {
    if dots in st.initializers then st.initializers[dots] else []
  }

  function SaveClass(st: Store, c: (string, string)): Store {
    st.(ignored := st.ignored + {c.0}, disk := st.disk[c.0 := c.1])
  }

  function SaveInterceptor(st: Store, name: string, code: string): Store {
    st.(interceptors := st.interceptors[name := code], ignored := st.ignored + {name}, disk := st.disk[name := code])
  }

  function CodeOfInterceptor(st: Store, name: string): string {
    if name in st.interceptors then st.interceptors[name] else []
  }

  /** Define the interceptor in the current loader unless that loader has it already. */
  function DefineInterceptor(st: Store, name: string): Store {
    if name in LoadedBy(st, st.loader) then st
    else st.(loaded := st.loaded[st.loader := LoadedBy(st, st.loader) + {name}],
             defined := st.defined + [Definition(st.loader, name, CodeOfInterceptor(st, name), name in st.ignored)])
  }

  function SaveInitializer(st: Store, serialized: string): Store {
    var dots := ToDots(st.className);
    st.(initializers := st.initializers[dots := InitializersOf(st, dots) + [serialized]])
  }

  function SaveResult(st: Store, code: Option<string>): Store {
    st.(disk := if code.Some? then st.disk[st.className := code.value] else st.disk,
      results := st.results[ToDots(st.className) := code])
  }

  function SaveAnswer(st: Store, name: string, yes: bool): Store {
    st.(answer := yes, known := if yes then st.known + {name} else st.known)
  }

  function AfterAck(req: Request): AgentPc {
    match req
    case PrepClasses => AwaitPrepCount
    case Stop => Ended
    case _ => SendName(req)
  }

  function NextPrep(left: nat): AgentPc {
    if left == 0 then Idle else AwaitPrepName(left)
  }

  /** What the receiving code does with a message, by the place it is received at. */
  function Receive(pc: AgentPc, st: Store, text: string): (AgentPc, Store)
    requires AgentReads(pc)
  {
    match pc
    case AwaitAck(req) => (if text == ACK.payload then AfterAck(req) else Failed, st)
    case AwaitAuxMarker => (if text == AUX then AwaitAuxName else AwaitInitMarker, st)
    case AwaitAuxName => (AwaitAuxLength(text), st)
    case AwaitAuxLength(name) => (AwaitAuxCode(name, Atoi(text)), st)
    case AwaitAuxCode(name, len) => (AwaitAuxMarker, SaveClass(st, (name, Truncated(text, len))))
    case AwaitInitMarker => (if text == INIT then AwaitInterceptorName else AwaitVerdict, st)
    case AwaitInterceptorName =>
      if text in st.interceptors
        then (AwaitInitName, DefineInterceptor(st, text)) else (AwaitInterceptorLength(text), st)
    case AwaitInterceptorLength(name) => (AwaitInterceptorCode(name, Atoi(text)), st)
    case AwaitInterceptorCode(name, len) =>
      (AwaitInitName, DefineInterceptor(SaveInterceptor(st, name, Truncated(text, len)), name))
    case AwaitInitName => (AwaitInitLength, st)
    case AwaitInitLength => (AwaitInitObject(Atoi(text)), st)
    case AwaitInitObject(len) => (AwaitInitMarker, SaveInitializer(st, Truncated(text, len)))
    case AwaitVerdict =>
      if text == YES_INSTRUMENT then (AwaitCodeLength, st)
      else if text == NO_INSTRUMENT then (Idle, SaveResult(st, None))
      else (Failed, st)
    case AwaitCodeLength => (AwaitCode(Atoi(text)), st)
    case AwaitCode(len) => (Idle, SaveResult(st, Some(Truncated(text, len))))
    case AwaitAnswer(name) => (Idle, SaveAnswer(st, name, text == YES))
    case AwaitPrepCount => (NextPrep(Atoi(text)), st)
    case AwaitPrepName(left) => (AwaitPrepLength(left, text), st)
    case AwaitPrepLength(left, name) => (AwaitPrepCode(left, name, Atoi(text)), st)
    case AwaitPrepCode(left, name, len) =>
      (NextPrep(if left == 0 then 0 else left - 1), SaveClass(st, (name, Truncated(text, len))))
  }

  function AgentReceive(a: Agent, m: Msg): Agent
    requires AgentReads(a.pc)
  {
    var (pc, store) := Receive(a.pc, a.store, m.payload);
    Agent(pc, a.mismatch || !Fits(a.pc, m), store)
  }

  predicate Sending(pc: AgentPc) {
    (pc.SendName? && !pc.req.PrepClasses? && !pc.req.Stop?) || (pc.SendCode? && pc.req.Register?)
  }

  /** The message of the next send of a request whose type has been acknowledged, and where it leads. */
  function NextSend(pc: AgentPc): Msg
    requires Sending(pc)
  {
    if pc.SendCode? then Msg(Bytes, pc.req.code) else Msg(Name, pc.req.name)
  }

  function AfterSend(a: Agent): Agent
    requires Sending(a.pc)
  {
    match a.pc.req
    case Instrument(name, loader) => Agent(AwaitAuxMarker, a.mismatch, a.store.(className := name, loader := loader))
    case CheckHas(name) => Agent(AwaitAnswer(name), a.mismatch, a.store)
    case Register(name, _) =>
      if a.pc.SendName? then Agent(SendCode(a.pc.req), a.mismatch, a.store)
      else Agent(Idle, a.mismatch, a.store.(known := a.store.known + {name}))
  }

  // Running one side against a stream

  /** The server after it has read everything it can of `ms`, what it sends in doing so, and what is left. */
  function Drain(env: Env, s: Server, ms: seq<Msg>): (Server, seq<Msg>, seq<Msg>)
    decreases |ms|
  {
    if ms == [] || !ServerReads(s.pc) then (s.(outbox := []), s.outbox, ms)
    else
      var (s', out, left) := Drain(env, ServerReceive(env, s, ms[0]), ms[1..]);
      (s', s.outbox + out, left)
  }

  /** The agent after it has read all of `ms`; None when a message is left that it does not read. */
  function Feed(a: Agent, ms: seq<Msg>): Option<Agent>
    decreases |ms|
  {
    if ms == [] then Some(a)
    else if AgentReads(a.pc) then Feed(AgentReceive(a, ms[0]), ms[1..])
    else None
  }

  lemma FeedNothing(a: Agent)
    ensures Feed(a, []) == Some(a)
  {
  }

  lemma FeedOne(a: Agent, m: Msg, rest: seq<Msg>)
    requires AgentReads(a.pc)
    ensures Feed(a, [m] + rest) == Feed(AgentReceive(a, m), rest)
  {
    assert ([m] + rest)[1..] == rest;
  }

  /** A fitting message leads from one place to another and changes only the store. */
  lemma FeedTo(from: AgentPc, to: AgentPc, bad: bool, st: Store, st': Store, m: Msg, rest: seq<Msg>)
    requires AgentReads(from) && Fits(from, m) && Receive(from, st, m.payload) == (to, st')
    ensures Feed(Agent(from, bad, st), [m] + rest) == Feed(Agent(to, bad, st'), rest)
  {
    FeedOne(Agent(from, bad, st), m, rest);
  }

  /** The five things received as a length and then that many bytes: where the length is received, where
      the bytes, and what they lead to. */
  datatype Load = AuxLoad(name: string) | InterceptorLoad(name: string) | ObjectLoad | CodeLoad
      | PrepLoad(left: nat, name: string)

  function AtLength(load: Load): (pc: AgentPc)
    ensures AgentReads(pc) && Expected(pc) == Length
  {
    match load
    case AuxLoad(name) => AwaitAuxLength(name)
    case InterceptorLoad(name) => AwaitInterceptorLength(name)
    case ObjectLoad => AwaitInitLength
    case CodeLoad => AwaitCodeLength
    case PrepLoad(left, name) => AwaitPrepLength(left, name)
  }

  function AtBytes(load: Load, len: nat): (pc: AgentPc)
    ensures AgentReads(pc) && Expected(pc) == Bytes && BufferLength(pc) == len
  {
    match load
    case AuxLoad(name) => AwaitAuxCode(name, len)
    case InterceptorLoad(name) => AwaitInterceptorCode(name, len)
    case ObjectLoad => AwaitInitObject(len)
    case CodeLoad => AwaitCode(len)
    case PrepLoad(left, name) => AwaitPrepCode(left, name, len)
  }

  function AfterBytes(load: Load): AgentPc {
    match load
    case AuxLoad(_) => AwaitAuxMarker
    case InterceptorLoad(_) => AwaitInitName
    case ObjectLoad => AwaitInitMarker
    case CodeLoad => Idle
    case PrepLoad(left, _) => NextPrep(if left == 0 then 0 else left - 1)
  }

  function Loaded(load: Load, st: Store, code: string): Store {
    match load
    case AuxLoad(name) => SaveClass(st, (name, code))
    case InterceptorLoad(name) => DefineInterceptor(SaveInterceptor(st, name, code), name)
    case ObjectLoad => SaveInitializer(st, code)
    case CodeLoad => SaveResult(st, Some(code))
    case PrepLoad(_, name) => SaveClass(st, (name, code))
  }

  lemma LoadIsReceived(load: Load, st: Store, text: string, len: nat)
    ensures Receive(AtLength(load), st, text) == (AtBytes(load, Atoi(text)), st)
    ensures Receive(AtBytes(load, len), st, text) == (AfterBytes(load), Loaded(load, st, Truncated(text, len)))
  {
  }

  lemma FeedSized(load: Load, bad: bool, st: Store, code: string, rest: seq<Msg>)
    ensures Feed(Agent(AtLength(load), bad, st), Sized(code) + rest)
      == Feed(Agent(AfterBytes(load), bad, Loaded(load, st, code)), rest)
  {
    var length := Msg(Length, Numeral(|code|));
    AtoiOfNumeral(|code|);
    LoadIsReceived(load, st, length.payload, 0);
    LoadIsReceived(load, st, code, |code|);
    assert Sized(code) + rest == [length] + ([Msg(Bytes, code)] + rest);
    FeedTo(AtLength(load), AtBytes(load, |code|), bad, st, st, length, [Msg(Bytes, code)] + rest);
    FeedTo(AtBytes(load, |code|), AfterBytes(load), bad, st, Loaded(load, st, code), Msg(Bytes, code), rest);
  }

  /** Of more bytes than were announced, as many as announced are kept, and the mismatch is remembered. */
  lemma OnlyAnnouncedIsKept(load: Load, bad: bool, st: Store, n: nat, code: string)
    requires n <= |code|
    ensures Feed(Agent(AtLength(load), bad, st), [Msg(Length, Numeral(n)), Msg(Bytes, code)]) ==
      Some(Agent(AfterBytes(load), bad || n < |code|, Loaded(load, st, code[..n])))
  {
    hide Feed, Loaded;
    assert Truncated(code, n) == code[..n];
    var length := Msg(Length, Numeral(n));
    AtoiOfNumeral(n);
    LoadIsReceived(load, st, length.payload, 0);
    LoadIsReceived(load, st, code, n);
    FeedTo(AtLength(load), AtBytes(load, n), bad, st, st, length, [Msg(Bytes, code)]);
    FeedOne(Agent(AtBytes(load, n), bad, st), Msg(Bytes, code), []);
    assert [length, Msg(Bytes, code)] == [length] + [Msg(Bytes, code)] && [Msg(Bytes, code)] + [] == [Msg(Bytes, code)];
    FeedNothing(AgentReceive(Agent(AtBytes(load, n), bad, st), Msg(Bytes, code)));
  }

  /** A wrong acknowledgement or verdict ends the agent, which reads nothing behind it and keeps what it had. */
  lemma WrongAnswersFail(pc: AgentPc, bad: bool, st: Store, m: Msg, rest: seq<Msg>)
    requires pc.AwaitAck? || pc.AwaitVerdict?
    requires if pc.AwaitAck? then m.payload != "ack_req_msg"
      else m.payload != "ack_req_int_yes" && m.payload != "ack_req_int_no"
    ensures var fed := Feed(Agent(pc, bad, st), [m] + rest);
      if rest == [] then fed.Some? && fed.value.pc.Failed? && fed.value.store == st else fed == None
  {
    FeedOne(Agent(pc, bad, st), m, rest);
  }

  /** A request that is empty or of no known kind ends the server: it acknowledges at most, and reads and changes
      nothing more. */
  lemma BadRequestEndsServer(env: Env, st: ServerStore, text: string, rest: seq<Msg>)
    requires text == "" || text[0] as int > 4
    ensures Drain(env, Server(AwaitRequest, [], st), [Msg(OpCode, text)] + rest)
      == (Server(Crashed, [], st), if text == "" then [] else [ACK], rest)
  {
    var crashed := ServerReceive(env, Server(AwaitRequest, [], st), Msg(OpCode, text));
    assert crashed == Server(Crashed, if text == "" then [] else [ACK], st);
    assert Drain(env, crashed, rest) == (crashed.(outbox := []), crashed.outbox, rest);
    assert ([Msg(OpCode, text)] + rest)[1..] == rest && [] + crashed.outbox == crashed.outbox;
  }

  // What the agent makes of each part of a reply

  function AfterClasses(st: Store, classes: seq<(string, string)>): Store
    decreases |classes|
  {
    if classes == [] then st else AfterClasses(SaveClass(st, classes[0]), classes[1..])
  }

  lemma FeedAuxClass(bad: bool, st: Store, c: (string, string), rest: seq<Msg>)
    ensures Feed(Agent(AwaitAuxMarker, bad, st), [Msg(Marker, AUX)] + NamedClass(c) + rest)
      == Feed(Agent(AwaitAuxMarker, bad, SaveClass(st, c)), rest)
  {
    var tail := Sized(c.1) + rest;
    assert [Msg(Marker, AUX)] + NamedClass(c) + rest == [Msg(Marker, AUX)] + ([Msg(Name, c.0)] + tail);
    FeedTo(AwaitAuxMarker, AwaitAuxName, bad, st, st, Msg(Marker, AUX), [Msg(Name, c.0)] + tail);
    FeedTo(AwaitAuxName, AwaitAuxLength(c.0), bad, st, st, Msg(Name, c.0), tail);
    FeedSized(AuxLoad(c.0), bad, st, c.1, rest);
  }

  lemma AppendRegroup(first: seq<Msg>, more: seq<Msg>, rest: seq<Msg>)
    ensures first + more + rest == first + (more + rest)
  {
  }

  lemma {:induction false} FeedAux(bad: bool, st: Store, aux: seq<(string, string)>, rest: seq<Msg>)
    ensures Feed(Agent(AwaitAuxMarker, bad, st), AuxMessages(aux) + rest)
      == Feed(Agent(AwaitAuxMarker, bad, AfterClasses(st, aux)), rest)
    decreases |aux|
  {
    hide Feed, SaveClass, NamedClass;
    if aux == [] {
      assert AuxMessages(aux) + rest == rest;
    } else {
      var tail := AuxMessages(aux[1..]) + rest;
      AppendRegroup([Msg(Marker, AUX)] + NamedClass(aux[0]), AuxMessages(aux[1..]), rest);
      FeedAuxClass(bad, st, aux[0], tail);
      FeedAux(bad, SaveClass(st, aux[0]), aux[1..], rest);
    }
  }

  function NamesOf(writes: seq<(string, string)>): set<string> {
    set i | 0 <= i < |writes| :: writes[i].0
  }

  /** The files after they were written one after the other: each holds what was written to it last, and no
      other has changed. */
  ghost predicate LastWins(before: map<string, string>, writes: seq<(string, string)>, after: map<string, string>) {
    && after.Keys == before.Keys + NamesOf(writes)
    && (forall n :: n in before && n !in NamesOf(writes) ==> n in after && after[n] == before[n])
    && (forall i :: 0 <= i < |writes| && writes[i].0 !in NamesOf(writes[i + 1..]) ==>
          writes[i].0 in after && after[writes[i].0] == writes[i].1)
  }

  lemma NamesOfAppend(xs: seq<(string, string)>, ys: seq<(string, string)>)
    ensures NamesOf(xs + ys) == NamesOf(xs) + NamesOf(ys)
  {
    var all := xs + ys;
    assert forall i :: 0 <= i < |xs| ==> all[i] == xs[i];
    assert forall i :: 0 <= i < |ys| ==> all[|xs| + i] == ys[i];
    forall n | n in NamesOf(ys) ensures n in NamesOf(all) {
      var i :| 0 <= i < |ys| && ys[i].0 == n;
      assert all[|xs| + i].0 == n;
    }
  }

  lemma NoNamesWritten()
    ensures NamesOf([]) == {}
  {
  }

  lemma NothingWritten(disk: map<string, string>)
    ensures LastWins(disk, [], disk)
  {
  }

  lemma OneWritten(disk: map<string, string>, c: (string, string))
    ensures LastWins(disk, [c], disk[c.0 := c.1]) && NamesOf([c]) == {c.0}
  {
    assert [c][0].0 in NamesOf([c]);
  }

  lemma WrittenAfter(a: map<string, string>, xs: seq<(string, string)>, b: map<string, string>,
        ys: seq<(string, string)>, c: map<string, string>)
    requires LastWins(a, xs, b) && LastWins(b, ys, c)
    ensures LastWins(a, xs + ys, c)
  {
    hide NamesOf;
    var all := xs + ys;
    NamesOfAppend(xs, ys);
    forall i | 0 <= i < |all| && all[i].0 !in NamesOf(all[i + 1..])
      ensures all[i].0 in c && c[all[i].0] == all[i].1
    {
      if i < |xs| {
        assert all[i + 1..] == xs[i + 1..] + ys;
        NamesOfAppend(xs[i + 1..], ys);
      } else {
        assert all[i + 1..] == ys[i - |xs| + 1..];
      }
    }
  }

  /** Every class of the list is on the ignored list and on disk afterwards, with the bytes that came last for
      its name, and nothing else changes. */
  lemma {:induction false} ClassesSaved(st: Store, classes: seq<(string, string)>)
    ensures var r := AfterClasses(st, classes);
      && r == st.(ignored := r.ignored, disk := r.disk)
      && r.ignored == st.ignored + NamesOf(classes) && LastWins(st.disk, classes, r.disk)
    decreases |classes|
  {
    hide NamesOf, LastWins;
    if classes == [] {
      NothingWritten(st.disk);
      assert NamesOf([]) == {} by { NoNamesWritten(); }
    } else {
      var c, rest := classes[0], classes[1..];
      ClassesSaved(SaveClass(st, c), rest);
      assert classes == [c] + rest;
      OneWritten(st.disk, c);
      NamesOfAppend([c], rest);
      WrittenAfter(st.disk, [c], st.disk[c.0 := c.1], rest, AfterClasses(st, classes).disk);
    }
  }

  lemma NamedSplit(c: (string, string), rest: seq<Msg>)
    ensures NamedClass(c) + rest == [Msg(Name, c.0)] + (Sized(c.1) + rest)
  {
  }

  lemma PrepIsTaken(left: nat, st: Store, c: (string, string))
    requires left > 0
    ensures Receive(AwaitPrepName(left), st, c.0) == (AtLength(PrepLoad(left, c.0)), st)
    ensures AfterBytes(PrepLoad(left, c.0)) == NextPrep(left - 1)
    ensures Loaded(PrepLoad(left, c.0), st, c.1) == SaveClass(st, c)
  {
  }

  lemma FeedPrepClass(bad: bool, st: Store, c: (string, string), left: nat, rest: seq<Msg>)
    requires left > 0
    ensures Feed(Agent(AwaitPrepName(left), bad, st), NamedClass(c) + rest)
      == Feed(Agent(NextPrep(left - 1), bad, SaveClass(st, c)), rest)
  {
    NamedSplit(c, rest);
    PrepIsTaken(left, st, c);
    FeedTo(AwaitPrepName(left), AtLength(PrepLoad(left, c.0)), bad, st, st, Msg(Name, c.0), Sized(c.1) + rest);
    FeedSized(PrepLoad(left, c.0), bad, st, c.1, rest);
  }

  /** The helper classes are read to the last one: they are counted and not marked. */
  lemma {:induction false} FeedPrep(bad: bool, st: Store, classes: seq<(string, string)>)
    ensures Feed(Agent(NextPrep(|classes|), bad, st), ClassMessages(classes))
      == Some(Agent(Idle, bad, AfterClasses(st, classes)))
    decreases |classes|
  {
    if classes == [] {
    } else {
      FeedPrepClass(bad, st, classes[0], |classes|, ClassMessages(classes[1..]));
      FeedPrep(bad, SaveClass(st, classes[0]), classes[1..]);
    }
  }

  // Interceptors and initializers

  ghost predicate SameInterceptors(env: Env, st: Store, sent: seq<string>) {
    && (forall n :: n in st.interceptors <==> n in sent)
    && (forall n :: n in st.interceptors ==>
          n in env.interceptorCode && st.interceptors[n] == env.interceptorCode[n] && n in st.ignored)
  }

  /** The loader has been given the interceptor. */
  predicate IsDefined(st: Store, loader: int, name: string) {
    exists i :: 0 <= i < |st.defined| && st.defined[i].loader == loader && st.defined[i].interceptor == name
  }

  /** Every interceptor that a loader is recorded to have was given to it, once, with the bytes received for it
      and when it was on the ignored list; and nothing else was. */
  ghost predicate DefinedOnce(st: Store) {
    && (forall i, j :: 0 <= i < j < |st.defined| && st.defined[i].loader == st.defined[j].loader ==>
            st.defined[i].interceptor != st.defined[j].interceptor)
    && (forall i :: 0 <= i < |st.defined| ==>
          var d := st.defined[i];
          d.wasIgnored && d.interceptor in LoadedBy(st, d.loader)
            && d.interceptor in st.interceptors && d.code == st.interceptors[d.interceptor])
    && (forall loader, name :: name in LoadedBy(st, loader) ==> IsDefined(st, loader, name))
  }

  /** The store once the interceptor's code is in it. */
  function WithInterceptor(env: Env, st: Store, name: string): Store
    requires name in env.interceptorCode
  {
    if name in st.interceptors then st else SaveInterceptor(st, name, env.interceptorCode[name])
  }

  /** The store after the messages of one leaf. */
  function AfterLeafMessages(env: Env, st: Store, leaf: Initializer): Store
    requires leaf.ForStaticField? && leaf.interceptor in env.interceptorCode
  {
    SaveInitializer(DefineInterceptor(WithInterceptor(env, st, leaf.interceptor), leaf.interceptor), leaf.serialized)
  }

  function AfterLeavesMessages(env: Env, st: Store, leaves: seq<Initializer>): Store
    requires KnownInterceptors(env, leaves)
    decreases |leaves|
  {
    if leaves == [] then st else AfterLeavesMessages(env, AfterLeafMessages(env, st, leaves[0]), leaves[1..])
  }

  lemma FeedInterceptor(env: Env, bad: bool, st: Store, name: string, sent: seq<string>, rest: seq<Msg>)
    requires name in env.interceptorCode && (name in sent <==> name in st.interceptors)
    ensures Feed(Agent(AwaitInterceptorName, bad, st),
      [Msg(Name, name)] + ((if name in sent then [] else Sized(env.interceptorCode[name])) + rest))
      == Feed(Agent(AwaitInitName, bad, DefineInterceptor(WithInterceptor(env, st, name), name)), rest)
  {
    var code := env.interceptorCode[name];
    if name in sent {
      assert [] + rest == rest;
      FeedTo(AwaitInterceptorName, AwaitInitName, bad, st, DefineInterceptor(st, name), Msg(Name, name), rest);
    } else {
      FeedTo(AwaitInterceptorName, AwaitInterceptorLength(name), bad, st, st, Msg(Name, name), Sized(code) + rest);
      FeedSized(InterceptorLoad(name), bad, st, code, rest);
    }
  }

  lemma FeedInitializer(bad: bool, st: Store, leaf: Initializer, rest: seq<Msg>)
    requires leaf.ForStaticField?
    ensures Feed(Agent(AwaitInitName, bad, st), [Msg(Name, leaf.className)] + (Sized(leaf.serialized) + rest))
      == Feed(Agent(AwaitInitMarker, bad, SaveInitializer(st, leaf.serialized)), rest)
  {
    FeedTo(AwaitInitName, AwaitInitLength, bad, st, st, Msg(Name, leaf.className), Sized(leaf.serialized) + rest);
    FeedSized(ObjectLoad, bad, st, leaf.serialized, rest);
  }

  lemma Regroup(a: Msg, b: Msg, xs: seq<Msg>, c: Msg, ys: seq<Msg>, rest: seq<Msg>)
    ensures [a, b] + xs + [c] + ys + rest == [a] + ([b] + (xs + ([c] + (ys + rest))))
  {
  }

  lemma FeedLeaf(env: Env, bad: bool, st: Store, leaf: Initializer, sent: seq<string>, rest: seq<Msg>)
    requires leaf.ForStaticField? && leaf.interceptor in env.interceptorCode
    requires leaf.interceptor in sent <==> leaf.interceptor in st.interceptors
    ensures Feed(Agent(AwaitInitMarker, bad, st), LeafMessages(env, leaf, sent) + rest)
      == Feed(Agent(AwaitInitMarker, bad, AfterLeafMessages(env, st, leaf)), rest)
  {
    var name := leaf.interceptor;
    var code := if name in sent then [] else Sized(env.interceptorCode[name]);
    var last := [Msg(Name, leaf.className)] + (Sized(leaf.serialized) + rest);
    Regroup(Msg(Marker, INIT), Msg(Name, name), code, Msg(Name, leaf.className), Sized(leaf.serialized), rest);
    FeedTo(AwaitInitMarker, AwaitInterceptorName, bad, st, st, Msg(Marker, INIT), [Msg(Name, name)] + (code + last));
    FeedInterceptor(env, bad, st, name, sent, last);
    FeedInitializer(bad, DefineInterceptor(WithInterceptor(env, st, name), name), leaf, rest);
  }

  ghost predicate SameCall(st: Store, r: Store) {
    r.className == st.className && r.loader == st.loader && r.known == st.known && r.results == st.results
  }

  lemma WithInterceptorSame(env: Env, st: Store, leaf: Initializer, sent: seq<string>)
    requires leaf.ForStaticField? && leaf.interceptor in env.interceptorCode && SameInterceptors(env, st, sent)
    ensures SameInterceptors(env, WithInterceptor(env, st, leaf.interceptor), AfterLeaf(leaf, sent))
  {
  }

  lemma WithInterceptorOnce(env: Env, st: Store, name: string)
    requires name in env.interceptorCode && DefinedOnce(st)
    ensures DefinedOnce(WithInterceptor(env, st, name))
  {
    assert forall l :: LoadedBy(WithInterceptor(env, st, name), l) == LoadedBy(st, l);
    forall l, n | n in LoadedBy(st, l) ensures IsDefined(WithInterceptor(env, st, name), l, n) {
      assert IsDefined(st, l, n);
    }
  }

  lemma WithInterceptorAgrees(env: Env, st: Store, leaf: Initializer, sent: seq<string>)
    requires leaf.ForStaticField? && leaf.interceptor in env.interceptorCode
    requires SameInterceptors(env, st, sent) && DefinedOnce(st)
    ensures var r := WithInterceptor(env, st, leaf.interceptor);
      SameInterceptors(env, r, AfterLeaf(leaf, sent)) && DefinedOnce(r) && SameCall(st, r)
        && r.initializers == st.initializers && leaf.interceptor in r.interceptors
  {
    hide SameInterceptors, DefinedOnce;
    WithInterceptorSame(env, st, leaf, sent);
    WithInterceptorOnce(env, st, leaf.interceptor);
  }

  lemma DefinedMore(st: Store, name: string)
    requires DefinedOnce(st) && name !in LoadedBy(st, st.loader)
    ensures var r := DefineInterceptor(st, name); forall l, n :: n in LoadedBy(r, l) ==> IsDefined(r, l, n)
  {
    var r := DefineInterceptor(st, name);
    forall l, n | n in LoadedBy(r, l) ensures IsDefined(r, l, n) {
      if l == st.loader && n == name {
        assert r.defined[|st.defined|].interceptor == name;
      } else {
        assert IsDefined(st, l, n);
        var i :| 0 <= i < |st.defined| && st.defined[i].loader == l && st.defined[i].interceptor == n;
        assert r.defined[i] == st.defined[i];
      }
    }
  }

  lemma DefineAgrees(env: Env, st: Store, name: string, sent: seq<string>)
    requires SameInterceptors(env, st, sent) && DefinedOnce(st) && name in st.interceptors
    ensures var r := DefineInterceptor(st, name);
      SameInterceptors(env, r, sent) && DefinedOnce(r) && SameCall(st, r) && r.initializers == st.initializers
        && name in LoadedBy(r, st.loader)
  {
    var r := DefineInterceptor(st, name);
    if name !in LoadedBy(st, st.loader) {
      forall i | 0 <= i < |st.defined|
        ensures st.defined[i].loader == st.loader ==> st.defined[i].interceptor != name
        ensures st.defined[i].interceptor in LoadedBy(r, st.defined[i].loader)
      {
        assert st.defined[i].interceptor in LoadedBy(st, st.defined[i].loader);
      }
      DefinedMore(st, name);
    }
  }

  lemma LeafKeepsAgreement(env: Env, st: Store, leaf: Initializer, sent: seq<string>)
    requires leaf.ForStaticField? && leaf.interceptor in env.interceptorCode
    requires SameInterceptors(env, st, sent) && DefinedOnce(st)
    ensures var r := AfterLeafMessages(env, st, leaf);
      SameInterceptors(env, r, AfterLeaf(leaf, sent)) && DefinedOnce(r) && SameCall(st, r)
        && leaf.interceptor in LoadedBy(r, st.loader)
  {
    var w := WithInterceptor(env, st, leaf.interceptor);
    WithInterceptorAgrees(env, st, leaf, sent);
    DefineAgrees(env, w, leaf.interceptor, AfterLeaf(leaf, sent));
    var d := DefineInterceptor(w, leaf.interceptor);
    var r := SaveInitializer(d, leaf.serialized);
    assert forall l :: LoadedBy(r, l) == LoadedBy(d, l);
    forall l, n | n in LoadedBy(d, l) ensures IsDefined(r, l, n) {
      assert IsDefined(d, l, n);
    }
  }

  /** The initializers part of a reply is read to its end. */
  lemma {:induction false} FeedLeaves(env: Env, bad: bool, st: Store, leaves: seq<Initializer>, sent: seq<string>,
        rest: seq<Msg>)
    requires KnownInterceptors(env, leaves) && SameInterceptors(env, st, sent) && DefinedOnce(st)
    ensures Feed(Agent(AwaitInitMarker, bad, st), InitMessages(env, leaves, sent) + rest)
      == Feed(Agent(AwaitInitMarker, bad, AfterLeavesMessages(env, st, leaves)), rest)
    decreases |leaves|
  {
    if leaves == [] {
      assert InitMessages(env, leaves, sent) + rest == rest;
    } else {
      var tail := InitMessages(env, leaves[1..], AfterLeaf(leaves[0], sent)) + rest;
      assert InitMessages(env, leaves, sent) + rest == LeafMessages(env, leaves[0], sent) + tail;
      FeedLeaf(env, bad, st, leaves[0], sent, tail);
      LeafKeepsAgreement(env, st, leaves[0], sent);
      FeedLeaves(env, bad, AfterLeafMessages(env, st, leaves[0]), leaves[1..], AfterLeaf(leaves[0], sent), rest);
    }
  }

  /** After it both sides have the same interceptors, and no loader was given an interceptor twice. */
  lemma {:induction false} LeavesKeepAgreement(env: Env, st: Store, leaves: seq<Initializer>, sent: seq<string>)
    requires KnownInterceptors(env, leaves) && SameInterceptors(env, st, sent) && DefinedOnce(st)
    ensures var r := AfterLeavesMessages(env, st, leaves);
      SameInterceptors(env, r, AfterLeaves(leaves, sent)) && DefinedOnce(r) && SameCall(st, r)
    decreases |leaves|
  {
    if leaves == [] {
    } else {
      LeafKeepsAgreement(env, st, leaves[0], sent);
      LeavesKeepAgreement(env, AfterLeafMessages(env, st, leaves[0]), leaves[1..], AfterLeaf(leaves[0], sent));
    }
  }

  function Serialized(leaves: seq<Initializer>): seq<string>
    requires forall i :: 0 <= i < |leaves| ==> leaves[i].ForStaticField?
  {
    seq(|leaves|, i requires 0 <= i < |leaves| => leaves[i].serialized)
  }

  lemma SerializedSplit(before: seq<string>, leaves: seq<Initializer>)
    requires leaves != [] && forall i :: 0 <= i < |leaves| ==> leaves[i].ForStaticField?
    ensures (before + [leaves[0].serialized]) + Serialized(leaves[1..]) == before + Serialized(leaves)
  {
  }

  lemma LeafStoresInitializer(env: Env, st: Store, leaf: Initializer, dots: string)
    requires leaf.ForStaticField? && leaf.interceptor in env.interceptorCode && dots == ToDots(st.className)
    ensures var r := AfterLeafMessages(env, st, leaf);
      r.className == st.className && InitializersOf(r, dots) == InitializersOf(st, dots) + [leaf.serialized]
  {
  }

  /** The serialized initializers are stored under the class, in order. */
  lemma {:induction false} LeavesStoreInitializers(env: Env, st: Store, leaves: seq<Initializer>, dots: string)
    requires KnownInterceptors(env, leaves) && dots == ToDots(st.className)
    ensures var r := AfterLeavesMessages(env, st, leaves);
      r.className == st.className && InitializersOf(r, dots) == InitializersOf(st, dots) + Serialized(leaves)
    decreases |leaves|
  {
    if leaves == [] {
    } else {
      LeafStoresInitializer(env, st, leaves[0], dots);
      LeavesStoreInitializers(env, AfterLeafMessages(env, st, leaves[0]), leaves[1..], dots);
      SerializedSplit(InitializersOf(st, dots), leaves);
    }
  }

  // The reply to an instrument request

  /** Every interceptor that the transformer asks for in this class has known byte code. */
  predicate CodeKnown(env: Env, dots: string) {
    env.transform(dots).Transformed? ==> KnownInterceptors(env, Leaves(env.transform(dots).initializers))
  }

  /** The server can instrument the class: it has not done so, and has the code of its interceptors. */
  predicate Instrumentable(env: Env, s: ServerStore, dots: string) {
    dots !in s.byteCodeCache && CodeKnown(env, dots)
  }

  /** The caches of the two sides agree. */
  ghost predicate Agree(env: Env, st: Store, s: ServerStore) {
    && SameInterceptors(env, st, s.sentInterceptors)
    && DefinedOnce(st)
    && (forall n :: n in st.known ==> HasClass(env, s, ToDots(n)))
    && st.results == s.byteCodeCache
  }

  /** The markers that end the parts of a reply, and the verdicts. */
  lemma EndMarkersAreTaken(st: Store)
    ensures Receive(AwaitAuxMarker, st, NO_MORE_AUX) == (AwaitInitMarker, st)
    ensures Receive(AwaitInitMarker, st, NO_MORE_INIT) == (AwaitVerdict, st)
    ensures Receive(AwaitVerdict, st, YES_INSTRUMENT) == (AtLength(CodeLoad), st)
    ensures Receive(AwaitVerdict, st, NO_INSTRUMENT) == (Idle, SaveResult(st, None))
  {
    assert |NO_INSTRUMENT| != |YES_INSTRUMENT|;
  }

  lemma LoadAtCode(st: Store, code: string)
    ensures AfterBytes(CodeLoad) == Idle && Loaded(CodeLoad, st, code) == SaveResult(st, Some(code))
  {
  }

  lemma FeedVerdict(bad: bool, st: Store, code: string)
    ensures Feed(Agent(AwaitInitMarker, bad, st), VerdictMessages(code))
      == Some(Agent(Idle, bad, SaveResult(st, Some(code))))
  {
    hide Feed, Receive, SaveResult, Sized;
    EndMarkersAreTaken(st);
    LoadAtCode(st, code);
    FeedNothing(Agent(Idle, bad, SaveResult(st, Some(code))));
    FeedTo(AwaitInitMarker, AwaitVerdict, bad, st, st, Msg(Marker, NO_MORE_INIT),
      [Msg(Verdict, YES_INSTRUMENT)] + Sized(code));
    FeedTo(AwaitVerdict, AtLength(CodeLoad), bad, st, st, Msg(Verdict, YES_INSTRUMENT), Sized(code));
    assert Sized(code) == Sized(code) + [];
    FeedSized(CodeLoad, bad, st, code, []);
  }

  /** The store at the end of a reply that instruments the class. */
  function AfterTransformed(env: Env, st: Store, aux: seq<(string, string)>, leaves: seq<Initializer>,
        code: string): Store
    requires KnownInterceptors(env, leaves)
  {
    SaveResult(AfterLeavesMessages(env, AfterClasses(st, aux), leaves), Some(code))
  }

  /** The ignored list may grow and the disk change without disturbing the interceptors. */
  lemma MoreIgnoredAgrees(env: Env, st: Store, r: Store, sent: seq<string>)
    requires SameInterceptors(env, st, sent) && DefinedOnce(st)
    requires r == st.(ignored := r.ignored, disk := r.disk, className := r.className, loader := r.loader,
      known := r.known, answer := r.answer, results := r.results)
    requires st.ignored <= r.ignored
    ensures SameInterceptors(env, r, sent) && DefinedOnce(r)
  {
    assert forall l :: LoadedBy(r, l) == LoadedBy(st, l);
    forall l, n | n in LoadedBy(st, l) ensures IsDefined(r, l, n) {
      assert IsDefined(st, l, n);
    }
  }

  lemma FeedTransformed(env: Env, bad: bool, st: Store, aux: seq<(string, string)>, leaves: seq<Initializer>,
        code: string, sent: seq<string>)
    requires KnownInterceptors(env, leaves) && SameInterceptors(env, st, sent) && DefinedOnce(st)
    ensures Feed(Agent(AwaitAuxMarker, bad, st), TransformedReply(env, aux, leaves, code, sent))
      == Some(Agent(Idle, bad, AfterTransformed(env, st, aux, leaves, code)))
  {
    var r := AfterClasses(st, aux);
    var tail := InitMessages(env, leaves, sent) + VerdictMessages(code);
    FeedAux(bad, st, aux, [Msg(Marker, NO_MORE_AUX)] + tail);
    ClassesSaved(st, aux);
    FeedTo(AwaitAuxMarker, AwaitInitMarker, bad, r, r, Msg(Marker, NO_MORE_AUX), tail);
    MoreIgnoredAgrees(env, st, r, sent);
    FeedLeaves(env, bad, r, leaves, sent, VerdictMessages(code));
    FeedVerdict(bad, AfterLeavesMessages(env, r, leaves), code);
  }

  lemma FeedIgnored(bad: bool, st: Store)
    ensures Feed(Agent(AwaitAuxMarker, bad, st), IGNORED_REPLY) == Some(Agent(Idle, bad, SaveResult(st, None)))
  {
    var last := [Msg(Verdict, NO_INSTRUMENT)];
    EndMarkersAreTaken(st);
    assert IGNORED_REPLY == [Msg(Marker, NO_MORE_AUX)] + ([Msg(Marker, NO_MORE_INIT)] + (last + []));
    FeedTo(AwaitAuxMarker, AwaitInitMarker, bad, st, st, Msg(Marker, NO_MORE_AUX),
      [Msg(Marker, NO_MORE_INIT)] + (last + []));
    FeedTo(AwaitInitMarker, AwaitVerdict, bad, st, st, Msg(Marker, NO_MORE_INIT), last + []);
    FeedTo(AwaitVerdict, Idle, bad, st, SaveResult(st, None), last[0], []);
  }

  lemma TransformedAgrees(env: Env, st: Store, s: ServerStore, aux: seq<(string, string)>, leaves: seq<Initializer>,
        code: string, dots: string)
    requires KnownInterceptors(env, leaves) && Agree(env, st, s) && dots == ToDots(st.className)
    ensures Agree(env, AfterTransformed(env, st, aux, leaves, code),
      s.(byteCodeCache := s.byteCodeCache[dots := Some(code)],
        sentInterceptors := AfterLeaves(leaves, s.sentInterceptors)))
  {
    var r := AfterClasses(st, aux);
    ClassesSaved(st, aux);
    MoreIgnoredAgrees(env, st, r, s.sentInterceptors);
    LeavesKeepAgreement(env, r, leaves, s.sentInterceptors);
    MoreIgnoredAgrees(env, AfterLeavesMessages(env, r, leaves), AfterTransformed(env, st, aux, leaves, code),
      AfterLeaves(leaves, s.sentInterceptors));
  }

  /** The first request to instrument a class: the reply is read to its end, every message is what the agent
      takes it for, and the caches agree again. */
  lemma FirstReplyIsRead(env: Env, st: Store, s: ServerStore, dots: string)
    requires CodeKnown(env, dots) && Agree(env, st, s) && dots == ToDots(st.className) && dots !in s.byteCodeCache
    ensures var r := HandleInstrument(env, s, dots);
      var fed := Feed(Agent(AwaitAuxMarker, false, st), r.outbox);
      r.pc.AwaitRequest? && fed.Some? && fed.value.pc.Idle? && !fed.value.mismatch
        && Agree(env, fed.value.store, r.store)
  {
    match env.transform(dots) {
      case Ignored =>
        FeedIgnored(false, st);
        MoreIgnoredAgrees(env, st, SaveResult(st, None), s.sentInterceptors);
      case Transformed(aux, initializers, code) =>
        FeedTransformed(env, false, st, aux, Leaves(initializers), code, s.sentInterceptors);
        TransformedAgrees(env, st, s, aux, Leaves(initializers), code, dots);
    }
  }

  /** The interceptors that come along with the leaves, by name and code: those not known before, each once. */
  function FreshInterceptors(env: Env, known: set<string>, leaves: seq<Initializer>): seq<(string, string)>
    requires KnownInterceptors(env, leaves)
    decreases |leaves|
  {
    if leaves == [] then []
    else if leaves[0].interceptor in known then FreshInterceptors(env, known, leaves[1..])
    else
      var name := leaves[0].interceptor;
      [(name, env.interceptorCode[name])] + FreshInterceptors(env, known + {name}, leaves[1..])
  }

  lemma DefineKeeps(st: Store, name: string)
    ensures var r := DefineInterceptor(st, name);
      r == st.(loaded := r.loaded, defined := r.defined) && st.defined <= r.defined
  {
  }

  lemma LeafSaves(env: Env, st: Store, leaf: Initializer)
    requires leaf.ForStaticField? && leaf.interceptor in env.interceptorCode
    ensures var r := AfterLeafMessages(env, st, leaf);
      var added := FreshInterceptors(env, st.interceptors.Keys, [leaf]);
      && LastWins(st.disk, added, r.disk) && r.ignored == st.ignored + NamesOf(added)
      && r.interceptors.Keys == st.interceptors.Keys + {leaf.interceptor}
  {
    hide LastWins, NamesOf, DefineInterceptor;
    var name := leaf.interceptor;
    DefineKeeps(WithInterceptor(env, st, name), name);
    assert [leaf][1..] == [];
    if name in st.interceptors {
      NothingWritten(st.disk);
      NoNamesWritten();
    } else {
      OneWritten(st.disk, (name, env.interceptorCode[name]));
      assert [(name, env.interceptorCode[name])] + [] == [(name, env.interceptorCode[name])];
    }
  }

  lemma NoneFresh(env: Env, known: set<string>)
    ensures FreshInterceptors(env, known, []) == []
  {
  }

  lemma FreshStep(env: Env, known: set<string>, leaves: seq<Initializer>)
    requires KnownInterceptors(env, leaves) && leaves != []
    ensures var name := leaves[0].interceptor;
      FreshInterceptors(env, known, leaves)
        == (if name in known then [] else [(name, env.interceptorCode[name])])
          + FreshInterceptors(env, known + {name}, leaves[1..])
  {
    var name := leaves[0].interceptor;
    if name in known {
      assert known + {name} == known;
      assert [] + FreshInterceptors(env, known, leaves[1..]) == FreshInterceptors(env, known, leaves[1..]);
    }
  }

  lemma FreshSplit(env: Env, known: set<string>, leaves: seq<Initializer>)
    requires KnownInterceptors(env, leaves) && leaves != []
    ensures FreshInterceptors(env, known, leaves)
      == FreshInterceptors(env, known, leaves[..1])
        + FreshInterceptors(env, known + {leaves[0].interceptor}, leaves[1..])
  {
    hide FreshInterceptors;
    var name := leaves[0].interceptor;
    var one := if name in known then [] else [(name, env.interceptorCode[name])];
    assert leaves[..1][1..] == [];
    FreshStep(env, known, leaves);
    FreshStep(env, known, leaves[..1]);
    NoneFresh(env, known + {name});
    assert one + [] == one;
  }

  lemma InterceptorsSplit(leaves: seq<Initializer>)
    requires leaves != [] && forall i :: 0 <= i < |leaves| ==> leaves[i].ForStaticField?
    ensures (set i | 0 <= i < |leaves| :: leaves[i].interceptor)
      == {leaves[0].interceptor} + (set i | 0 <= i < |leaves[1..]| :: leaves[1..][i].interceptor)
  {
  }

  /** What the leaves leave on disk and on the ignored list: the interceptors that came along with them. */
  lemma {:induction false} LeavesSave(env: Env, st: Store, leaves: seq<Initializer>)
    requires KnownInterceptors(env, leaves)
    ensures var r := AfterLeavesMessages(env, st, leaves);
      var added := FreshInterceptors(env, st.interceptors.Keys, leaves);
      && LastWins(st.disk, added, r.disk) && r.ignored == st.ignored + NamesOf(added)
      && r.interceptors.Keys == st.interceptors.Keys + (set i | 0 <= i < |leaves| :: leaves[i].interceptor)
    decreases |leaves|
  {
    hide LastWins, NamesOf, FreshInterceptors, AfterLeafMessages;
    if leaves == [] {
      NothingWritten(st.disk);
      NoNamesWritten();
      NoneFresh(env, st.interceptors.Keys);
    } else {
      var next := AfterLeafMessages(env, st, leaves[0]);
      var one, rest := leaves[..1], leaves[1..];
      assert one == [leaves[0]];
      LeafSaves(env, st, leaves[0]);
      LeavesSave(env, next, rest);
      FreshSplit(env, st.interceptors.Keys, leaves);
      WrittenAfter(st.disk, FreshInterceptors(env, st.interceptors.Keys, one), next.disk,
        FreshInterceptors(env, next.interceptors.Keys, rest), AfterLeavesMessages(env, st, leaves).disk);
      NamesOfAppend(FreshInterceptors(env, st.interceptors.Keys, one),
        FreshInterceptors(env, next.interceptors.Keys, rest));
      assert (set i | 0 <= i < |leaves| :: leaves[i].interceptor)
        == {leaves[0].interceptor} + (set i | 0 <= i < |rest| :: rest[i].interceptor) by { InterceptorsSplit(leaves); }
    }
  }

  lemma MoreIsDefined(st: Store, r: Store, loader: int, name: string)
    requires st.defined <= r.defined && IsDefined(st, loader, name)
    ensures IsDefined(r, loader, name)
  {
    var i :| 0 <= i < |st.defined| && st.defined[i].loader == loader && st.defined[i].interceptor == name;
    assert r.defined[i] == st.defined[i];
  }

  lemma LeafFrame(env: Env, st: Store, leaf: Initializer)
    requires leaf.ForStaticField? && leaf.interceptor in env.interceptorCode
    ensures var r := AfterLeafMessages(env, st, leaf);
      && r == st.(disk := r.disk, ignored := r.ignored, interceptors := r.interceptors, loaded := r.loaded,
        defined := r.defined, initializers := r.initializers)
      && st.defined <= r.defined
      && (forall l, n :: IsDefined(st, l, n) ==> IsDefined(r, l, n))
      && (forall d :: d != ToDots(st.className) ==> InitializersOf(r, d) == InitializersOf(st, d))
  {
    hide DefineInterceptor, IsDefined;
    var w := WithInterceptor(env, st, leaf.interceptor);
    DefineKeeps(w, leaf.interceptor);
    var r := AfterLeafMessages(env, st, leaf);
    forall l, n | IsDefined(st, l, n) ensures IsDefined(r, l, n) { MoreIsDefined(st, r, l, n); }
  }

  /** What the leaves leave alone: everything but disk, ignored list, interceptors, definitions and initializers,
      and of these the initializers of other classes; definitions are only added. */
  lemma {:induction false} LeavesFrame(env: Env, st: Store, leaves: seq<Initializer>)
    requires KnownInterceptors(env, leaves)
    ensures var r := AfterLeavesMessages(env, st, leaves);
      && r == st.(disk := r.disk, ignored := r.ignored, interceptors := r.interceptors, loaded := r.loaded,
        defined := r.defined, initializers := r.initializers)
      && st.defined <= r.defined
      && (forall l, n :: IsDefined(st, l, n) ==> IsDefined(r, l, n))
      && (forall d :: d != ToDots(st.className) ==> InitializersOf(r, d) == InitializersOf(st, d))
    decreases |leaves|
  {
    hide AfterLeafMessages, IsDefined, InitializersOf;
    if leaves == [] {
    } else {
      LeafFrame(env, st, leaves[0]);
      LeavesFrame(env, AfterLeafMessages(env, st, leaves[0]), leaves[1..]);
    }
  }

  lemma LoadedIsDefined(st: Store, loader: int, name: string)
    requires DefinedOnce(st) && name in LoadedBy(st, loader)
    ensures IsDefined(st, loader, name)
  {
  }

  /** Every interceptor of the leaves has been defined for the loader of the call. */
  lemma {:induction false} LeavesDefine(env: Env, st: Store, leaves: seq<Initializer>, sent: seq<string>, k: nat)
    requires KnownInterceptors(env, leaves) && SameInterceptors(env, st, sent) && DefinedOnce(st) && k < |leaves|
    ensures IsDefined(AfterLeavesMessages(env, st, leaves), st.loader, leaves[k].interceptor)
    decreases |leaves|
  {
    hide SameInterceptors, DefinedOnce, AfterLeafMessages, IsDefined;
    var next := AfterLeafMessages(env, st, leaves[0]);
    LeafKeepsAgreement(env, st, leaves[0], sent);
    if k == 0 {
      LoadedIsDefined(next, st.loader, leaves[0].interceptor);
      LeavesFrame(env, next, leaves[1..]);
    } else {
      LeavesDefine(env, next, leaves[1..], AfterLeaf(leaves[0], sent), k - 1);
    }
  }

  /** What is defined has the server's bytes. */
  lemma DefinedAsSent(env: Env, st: Store, sent: seq<string>, loader: int, name: string)
    requires SameInterceptors(env, st, sent) && DefinedOnce(st) && IsDefined(st, loader, name)
    ensures name in env.interceptorCode && Definition(loader, name, env.interceptorCode[name], true) in st.defined
  {
    var i :| 0 <= i < |st.defined| && st.defined[i].loader == loader && st.defined[i].interceptor == name;
    assert st.defined[i] == Definition(loader, name, env.interceptorCode[name], true);
  }

  /** What the first request to instrument a class, that is transformed, leaves with the agent: the code; on disk
      the auxiliary classes, the interceptors that came along and the class itself, with the bytes written last
      where names coincide; all but the class on the ignored list; the initializers behind those the class had,
      in the order of the leaves; and each of their interceptors defined for the loader of the call, with the
      server's bytes. Nothing else is touched. */
  ghost predicate Delivered(env: Env, st: Store, aux: seq<(string, string)>, leaves: seq<Initializer>, code: string,
        r: Store)
    requires KnownInterceptors(env, leaves)
  {
    var (dots, added) := (ToDots(st.className), FreshInterceptors(env, st.interceptors.Keys, leaves));
    && r == st.(disk := r.disk, ignored := r.ignored, interceptors := r.interceptors, loaded := r.loaded,
      defined := r.defined, initializers := r.initializers, results := st.results[dots := Some(code)])
    && LastWins(st.disk, aux + added + [(st.className, code)], r.disk)
    && r.ignored == st.ignored + NamesOf(aux) + NamesOf(added)
    && (forall d :: InitializersOf(r, d) == InitializersOf(st, d) + if d == dots then Serialized(leaves) else [])
    && st.defined <= r.defined
    && (forall k :: 0 <= k < |leaves| ==>
          Definition(st.loader, leaves[k].interceptor, env.interceptorCode[leaves[k].interceptor], true) in r.defined)
  }

  lemma DiskAfterTransformed(env: Env, st: Store, aux: seq<(string, string)>, leaves: seq<Initializer>, code: string)
    requires KnownInterceptors(env, leaves)
    ensures var (r, added) :=
      (AfterTransformed(env, st, aux, leaves, code), FreshInterceptors(env, st.interceptors.Keys, leaves));
      && LastWins(st.disk, aux + added + [(st.className, code)], r.disk)
      && r.ignored == st.ignored + NamesOf(aux) + NamesOf(added)
  {
    hide AfterClasses, AfterLeavesMessages, FreshInterceptors, LastWins, NamesOf;
    var start := AfterClasses(st, aux);
    var next, added := AfterLeavesMessages(env, start, leaves), FreshInterceptors(env, st.interceptors.Keys, leaves);
    ClassesSaved(st, aux);
    LeavesSave(env, start, leaves);
    LeavesFrame(env, start, leaves);
    WrittenAfter(st.disk, aux, start.disk, added, next.disk);
    OneWritten(next.disk, (st.className, code));
    WrittenAfter(st.disk, aux + added, next.disk, [(st.className, code)], next.disk[st.className := code]);
  }

  lemma SameInitializers(st: Store, r: Store, d: string)
    requires r.initializers == st.initializers
    ensures InitializersOf(r, d) == InitializersOf(st, d)
  {
  }

  lemma TransformedDelivers(env: Env, st: Store, s: ServerStore, aux: seq<(string, string)>, leaves: seq<Initializer>,
        code: string)
    requires KnownInterceptors(env, leaves) && Agree(env, st, s)
    ensures Delivered(env, st, aux, leaves, code, AfterTransformed(env, st, aux, leaves, code))
  {
    hide AfterClasses, AfterLeavesMessages, FreshInterceptors, LastWins, NamesOf, Serialized, SameInterceptors,
      DefinedOnce, IsDefined, InitializersOf;
    var start, r, dots := AfterClasses(st, aux), AfterTransformed(env, st, aux, leaves, code), ToDots(st.className);
    var next := AfterLeavesMessages(env, start, leaves);
    ClassesSaved(st, aux);
    DiskAfterTransformed(env, st, aux, leaves, code);
    LeavesFrame(env, start, leaves);
    LeavesStoreInitializers(env, start, leaves, dots);
    MoreIgnoredAgrees(env, st, start, s.sentInterceptors);
    LeavesKeepAgreement(env, start, leaves, s.sentInterceptors);
    forall k | 0 <= k < |leaves|
      ensures var name := leaves[k].interceptor;
        Definition(st.loader, name, env.interceptorCode[name], true) in r.defined
    {
      LeavesDefine(env, start, leaves, s.sentInterceptors, k);
      DefinedAsSent(env, next, AfterLeaves(leaves, s.sentInterceptors), st.loader, leaves[k].interceptor);
    }
    forall d ensures InitializersOf(r, d) == InitializersOf(st, d) + if d == dots then Serialized(leaves) else [] {
      SameInitializers(st, start, d);
      SameInitializers(next, r, d);
      assert InitializersOf(st, d) + [] == InitializersOf(st, d);
    }
  }

  lemma InstrumentDelivers(env: Env, st: Store, s: ServerStore, aux: seq<(string, string)>,
        initializers: seq<Initializer>, code: string, dots: string)
    requires CodeKnown(env, dots) && Agree(env, st, s) && dots == ToDots(st.className) && dots !in s.byteCodeCache
    requires env.transform(dots) == Transformed(aux, initializers, code)
    ensures var fed := Feed(Agent(AwaitAuxMarker, false, st), HandleInstrument(env, s, dots).outbox);
      fed.Some? && fed.value.pc.Idle? && Delivered(env, st, aux, Leaves(initializers), code, fed.value.store)
  {
    hide TransformedReply, Leaves, Feed, Delivered, SameInterceptors, DefinedOnce;
    FeedTransformed(env, false, st, aux, Leaves(initializers), code, s.sentInterceptors);
    TransformedDelivers(env, st, s, aux, Leaves(initializers), code);
  }

  lemma NumeralIsNotAux(n: nat)
    ensures Numeral(n) != AUX
  {
    assert IsDigit(Numeral(n)[0]);
  }

  /** A second request to instrument the same class: the server answers in a shape the agent does not
      expect, or not at all, and the agent is left waiting for a message that nobody sends. */
  lemma RepeatedReplyBlocks(env: Env, bad: bool, st: Store, s: ServerStore, dots: string)
    requires dots in s.byteCodeCache
    ensures var reply := HandleInstrument(env, s, dots).outbox;
      var fed := Feed(Agent(AwaitAuxMarker, bad, st), reply);
      fed.Some? && AgentReads(fed.value.pc) && (reply != [] ==> fed.value.mismatch)
  {
    match s.byteCodeCache[dots] {
      case None =>
      case Some(code) =>
        var a, length := Agent(AwaitAuxMarker, bad, st), Msg(Length, Numeral(|code|));
        NumeralIsNotAux(|code|);
        assert Sized(code) == [length] + ([Msg(Bytes, code)] + []);
        FeedOne(a, length, [Msg(Bytes, code)] + []);
        FeedOne(AgentReceive(a, length), Msg(Bytes, code), []);
    }
  }

  lemma SentIsStored(env: Env, st: Store, sent: seq<string>, name: string)
    requires SameInterceptors(env, st, sent)
    ensures (name in sent <==> name in st.interceptors) && (name in st.interceptors ==> name in env.interceptorCode)
  {
  }

  lemma {:induction false} FeedUntilUnknown(env: Env, bad: bool, st: Store, leaves: seq<Initializer>, sent: seq<string>)
    requires forall i :: 0 <= i < |leaves| ==> leaves[i].ForStaticField?
    requires !KnownInterceptors(env, leaves) && SameInterceptors(env, st, sent) && DefinedOnce(st)
    ensures var fed := Feed(Agent(AwaitInitMarker, bad, st), UntilUnknown(env, leaves, sent));
      fed.Some? && AgentReads(fed.value.pc)
    decreases |leaves|
  {
    hide Feed, AfterLeafMessages, LeafMessages, SameInterceptors, DefinedOnce, AfterLeaf;
    var name := leaves[0].interceptor;
    SentIsStored(env, st, sent, name);
    if name in env.interceptorCode {
      FeedLeaf(env, bad, st, leaves[0], sent, UntilUnknown(env, leaves[1..], AfterLeaf(leaves[0], sent)));
      LeafKeepsAgreement(env, st, leaves[0], sent);
      FeedUntilUnknown(env, bad, AfterLeafMessages(env, st, leaves[0]), leaves[1..], AfterLeaf(leaves[0], sent));
    } else {
      assert [Msg(Marker, INIT), Msg(Name, name)] == [Msg(Marker, INIT)] + ([Msg(Name, name)] + []);
      FeedTo(AwaitInitMarker, AwaitInterceptorName, bad, st, st, Msg(Marker, INIT), [Msg(Name, name)] + []);
      FeedTo(AwaitInterceptorName, AwaitInterceptorLength(name), bad, st, st, Msg(Name, name), []);
      FeedNothing(Agent(AwaitInterceptorLength(name), bad, st));
    }
  }

  lemma SizedIsTwo(code: string)
    ensures |Sized(code)| == 2
  {
  }

  /** What the server answers when asked for the same class again is the end of its first answer: the length and
      the code of a class it has transformed, and nothing for one it ignores. */
  lemma RepeatedReplyIsEnd(env: Env, s: ServerStore, dots: string)
    requires Instrumentable(env, s, dots)
    ensures var first := HandleInstrument(env, s, dots); var again := HandleInstrument(env, first.store, dots);
      && again.pc == first.pc == AwaitRequest && again.store == first.store
      && |again.outbox| == (if env.transform(dots).Ignored? then 0 else 2) <= |first.outbox|
      && again.outbox == first.outbox[|first.outbox| - |again.outbox|..]
  {
    hide Leaves, InitMessages, AuxMessages, AfterLeaves, KnownInterceptors, Sized;
    match env.transform(dots) {
      case Ignored =>
      case Transformed(aux, initializers, code) =>
        var init := InitMessages(env, Leaves(initializers), s.sentInterceptors);
        var front := AuxMessages(aux) + ([Msg(Marker, NO_MORE_AUX)] +
          (init + ([Msg(Marker, NO_MORE_INIT)] + [Msg(Verdict, YES_INSTRUMENT)])));
        assert HandleInstrument(env, s, dots).outbox == front + Sized(code);
        assert |Sized(code)| == 2 by { SizedIsTwo(code); }
    }
  }

  /** An interceptor without known code: the server throws in the middle of its reply, and the agent reads
      what there is of it and waits for the rest. */
  lemma UnknownReplyBlocks(env: Env, bad: bool, st: Store, s: ServerStore, dots: string)
    requires !CodeKnown(env, dots) && SameInterceptors(env, st, s.sentInterceptors) && DefinedOnce(st)
    requires dots !in s.byteCodeCache
    ensures var r := HandleInstrument(env, s, dots);
      var fed := Feed(Agent(AwaitAuxMarker, bad, st), r.outbox);
      r.pc.Crashed? && fed.Some? && AgentReads(fed.value.pc)
  {
    var Transformed(aux, initializers, _) := env.transform(dots);
    var leaves, next := Leaves(initializers), AfterClasses(st, aux);
    var tail := UntilUnknown(env, leaves, s.sentInterceptors);
    assert AuxMessages(aux) + [Msg(Marker, NO_MORE_AUX)] + tail
      == AuxMessages(aux) + ([Msg(Marker, NO_MORE_AUX)] + tail);
    FeedAux(bad, st, aux, [Msg(Marker, NO_MORE_AUX)] + tail);
    EndMarkersAreTaken(next);
    FeedTo(AwaitAuxMarker, AwaitInitMarker, bad, next, next, Msg(Marker, NO_MORE_AUX), tail);
    ClassesSaved(st, aux);
    MoreIgnoredAgrees(env, st, next, s.sentInterceptors);
    FeedUntilUnknown(env, bad, next, leaves, s.sentInterceptors);
  }

  /** The agent finishes the request exactly when the server has not yet instrumented the class and knows the
      code of every interceptor in it. */
  lemma InstrumentFinishesIffNew(env: Env, st: Store, s: ServerStore, dots: string)
    requires Agree(env, st, s) && dots == ToDots(st.className)
    ensures var fed := Feed(Agent(AwaitAuxMarker, false, st), HandleInstrument(env, s, dots).outbox);
      (fed.Some? && fed.value.pc.Idle?) <==> Instrumentable(env, s, dots)
  {
    if dots in s.byteCodeCache {
      RepeatedReplyBlocks(env, false, st, s, dots);
    } else if CodeKnown(env, dots) {
      FirstReplyIsRead(env, st, s, dots);
    } else {
      UnknownReplyBlocks(env, false, st, s, dots);
    }
  }

  // The two processes and the channels

  /** `asked` records the classes that instrument requests were begun for, by dotted name and in order. */
  datatype Sys = Sys(agent: Agent, server: Server, toServer: seq<Msg>, toAgent: seq<Msg>, asked: seq<string>)

  datatype Step = Begin(req: Request) | AgentSends | AgentTakes | ServerSends | ServerTakes

  function Start(): Sys {
    Sys(Agent(Idle, false, Store([], 0, {}, map[], map[], map[], map[], {}, false, map[], [])),
        Server(AwaitRequest, [], ServerStore(map[], map[], [])), [], [], [])
  }

  predicate CanStep(s: Sys, step: Step) {
    match step
    case Begin(req) => s.agent.pc.Idle?
    case AgentSends => Sending(s.agent.pc)
    case AgentTakes => AgentReads(s.agent.pc) && s.toAgent != []
    case ServerSends => s.server.outbox != []
    case ServerTakes => s.server.outbox == [] && s.toServer != [] && ServerReads(s.server.pc)
  }

  function Do(env: Env, s: Sys, step: Step): Sys
    requires CanStep(s, step)
  {
    match step
    case Begin(req) =>
      s.(agent := s.agent.(pc := AwaitAck(req)), toServer := s.toServer + [Msg(OpCode, [OpCodeOf(req)])],
         asked := if req.Instrument? then s.asked + [ToDots(req.name)] else s.asked)
    case AgentSends => s.(agent := AfterSend(s.agent), toServer := s.toServer + [NextSend(s.agent.pc)])
    case AgentTakes => s.(agent := AgentReceive(s.agent, s.toAgent[0]), toAgent := s.toAgent[1..])
    case ServerSends =>
      s.(server := s.server.(outbox := s.server.outbox[1..]), toAgent := s.toAgent + [s.server.outbox[0]])
    case ServerTakes => s.(server := ServerReceive(env, s.server, s.toServer[0]), toServer := s.toServer[1..])
  }

  function DoAll(env: Env, steps: seq<Step>): Option<Sys> {
    if steps == [] then Some(Start()) else
      var last := |steps| - 1;
      match DoAll(env, steps[..last])
      case None => None
      case Some(s) => if CanStep(s, steps[last]) then Some(Do(env, s, steps[last])) else None
  }

  /** Both sides after everything that is under way has arrived and been read: the agent (None if it would
      be sent something it does not read), the server, what the server still sends, what it leaves unread. */
  datatype Settled = Settled(agent: Option<Agent>, server: Server, out: seq<Msg>, left: seq<Msg>)

  function Settle(env: Env, s: Sys): Settled {
    var (server, out, left) := Drain(env, s.server, s.toServer);
    Settled(Feed(s.agent, s.toAgent + out), server, out, left)
  }

  /** The agent is about to send the name of a class that is to be instrumented. */
  predicate Pending(a: Agent) {
    a.pc.SendName? && a.pc.req.Instrument?
  }

  function PendingName(a: Agent): string
    requires Pending(a)
  {
    ToDots(a.pc.req.name)
  }

  /** Which place of the server a place of the agent belongs to, with nothing under way. */
  predicate Matches(a: AgentPc, s: ServerPc) {
    match a
    case Idle => s.AwaitRequest?
    case SendName(Instrument(_, _)) => s.AwaitInstrumentName?
    case SendName(CheckHas(_)) => s.AwaitCheckName?
    case SendName(Register(_, _)) => s.AwaitRegisterName?
    case SendCode(Register(name, _)) => s == AwaitRegisterCode(ToDots(name))
    case Ended => s.Stopped?
    case _ => false
  }

  ghost predicate InStep(env: Env, a: Agent, s: Server) {
    Matches(a.pc, s.pc) && !a.mismatch && Agree(env, a.store, s.store)
  }

  ghost predicate Aligned(env: Env, s: Sys) {
    var t := Settle(env, s);
    t.left == [] && t.agent.Some? && InStep(env, t.agent.value, t.server)
  }

  lemma Assoc(xs: seq<Msg>, ys: seq<Msg>, zs: seq<Msg>)
    ensures xs + (ys + zs) == (xs + ys) + zs
  {
  }

  lemma {:induction false} DrainAppend(env: Env, s: Server, ms: seq<Msg>, m: Msg)
    requires var (s1, _, left) := Drain(env, s, ms); left == [] && ServerReads(s1.pc)
    ensures var (s1, out, _) := Drain(env, s, ms);
      var s2 := ServerReceive(env, s1, m);
      Drain(env, s, ms + [m]) == (s2.(outbox := []), out + s2.outbox, [])
    decreases |ms|
  {
    if ms == [] {
      var s2 := ServerReceive(env, s, m);
      assert ([] + [m])[1..] == [];
      assert Drain(env, s2, []) == (s2.(outbox := []), s2.outbox, []);
    } else {
      assert (ms + [m])[1..] == ms[1..] + [m];
      var next := ServerReceive(env, s, ms[0]);
      DrainAppend(env, next, ms[1..], m);
      var (s1, out, _) := Drain(env, next, ms[1..]);
      Assoc(s.outbox, out, ServerReceive(env, s1, m).outbox);
    }
  }

  /** What has been sent makes no difference to what is still to be read. */
  lemma DrainSent(env: Env, s: Server, m: Msg, rest: seq<Msg>, ms: seq<Msg>)
    requires s.outbox == [m] + rest
    ensures var (r, out, left) := Drain(env, s.(outbox := rest), ms); Drain(env, s, ms) == (r, [m] + out, left)
  {
    hide HandleInstrument, TakeRequest;
    if ms != [] && ServerReads(s.pc) {
      assert ServerReceive(env, s.(outbox := rest), ms[0]) == ServerReceive(env, s, ms[0]);
      AppendRegroup([m], rest, Drain(env, ServerReceive(env, s, ms[0]), ms[1..]).1);
    }
  }

  lemma ServerSendsKeepsSettled(env: Env, s: Sys)
    requires CanStep(s, ServerSends)
    ensures var t, t' := Settle(env, s), Settle(env, Do(env, s, ServerSends));
      t'.agent == t.agent && t'.server == t.server && t'.left == t.left && t.out == [s.server.outbox[0]] + t'.out
  {
    hide Drain, Feed;
    var m, rest := s.server.outbox[0], s.server.outbox[1..];
    assert s.server.outbox == [m] + rest;
    DrainSent(env, s.server, m, rest, s.toServer);
    AppendRegroup(s.toAgent, [m], Settle(env, Do(env, s, ServerSends)).out);
  }

  lemma DrainTaken(env: Env, s: Server, ms: seq<Msg>)
    requires s.outbox == [] && ms != [] && ServerReads(s.pc)
    ensures Drain(env, ServerReceive(env, s, ms[0]), ms[1..]) == Drain(env, s, ms)
  {
    hide ServerReceive;
    var out := Drain(env, ServerReceive(env, s, ms[0]), ms[1..]).1;
    assert [] + out == out;
  }

  lemma ServerTakesKeepsSettled(env: Env, s: Sys)
    requires CanStep(s, ServerTakes)
    ensures Settle(env, Do(env, s, ServerTakes)) == Settle(env, s)
  {
    hide Drain, Feed, ServerReceive;
    DrainTaken(env, s.server, s.toServer);
  }

  lemma AgentTakesKeepsSettled(env: Env, s: Sys)
    requires CanStep(s, AgentTakes)
    ensures Settle(env, Do(env, s, AgentTakes)) == Settle(env, s)
  {
    hide Drain, Feed, AgentReceive;
    var out, m, rest := Settle(env, s).out, s.toAgent[0], s.toAgent[1..];
    assert s.toAgent == [m] + rest;
    AppendRegroup([m], rest, out);
    FeedOne(s.agent, m, rest + out);
  }

  /** With an agent that is about to send, nothing is under way towards it. */
  lemma NothingUnderWay(env: Env, s: Sys)
    requires Settle(env, s).agent.Some? && !AgentReads(s.agent.pc)
    ensures var t := Settle(env, s); t.agent == Some(s.agent) && s.toAgent == [] && t.out == []
  {
  }

  /** The agent moves on by itself and sends a message m: what remains is how it reads the server's answer. */
  lemma SendKeepsAligned(env: Env, s: Sys, s': Sys, m: Msg)
    requires Aligned(env, s) && !AgentReads(s.agent.pc) && ServerReads(Settle(env, s).server.pc)
    requires s'.toServer == s.toServer + [m] && s'.server == s.server && s'.toAgent == s.toAgent
    requires var r := ServerReceive(env, Settle(env, s).server, m);
      Feed(s'.agent, r.outbox).Some? && InStep(env, Feed(s'.agent, r.outbox).value, r)
    ensures Aligned(env, s')
    ensures var r := ServerReceive(env, Settle(env, s).server, m);
      Settle(env, s') == Settled(Feed(s'.agent, r.outbox), r.(outbox := []), r.outbox, [])
  {
    NothingUnderWay(env, s);
    DrainAppend(env, s.server, s.toServer, m);
    var r := ServerReceive(env, Settle(env, s).server, m);
    assert s'.toAgent + ([] + r.outbox) == r.outbox;
  }

  /** Replies to the one-byte request type. */
  lemma AckIsRead(bad: bool, st: Store, req: Request)
    ensures Feed(Agent(AwaitAck(req), bad, st), [ACK]) == Some(Agent(AfterAck(req), bad, st))
  {
    assert [ACK] == [ACK] + [];
    FeedTo(AwaitAck(req), AfterAck(req), bad, st, st, ACK, []);
  }

  lemma PrepIsRead(env: Env, bad: bool, st: Store)
    ensures Feed(Agent(AwaitAck(PrepClasses), bad, st), [ACK] + PrepMessages(env))
      == Some(Agent(Idle, bad, AfterClasses(st, env.prep)))
  {
    FeedTo(AwaitAck(PrepClasses), AwaitPrepCount, bad, st, st, ACK, PrepMessages(env));
    AtoiOfNumeral(|env.prep|);
    FeedTo(AwaitPrepCount, NextPrep(|env.prep|), bad, st, st, Msg(Length, Numeral(|env.prep|)),
      ClassMessages(env.prep));
    FeedPrep(bad, st, env.prep);
  }

  lemma MoreIsAgreed(env: Env, st: Store, r: Store, srv: ServerStore)
    requires Agree(env, st, srv) && r == st.(ignored := r.ignored, disk := r.disk) && st.ignored <= r.ignored
    ensures Agree(env, r, srv)
  {
    MoreIgnoredAgrees(env, st, r, srv.sentInterceptors);
  }

  lemma RequestIsTaken(env: Env, st: Store, srv: ServerStore, req: Request)
    requires Agree(env, st, srv)
    ensures var r := TakeRequest(env, srv, OpCodeOf(req));
      var fed := Feed(Agent(AwaitAck(req), false, st), r.outbox);
      fed.Some? && InStep(env, fed.value, r) && r.store == srv
      && (req.Instrument? ==> fed.value.pc == SendName(req)) && (!req.Instrument? ==> !Pending(fed.value))
  {
    hide Feed, Agree, PrepMessages;
    if req.PrepClasses? {
      hide AfterClasses;
      PrepIsRead(env, false, st);
      ClassesSaved(st, env.prep);
      MoreIsAgreed(env, st, AfterClasses(st, env.prep), srv);
    } else {
      AckIsRead(false, st, req);
    }
  }

  lemma BeginKeepsAligned(env: Env, s: Sys, req: Request)
    requires Aligned(env, s) && CanStep(s, Begin(req))
    ensures Aligned(env, Do(env, s, Begin(req)))
    ensures var t := Settle(env, Do(env, s, Begin(req)));
      (req.Instrument? ==> t.agent.value.pc == SendName(req)) && (!req.Instrument? ==> !Pending(t.agent.value))
      && t.server.store == Settle(env, s).server.store
  {
    NothingUnderWay(env, s);
    RequestIsTaken(env, s.agent.store, Settle(env, s).server.store, req);
    SendKeepsAligned(env, s, Do(env, s, Begin(req)), Msg(OpCode, [OpCodeOf(req)]));
  }

  lemma SendNameOfInstrument(env: Env, s: Sys)
    requires Aligned(env, s) && Pending(s.agent)
    requires Instrumentable(env, Settle(env, s).server.store, PendingName(s.agent))
    ensures Aligned(env, Do(env, s, AgentSends)) && Settle(env, Do(env, s, AgentSends)).agent.value.pc.Idle?
    ensures Settle(env, Do(env, s, AgentSends)).server.store.byteCodeCache.Keys
      == Settle(env, s).server.store.byteCodeCache.Keys + {PendingName(s.agent)}
  {
    NothingUnderWay(env, s);
    var srv, b, dots := Settle(env, s).server, AfterSend(s.agent), ToDots(s.agent.pc.req.name);
    MoreIgnoredAgrees(env, s.agent.store, b.store, srv.store.sentInterceptors);
    FirstReplyIsRead(env, b.store, srv.store, dots);
    SendKeepsAligned(env, s, Do(env, s, AgentSends), NextSend(s.agent.pc));
  }

  lemma SendNameOfCheck(env: Env, s: Sys)
    requires Aligned(env, s) && s.agent.pc.SendName? && s.agent.pc.req.CheckHas?
    ensures Aligned(env, Do(env, s, AgentSends)) && Settle(env, Do(env, s, AgentSends)).agent.value.pc.Idle?
    ensures Settle(env, Do(env, s, AgentSends)).server.store == Settle(env, s).server.store
    ensures Settle(env, Do(env, s, AgentSends)).agent.value.store.answer
      == HasClass(env, Settle(env, s).server.store, ToDots(s.agent.pc.req.name))
  {
    hide DefinedOnce, SameInterceptors;
    NothingUnderWay(env, s);
    var srv, st, name := Settle(env, s).server, s.agent.store, s.agent.pc.req.name;
    var answer := HasClassAnswer(env, srv.store, ToDots(name));
    var st' := SaveAnswer(st, name, HasClass(env, srv.store, ToDots(name)));
    assert [answer] == [answer] + [];
    FeedTo(AwaitAnswer(name), Idle, false, st, st', answer, []);
    MoreIgnoredAgrees(env, st, st', srv.store.sentInterceptors);
    SendKeepsAligned(env, s, Do(env, s, AgentSends), NextSend(s.agent.pc));
  }

  lemma SendOfRegister(env: Env, s: Sys)
    requires Aligned(env, s) && Sending(s.agent.pc) && s.agent.pc.req.Register?
    ensures Aligned(env, Do(env, s, AgentSends))
    ensures Settle(env, Do(env, s, AgentSends)).server.store.byteCodeCache == Settle(env, s).server.store.byteCodeCache
    ensures Settle(env, Do(env, s, AgentSends)).agent.value.pc == if s.agent.pc.SendName?
      then SendCode(s.agent.pc.req) else Idle
  {
    NothingUnderWay(env, s);
    var srv, b := Settle(env, s).server, AfterSend(s.agent);
    var r := ServerReceive(env, srv, NextSend(s.agent.pc));
    MoreIgnoredAgrees(env, s.agent.store, b.store, srv.store.sentInterceptors);
    assert forall n :: HasClass(env, srv.store, n) ==> HasClass(env, r.store, n);
    SendKeepsAligned(env, s, Do(env, s, AgentSends), NextSend(s.agent.pc));
  }

  lemma StepKeepsAligned(env: Env, s: Sys, step: Step)
    requires Aligned(env, s) && CanStep(s, step)
    requires step.AgentSends? && Pending(s.agent) ==>
      Instrumentable(env, Settle(env, s).server.store, PendingName(s.agent))
    ensures Aligned(env, Do(env, s, step))
  {
    match step {
      case Begin(req) => BeginKeepsAligned(env, s, req);
      case AgentSends =>
        match s.agent.pc.req {
          case Instrument(_, _) => SendNameOfInstrument(env, s);
          case CheckHas(_) => SendNameOfCheck(env, s);
          case _ => SendOfRegister(env, s);
        }
      case AgentTakes => AgentTakesKeepsSettled(env, s);
      case ServerSends => ServerSendsKeepsSettled(env, s);
      case ServerTakes => ServerTakesKeepsSettled(env, s);
    }
  }

  lemma StartAligned(env: Env)
    ensures Aligned(env, Start())
  {
    var s := Start();
    assert Drain(env, s.server, []) == (s.server, [], []);
    assert s.toAgent + [] == [];
    assert Feed(s.agent, []) == Some(s.agent);
  }

  lemma {:induction false} MismatchStays(a: Agent, ms: seq<Msg>)
    requires Feed(a, ms).Some? && a.mismatch
    ensures Feed(a, ms).value.mismatch
    decreases |ms|
  {
    if ms == [] {
    } else {
      MismatchStays(AgentReceive(a, ms[0]), ms[1..]);
    }
  }

  /** Nothing is under way and the agent may begin another request or has stopped the server. */
  predicate Quiet(s: Sys) {
    (s.agent.pc.Idle? || s.agent.pc.Ended?) && s.toServer == [] && s.toAgent == [] && s.server.outbox == []
  }

  lemma CrashStays(env: Env, s: Server, ms: seq<Msg>)
    ensures s.pc.Crashed? ==> Drain(env, s, ms).0.pc.Crashed?
  {
  }

  lemma AlignedSidesAreSound(env: Env, s: Sys)
    requires Aligned(env, s)
    ensures !s.agent.mismatch && !s.agent.pc.Failed? && !s.server.pc.Crashed?
  {
    if s.agent.mismatch { MismatchStays(s.agent, s.toAgent + Settle(env, s).out); }
    if !AgentReads(s.agent.pc) { NothingUnderWay(env, s); }
    CrashStays(env, s.server, s.toServer);
  }

  lemma AlignedSidesCanMove(env: Env, s: Sys)
    requires Aligned(env, s)
    ensures Quiet(s) || CanStep(s, AgentSends) || CanStep(s, AgentTakes) || CanStep(s, ServerSends)
      || CanStep(s, ServerTakes)
  {
    if !AgentReads(s.agent.pc) { NothingUnderWay(env, s); }
    if s.server.outbox == [] && (s.toServer == [] || !ServerReads(s.server.pc)) {
      assert Settle(env, s).out == [];
      assert s.toAgent + [] == s.toAgent;
    }
  }

  lemma QuietSidesAgree(env: Env, s: Sys)
    requires Aligned(env, s) && Quiet(s)
    ensures Agree(env, s.agent.store, s.server.store) && (s.agent.pc.Ended? <==> s.server.pc.Stopped?)
  {
    NothingUnderWay(env, s);
    assert Drain(env, s.server, []) == (s.server, [], []);
  }
}
