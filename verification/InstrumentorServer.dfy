/** The server as the object that runs the request handlers: its methods send one message after the other
    and walk the initializer trees recursively, and do what module Conversation says of a server. */
module InstrumentorServerObject {
  import opened Wrappers
  import opened Conversation
  import opened Decimal

  lemma {:induction false} LeavesAppend(xs: seq<Initializer>, ys: seq<Initializer>)
    ensures Leaves(xs + ys) == Leaves(xs) + Leaves(ys)
    decreases |xs|
  {
    if xs == [] {
      assert xs + ys == ys;
    } else {
      assert (xs + ys)[1..] == xs[1..] + ys;
      LeavesAppend(xs[1..], ys);
    }
  }

  lemma OneTree(initializer: Initializer)
    ensures Leaves([initializer]) == match initializer
      case ForStaticField(_, _, _) => [initializer]
      case Compound(parts) => Leaves(parts)
      case OtherInitializer => []
  {
    assert Leaves([initializer][1..]) == [];
  }

  lemma {:induction false} UntilUnknownOfKnown(env: Env, leaves: seq<Initializer>, sent: seq<string>)
    requires KnownInterceptors(env, leaves)
    ensures UntilUnknown(env, leaves, sent) == InitMessages(env, leaves, sent)
    decreases |leaves|
  {
    if leaves == [] {
    } else {
      UntilUnknownOfKnown(env, leaves[1..], AfterLeaf(leaves[0], sent));
    }
  }

  lemma KnownAppend(env: Env, xs: seq<Initializer>, ys: seq<Initializer>)
    ensures KnownInterceptors(env, xs + ys) <==> KnownInterceptors(env, xs) && KnownInterceptors(env, ys)
  {
    var all := xs + ys;
    assert forall i :: 0 <= i < |xs| ==> all[i] == xs[i];
    assert forall i :: 0 <= i < |ys| ==> all[|xs| + i] == ys[i];
  }

  lemma KnownFirst(env: Env, leaves: seq<Initializer>)
    requires leaves != [] && leaves[0].ForStaticField?
    ensures KnownInterceptors(env, leaves)
      <==> leaves[0].interceptor in env.interceptorCode && KnownInterceptors(env, leaves[1..])
  {
    assert forall i :: 1 <= i < |leaves| ==> leaves[i] == leaves[1..][i - 1];
  }

  lemma UntilUnknownStep(env: Env, leaves: seq<Initializer>, sent: seq<string>)
    requires leaves != [] && forall i :: 0 <= i < |leaves| ==> leaves[i].ForStaticField?
    ensures UntilUnknown(env, leaves, sent) == if leaves[0].interceptor in env.interceptorCode
      then LeafMessages(env, leaves[0], sent) + UntilUnknown(env, leaves[1..], AfterLeaf(leaves[0], sent))
      else [Msg(Marker, INIT), Msg(Name, leaves[0].interceptor)]
    ensures AfterLeaves(leaves, sent) == AfterLeaves(leaves[1..], AfterLeaf(leaves[0], sent))
  {
  }

  lemma {:induction false} UntilUnknownAppend(env: Env, xs: seq<Initializer>, ys: seq<Initializer>, sent: seq<string>)
    requires forall i :: 0 <= i < |xs| ==> xs[i].ForStaticField?
    requires forall i :: 0 <= i < |ys| ==> ys[i].ForStaticField?
    ensures UntilUnknown(env, xs + ys, sent) == UntilUnknown(env, xs, sent) + if KnownInterceptors(env, xs)
      then UntilUnknown(env, ys, AfterLeaves(xs, sent)) else []
    ensures KnownInterceptors(env, xs + ys) <==> KnownInterceptors(env, xs) && KnownInterceptors(env, ys)
    ensures AfterLeaves(xs + ys, sent) == AfterLeaves(ys, AfterLeaves(xs, sent))
    decreases |xs|
  {
    if xs == [] {
      assert xs + ys == ys;
    } else {
      hide UntilUnknown, KnownInterceptors, LeafMessages, AfterLeaf, AfterLeaves;
      assert (xs + ys)[1..] == xs[1..] + ys && (xs + ys)[0] == xs[0];
      UntilUnknownAppend(env, xs[1..], ys, AfterLeaf(xs[0], sent));
      UntilUnknownStep(env, xs + ys, sent);
      UntilUnknownStep(env, xs, sent);
      KnownFirst(env, xs);
      KnownFirst(env, xs + ys);
      if xs[0].interceptor in env.interceptorCode {
        Assoc(LeafMessages(env, xs[0], sent), UntilUnknown(env, xs[1..], AfterLeaf(xs[0], sent)),
          if KnownInterceptors(env, xs) then UntilUnknown(env, ys, AfterLeaves(xs, sent)) else []);
      }
    }
  }

  lemma OneMoreTree(env: Env, parts: seq<Initializer>, i: nat, sent: seq<string>)
    requires i < |parts|
    ensures var xs, ys, zs := Leaves(parts[..i]), Leaves([parts[i]]), Leaves(parts[..i + 1]);
      && (KnownInterceptors(env, zs) <==> KnownInterceptors(env, xs) && KnownInterceptors(env, ys))
      && UntilUnknown(env, zs, sent)
           == UntilUnknown(env, xs, sent)
             + (if KnownInterceptors(env, xs) then UntilUnknown(env, ys, AfterLeaves(xs, sent)) else [])
      && AfterLeaves(zs, sent) == AfterLeaves(ys, AfterLeaves(xs, sent))
  {
    assert parts[..i + 1] == parts[..i] + [parts[i]];
    LeavesAppend(parts[..i], [parts[i]]);
    UntilUnknownAppend(env, Leaves(parts[..i]), Leaves([parts[i]]), sent);
  }

  /** After an exception the remaining trees make no difference. */
  lemma RestUnread(env: Env, parts: seq<Initializer>, i: nat, sent: seq<string>)
    requires i <= |parts| && !KnownInterceptors(env, Leaves(parts[..i]))
    ensures UntilUnknown(env, Leaves(parts), sent) == UntilUnknown(env, Leaves(parts[..i]), sent)
    ensures !KnownInterceptors(env, Leaves(parts))
  {
    assert parts == parts[..i] + parts[i..];
    LeavesAppend(parts[..i], parts[i..]);
    UntilUnknownAppend(env, Leaves(parts[..i]), Leaves(parts[i..]), sent);
  }

  lemma {:induction false} AuxMessagesAppend(xs: seq<(string, string)>, c: (string, string))
    ensures AuxMessages(xs + [c]) == AuxMessages(xs) + ([Msg(Marker, AUX)] + NamedClass(c))
    decreases |xs|
  {
    if xs == [] {
      assert (xs + [c])[1..] == [];
    } else {
      assert (xs + [c])[1..] == xs[1..] + [c];
      AuxMessagesAppend(xs[1..], c);
    }
  }

  lemma AuxMessagesSnoc(aux: seq<(string, string)>, i: nat)
    requires i < |aux|
    ensures AuxMessages(aux[..i + 1]) == AuxMessages(aux[..i]) + ([Msg(Marker, AUX)] + NamedClass(aux[i]))
  {
    assert aux[..i + 1] == aux[..i] + [aux[i]];
    AuxMessagesAppend(aux[..i], aux[i]);
  }

  lemma {:induction false} ClassMessagesAppend(xs: seq<(string, string)>, c: (string, string))
    ensures ClassMessages(xs + [c]) == ClassMessages(xs) + NamedClass(c)
    decreases |xs|
  {
    if xs == [] {
      assert (xs + [c])[1..] == [];
    } else {
      assert (xs + [c])[1..] == xs[1..] + [c];
      ClassMessagesAppend(xs[1..], c);
    }
  }

  lemma ClassMessagesSnoc(classes: seq<(string, string)>, i: nat)
    requires i < |classes|
    ensures ClassMessages(classes[..i + 1]) == ClassMessages(classes[..i]) + NamedClass(classes[i])
  {
    assert classes[..i + 1] == classes[..i] + [classes[i]];
    ClassMessagesAppend(classes[..i], classes[i]);
  }

  lemma Join(ws: seq<Msg>, xs: seq<Msg>, a: Msg, ys: seq<Msg>, b: Msg, c: Msg, zs: seq<Msg>)
    ensures ws + xs + [a] + ys + [b, c] + zs == ws + (xs + ([a] + (ys + ([b] + ([c] + zs)))))
  {
  }

  lemma WholeReply(env: Env, before: seq<Msg>, aux: seq<(string, string)>, leaves: seq<Initializer>, code: string,
        sent: seq<string>)
    requires KnownInterceptors(env, leaves)
    ensures before + AuxMessages(aux) + [Msg(Marker, NO_MORE_AUX)] + InitMessages(env, leaves, sent)
      + [Msg(Marker, NO_MORE_INIT), Msg(Verdict, YES_INSTRUMENT)] + Sized(code)
      == before + TransformedReply(env, aux, leaves, code, sent)
  {
    Join(before, AuxMessages(aux), Msg(Marker, NO_MORE_AUX), InitMessages(env, leaves, sent),
      Msg(Marker, NO_MORE_INIT), Msg(Verdict, YES_INSTRUMENT), Sized(code));
  }

  lemma JoinShort(ws: seq<Msg>, xs: seq<Msg>, a: Msg, ys: seq<Msg>)
    ensures ws + xs + [a] + ys + [] == ws + (xs + [a] + ys)
  {
  }

  lemma BrokenReply(env: Env, before: seq<Msg>, aux: seq<(string, string)>, leaves: seq<Initializer>, sent: seq<string>)
    requires forall i :: 0 <= i < |leaves| ==> leaves[i].ForStaticField?
    ensures before + AuxMessages(aux) + [Msg(Marker, NO_MORE_AUX)] + UntilUnknown(env, leaves, sent) + []
      == before + (AuxMessages(aux) + [Msg(Marker, NO_MORE_AUX)] + UntilUnknown(env, leaves, sent))
  {
    JoinShort(before, AuxMessages(aux), Msg(Marker, NO_MORE_AUX), UntilUnknown(env, leaves, sent));
  }

  /** A reading of the rest, after something has been sent already. */
  function Before(out: seq<Msg>, d: (Server, seq<Msg>, seq<Msg>)): (Server, seq<Msg>, seq<Msg>) {
    (d.0, out + d.1, d.2)
  }

  lemma BeforeBefore(a: seq<Msg>, b: seq<Msg>, d: (Server, seq<Msg>, seq<Msg>))
    ensures Before(a, Before(b, d)) == Before(a + b, d)
  {
    Assoc(a, b, d.1);
  }

  lemma BeforeNothing(d: (Server, seq<Msg>, seq<Msg>))
    ensures Before([], d) == d
  {
    assert [] + d.1 == d.1;
  }

  /** What is still to be sent goes out first. */
  lemma {:induction false} OutboxFirst(env: Env, s: Server, ms: seq<Msg>)
    ensures Drain(env, s, ms) == Before(s.outbox, Drain(env, s.(outbox := []), ms))
  {
    var quiet := s.(outbox := []);
    if ms == [] || !ServerReads(s.pc) {
      assert s.outbox + [] == s.outbox;
    } else {
      assert ServerReceive(env, quiet, ms[0]) == ServerReceive(env, s, ms[0]);
      var d := Drain(env, ServerReceive(env, s, ms[0]), ms[1..]);
      assert [] + d.1 == d.1;
    }
  }

  /** One message read and what it makes the server send. */
  lemma ReadOne(env: Env, pc: ServerPc, st: ServerStore, ms: seq<Msg>)
    requires ms != [] && ServerReads(pc)
    ensures var r := ServerReceive(env, Server(pc, [], st), ms[0]);
      Drain(env, Server(pc, [], st), ms) == Before(r.outbox, Drain(env, Server(r.pc, [], r.store), ms[1..]))
  {
    var r := ServerReceive(env, Server(pc, [], st), ms[0]);
    OutboxFirst(env, r, ms[1..]);
    var d := Drain(env, r, ms[1..]);
    assert [] + d.1 == d.1;
  }

  lemma InstrumentEndsOrThrows(env: Env, st: ServerStore, dots: string)
    ensures HandleInstrument(env, st, dots).pc.AwaitRequest? || HandleInstrument(env, st, dots).pc.Crashed?
  {
  }

  // What each receive of a request does

  lemma InstrumentNameIsRead(env: Env, st: ServerStore, ms: seq<Msg>)
    requires ms != []
    ensures var r := HandleInstrument(env, st, ToDots(ms[0].payload));
      Drain(env, Server(AwaitInstrumentName, [], st), ms)
        == Before(r.outbox, Drain(env, Server(if r.pc.Crashed? then Crashed else AwaitRequest, [], r.store), ms[1..]))
  {
    hide Drain, HandleInstrument, ToDots, Before;
    ReadOne(env, AwaitInstrumentName, st, ms);
    InstrumentEndsOrThrows(env, st, ToDots(ms[0].payload));
  }

  lemma CheckNameIsRead(env: Env, st: ServerStore, ms: seq<Msg>)
    requires ms != []
    ensures Drain(env, Server(AwaitCheckName, [], st), ms)
      == Before([HasClassAnswer(env, st, ToDots(ms[0].payload))], Drain(env, Server(AwaitRequest, [], st), ms[1..]))
  {
    hide Drain, HasClassAnswer, ToDots, Before;
    ReadOne(env, AwaitCheckName, st, ms);
  }

  lemma RegisterNameIsRead(env: Env, st: ServerStore, ms: seq<Msg>)
    requires ms != []
    ensures Drain(env, Server(AwaitRegisterName, [], st), ms)
      == Drain(env, Server(AwaitRegisterCode(ToDots(ms[0].payload)), [], st), ms[1..])
  {
    hide Drain, ToDots, Before;
    ReadOne(env, AwaitRegisterName, st, ms);
    BeforeNothing(Drain(env, Server(AwaitRegisterCode(ToDots(ms[0].payload)), [], st), ms[1..]));
  }

  lemma RegisterCodeIsRead(env: Env, name: string, st: ServerStore, ms: seq<Msg>)
    requires ms != []
    ensures Drain(env, Server(AwaitRegisterCode(name), [], st), ms)
      == Drain(env, Server(AwaitRequest, [], RegisterByteCode(st, name, ms[0].payload)), ms[1..])
  {
    hide Drain, RegisterByteCode, Before;
    ReadOne(env, AwaitRegisterCode(name), st, ms);
    BeforeNothing(Drain(env, Server(AwaitRequest, [], RegisterByteCode(st, name, ms[0].payload)), ms[1..]));
  }

  lemma RegisterIs(env: Env, st: ServerStore, name: string, code: string)
    ensures RegisterByteCode(st, name, code) == if name in st.registered
      then st else st.(registered := st.registered[name := code])
  {
  }

  class InstrumentorServer {
    const env: Env
    var inbox: seq<Msg>  // what has arrived or is still to arrive
    var byteCodeCache: map<string, Option<string>>
    var registered: map<string, string>
    var sendInterceptors: seq<string>
    var sent: seq<Msg>  // everything sent on the socket so far

    function State(): ServerStore
      reads this
    {
      ServerStore(byteCodeCache, registered, sendInterceptors)
    }

    constructor (env: Env)
      ensures this.env == env && State() == Start().server.store && sent == [] && inbox == []
    {
      this.env := env;
      byteCodeCache, registered, sendInterceptors, sent, inbox := map[], map[], [], [], [];
    }

    method Send(m: Msg)
      modifies this`sent
      ensures sent == old(sent) + [m]
    {
      sent := sent + [m];
    }

    method SendSized(code: string)
      modifies this`sent
      ensures sent == old(sent) + Sized(code)
    {
      Send(Msg(Length, Numeral(|code|)));
      Send(Msg(Bytes, code));
    }

    ghost predicate Valid()
      reads this
    {
      forall n :: n in sendInterceptors ==> n in env.interceptorCode
    }

    /** False stands for the exception about an interceptor without known byte code. */
    method HandleStaticField(leaf: Initializer) returns (ok: bool)
      requires Valid() && leaf.ForStaticField?
      modifies this`sent, this`sendInterceptors
      ensures Valid()
      ensures ok <==> leaf.interceptor in env.interceptorCode
      ensures ok ==> sent == old(sent) + LeafMessages(env, leaf, old(sendInterceptors))
      ensures !ok ==> sent == old(sent) + [Msg(Marker, INIT), Msg(Name, leaf.interceptor)]
      ensures sendInterceptors == if ok then AfterLeaf(leaf, old(sendInterceptors)) else old(sendInterceptors)
    {
      var name := leaf.interceptor;
      Send(Msg(Marker, INIT));
      Send(Msg(Name, name));
      if name !in sendInterceptors {
        if name !in env.interceptorCode {
          return false;
        }
        SendSized(env.interceptorCode[name]);
        sendInterceptors := sendInterceptors + [name];
      }
      Send(Msg(Name, leaf.className));
      SendSized(leaf.serialized);
      return true;
    }

    /** Walks one initializer tree; what is sent is what its leaves make, from left to right. */
    method HandleLoadedTypeInitializers(initializer: Initializer) returns (ok: bool)
      requires Valid()
      modifies this`sent, this`sendInterceptors
      ensures Valid()
      ensures ok <==> KnownInterceptors(env, Leaves([initializer]))
      ensures sent == old(sent) + UntilUnknown(env, Leaves([initializer]), old(sendInterceptors))
      ensures ok ==> sendInterceptors == AfterLeaves(Leaves([initializer]), old(sendInterceptors))
      decreases initializer, 1
    {
      OneTree(initializer);
      match initializer {
        case ForStaticField(_, _, _) =>
          ok := HandleStaticField(initializer);
        case Compound(_) =>
          ok := HandleCompound(initializer);
        case OtherInitializer =>
          ok := true;
      }
    }

    method HandleCompound(initializer: Initializer) returns (ok: bool)
      requires Valid() && initializer.Compound?
      modifies this`sent, this`sendInterceptors
      ensures Valid()
      ensures ok <==> KnownInterceptors(env, Leaves(initializer.parts))
      ensures sent == old(sent) + UntilUnknown(env, Leaves(initializer.parts), old(sendInterceptors))
      ensures ok ==> sendInterceptors == AfterLeaves(Leaves(initializer.parts), old(sendInterceptors))
      decreases initializer, 0
    {
      var parts := initializer.parts;
      ok := true;
      var i := 0;
      while i < |parts| && ok
        invariant i <= |parts| && Valid()
        invariant ok <==> KnownInterceptors(env, Leaves(parts[..i]))
        invariant sent == old(sent) + UntilUnknown(env, Leaves(parts[..i]), old(sendInterceptors))
        invariant ok ==> sendInterceptors == AfterLeaves(Leaves(parts[..i]), old(sendInterceptors))
        decreases |parts| - i
      {
        OneMoreTree(env, parts, i, old(sendInterceptors));
        Assoc(old(sent), UntilUnknown(env, Leaves(parts[..i]), old(sendInterceptors)),
          UntilUnknown(env, Leaves([parts[i]]), sendInterceptors));
        ok := HandleLoadedTypeInitializers(parts[i]);
        i := i + 1;
      }
      if ok {
        assert parts[..i] == parts;
      } else {
        RestUnread(env, parts, i, old(sendInterceptors));
      }
    }

    method SendClass(c: (string, string))
      modifies this`sent
      ensures sent == old(sent) + NamedClass(c)
    {
      Send(Msg(Name, c.0));
      SendSized(c.1);
    }

    method SendAuxiliaryTypes(aux: seq<(string, string)>)
      modifies this`sent
      ensures sent == old(sent) + AuxMessages(aux)
    {
      for i := 0 to |aux|
        invariant sent == old(sent) + AuxMessages(aux[..i])
      {
        Send(Msg(Marker, AUX));
        SendClass(aux[i]);
        AuxMessagesSnoc(aux, i);
      }
      assert aux[..|aux|] == aux;
    }

    /** The reply to the first request for a class that is transformed, up to its code. */
    method OnTransformation(aux: seq<(string, string)>, initializers: seq<Initializer>) returns (ok: bool)
      requires Valid()
      modifies this`sent, this`sendInterceptors
      ensures Valid()
      ensures ok <==> KnownInterceptors(env, Leaves(initializers))
      ensures sent
        == old(sent) + AuxMessages(aux) + [Msg(Marker, NO_MORE_AUX)]
          + UntilUnknown(env, Leaves(initializers), old(sendInterceptors))
        + if ok then [Msg(Marker, NO_MORE_INIT), Msg(Verdict, YES_INSTRUMENT)] else []
      ensures ok ==> sendInterceptors == AfterLeaves(Leaves(initializers), old(sendInterceptors))
    {
      SendAuxiliaryTypes(aux);
      Send(Msg(Marker, NO_MORE_AUX));
      ok := HandleCompound(Compound(initializers));
      if ok {
        Send(Msg(Marker, NO_MORE_INIT));
        Send(Msg(Verdict, YES_INSTRUMENT));
      }
    }

    method OnIgnored()
      modifies this`sent
      ensures sent == old(sent) + IGNORED_REPLY
    {
      Send(Msg(Marker, NO_MORE_AUX));
      Send(Msg(Marker, NO_MORE_INIT));
      Send(Msg(Verdict, NO_INSTRUMENT));
    }

    method SendByteCodeToAgent(code: Option<string>)
      modifies this`sent
      ensures sent == old(sent) + CachedReply(code)
    {
      if code.Some? {
        SendSized(code.value);
      }
    }

    /** The outcome of the transformation itself comes from the environment. */
    method HandleInstrument(nameSlashes: string) returns (ok: bool)
      requires Valid()
      modifies this`sent, this`sendInterceptors, this`byteCodeCache
      ensures Valid()
      ensures var r := Conversation.HandleInstrument(env, old(State()), ToDots(nameSlashes));
        sent == old(sent) + r.outbox && (ok <==> !r.pc.Crashed?) && (ok ==> State() == r.store)
    {
      var dots := ToDots(nameSlashes);
      if dots in byteCodeCache {
        SendByteCodeToAgent(byteCodeCache[dots]);
        return true;
      }
      match env.transform(dots) {
        case Ignored =>
          OnIgnored();
          byteCodeCache := byteCodeCache[dots := None];
          SendByteCodeToAgent(None);
          return true;
        case Transformed(aux, initializers, code) =>
          ok := OnTransformation(aux, initializers);
          if ok {
            byteCodeCache := byteCodeCache[dots := Some(code)];
            SendByteCodeToAgent(Some(code));
            UntilUnknownOfKnown(env, Leaves(initializers), old(sendInterceptors));
            WholeReply(env, old(sent), aux, Leaves(initializers), code, old(sendInterceptors));
          } else {
            BrokenReply(env, old(sent), aux, Leaves(initializers), old(sendInterceptors));
          }
      }
    }

    method HandleHasClassCheck(nameSlashes: string)
      modifies this`sent
      ensures sent == old(sent) + [HasClassAnswer(env, State(), ToDots(nameSlashes))]
    {
      var dots := ToDots(nameSlashes);
      if dots in byteCodeCache {
        Send(Msg(Answer, YES));
      } else if dots in registered {
        Send(Msg(Answer, YES));
      } else if dots in env.loadable {
        Send(Msg(Answer, YES));
      } else {
        Send(Msg(Answer, "no"));
      }
    }

    method HandleRegisterByteCode(nameSlashes: string, code: string)
      modifies this`registered
      ensures State() == RegisterByteCode(old(State()), ToDots(nameSlashes), code)
    {
      var dots := ToDots(nameSlashes);
      if dots !in registered {
        registered := registered[dots := code];
      }
    }

    method HandleSentPrepClasses()
      modifies this`sent
      ensures sent == old(sent) + PrepMessages(env)
    {
      Send(Msg(Length, Numeral(|env.prep|)));
      for i := 0 to |env.prep|
        invariant sent == old(sent) + ([Msg(Length, Numeral(|env.prep|))] + ClassMessages(env.prep[..i]))
      {
        SendClass(env.prep[i]);
        ClassMessagesSnoc(env.prep, i);
      }
      assert env.prep[..|env.prep|] == env.prep;
    }

    /** The next message; None when the server waits for it. */
    method Receive() returns (text: Option<string>)
      modifies this`inbox
      ensures old(inbox) == [] ==> text == None && inbox == []
      ensures old(inbox) != [] ==> text == Some(old(inbox)[0].payload) && inbox == old(inbox)[1..]
    {
      if inbox == [] { return None; }
      text := Some(inbox[0].payload);
      inbox := inbox[1..];
    }

    /** From the place `from` to the next request, or to where the server waits or ends. `out` is what it
        sends; `st` its caches, which after an exception nobody looks at. */
    method HandleRest(from: ServerPc) returns (pc: ServerPc, ghost st: ServerStore, ghost out: seq<Msg>)
      requires Valid() && ServerReads(from) && from != AwaitRequest
      modifies this
      ensures Valid() && sent == old(sent) + out && (pc.Crashed? || st == State())
      ensures Drain(env, Server(from, [], old(State())), old(inbox))
        == Before(out, Drain(env, Server(pc, [], st), inbox))
      ensures pc == AwaitRequest || !ServerReads(pc) || inbox == []
      ensures |inbox| <= |old(inbox)|
    {
      hide Conversation.HandleInstrument, RegisterByteCode, HasClassAnswer, Drain, Before;
      ghost var messages := inbox;
      pc, st, out := from, State(), [];
      assert sent + [] == sent;
      var text := Receive();
      if text == None {
        BeforeNothing(Drain(env, Server(from, [], State()), inbox));
        return;
      }
      match from {
        case AwaitInstrumentName =>
          ghost var r := Conversation.HandleInstrument(env, State(), ToDots(text.value));
          InstrumentNameIsRead(env, State(), messages);
          var ok := HandleInstrument(text.value);
          pc, st, out := if ok then AwaitRequest else Crashed, r.store, r.outbox;
        case AwaitCheckName =>
          CheckNameIsRead(env, State(), messages);
          HandleHasClassCheck(text.value);
          pc, st, out := AwaitRequest, State(), [HasClassAnswer(env, State(), ToDots(text.value))];
        case AwaitRegisterName =>
          RegisterNameIsRead(env, State(), messages);
          pc := AwaitRegisterCode(ToDots(text.value));
          ghost var rest := inbox;
          var code := Receive();
          if code == None {
            BeforeNothing(Drain(env, Server(pc, [], State()), inbox));
            return;
          }
          RegisterCodeIsRead(env, ToDots(text.value), State(), rest);
          HandleRegisterByteCode(text.value, code.value);
          pc, st := AwaitRequest, State();
          BeforeNothing(Drain(env, Server(pc, [], st), inbox));
        case AwaitRegisterCode(name) =>
          RegisterCodeIsRead(env, name, State(), messages);
          RegisterIs(env, State(), name, text.value);
          registered := if name in registered then registered else registered[name := text.value];
          pc, st := AwaitRequest, State();
          BeforeNothing(Drain(env, Server(pc, [], st), inbox));
      }
    }

    /** The dispatcher, after a request other than stopping has been acknowledged. */
    method HandleRequest(requestType: char) returns (pc: ServerPc, ghost st: ServerStore, ghost out: seq<Msg>)
      requires Valid() && requestType != 1 as char
      modifies this
      ensures Valid() && sent == old(sent) + out && (pc.Crashed? || st == State())
      ensures var r := TakeRequest(env, old(State()), requestType);
        Before(r.outbox, Drain(env, Server(r.pc, [], r.store), old(inbox)))
          == Before([ACK] + out, Drain(env, Server(pc, [], st), inbox))
      ensures pc == AwaitRequest || !ServerReads(pc) || inbox == []
      ensures |inbox| <= |old(inbox)|
    {
      hide PrepMessages;
      ghost var d := Drain(env, Server(TakeRequest(env, State(), requestType).pc, [], State()), inbox);
      if requestType == 0 as char {
        pc, st, out := HandleRest(AwaitInstrumentName);
        BeforeBefore([ACK], out, Drain(env, Server(pc, [], st), inbox));
      } else if requestType == 2 as char {
        pc, st, out := HandleRest(AwaitCheckName);
        BeforeBefore([ACK], out, Drain(env, Server(pc, [], st), inbox));
      } else if requestType == 3 as char {
        pc, st, out := HandleRest(AwaitRegisterName);
        BeforeBefore([ACK], out, Drain(env, Server(pc, [], st), inbox));
      } else if requestType == 4 as char {
        HandleSentPrepClasses();
        pc, st, out := AwaitRequest, State(), PrepMessages(env);
      } else {
        assert sent + [] == sent && [ACK] + [] == [ACK];
        pc, st, out := Crashed, State(), [];
      }
    }

    /** One round of the loop. */
    method OneRequest() returns (pc: ServerPc, ghost st: ServerStore, ghost out: seq<Msg>)
      requires Valid() && inbox != []
      modifies this
      ensures Valid() && sent == old(sent) + out && (pc.Crashed? || st == State()) && |inbox| < |old(inbox)|
      ensures Drain(env, Server(AwaitRequest, [], old(State())), old(inbox))
        == Before(out, Drain(env, Server(pc, [], st), inbox))
      ensures pc == AwaitRequest || !ServerReads(pc) || inbox == []
    {
      ghost var messages := inbox;
      var request := Receive();
      ReadOne(env, AwaitRequest, State(), messages);
      if request.value == [] {
        assert sent + [] == sent;
        pc, st, out := Crashed, State(), [];
      } else {
        Send(ACK);
        if request.value[0] == 1 as char {
          pc, st, out := Stopped, State(), [ACK];
        } else {
          ghost var rest;
          pc, st, rest := HandleRequest(request.value[0]);
          Assoc(old(sent), [ACK], rest);
          out := [ACK] + rest;
        }
      }
    }

    /** The request loop, until the server stops, throws, or waits for a message: it reads and sends exactly
        what the process of module Conversation does. */
    method Serve() returns (pc: ServerPc, ghost st: ServerStore, ghost out: seq<Msg>)
      requires Valid()
      modifies this
      ensures Valid() && sent == old(sent) + out && (pc.Crashed? || st == State())
      ensures Drain(env, Server(AwaitRequest, [], old(State())), old(inbox))
        == Before(out, Drain(env, Server(pc, [], st), inbox))
      ensures !ServerReads(pc) || inbox == []
    {
      hide TakeRequest;
      pc, st, out := AwaitRequest, State(), [];
      assert sent + [] == sent;
      BeforeNothing(Drain(env, Server(pc, [], st), inbox));
      while pc == AwaitRequest
        invariant Valid() && sent == old(sent) + out && (pc.Crashed? || st == State())
        invariant Drain(env, Server(AwaitRequest, [], old(State())), old(inbox))
          == Before(out, Drain(env, Server(pc, [], st), inbox))
        invariant pc == AwaitRequest || !ServerReads(pc) || inbox == []
        decreases |inbox|, if pc == AwaitRequest then 1 else 0
      {
        if inbox == [] { return; }
        ghost var before, more := out, [];
        pc, st, more := OneRequest();
        BeforeBefore(before, more, Drain(env, Server(pc, [], st), inbox));
        Assoc(old(sent), before, more);
        out := before + more;
      }
    }
  }
}
