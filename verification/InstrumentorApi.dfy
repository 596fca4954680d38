/** The agent's side of an instrument request as the nested receive loops that perform it. Each method is
    tied to the place-by-place reading of module Conversation: reading `inbox` from where the method begins
    gives the same as reading what it leaves from where it ends. */
module InstrumentorApiObject {
  import opened Wrappers
  import opened Conversation
  import opened Decimal

  /** The reader has run out of messages in the middle of a reply and waits. */
  predicate Waiting(fed: Option<Agent>) {
    fed.Some? && AgentReads(fed.value.pc)
  }

  /** Reading on from a place with a store. */
  ghost function After(from: (AgentPc, Store), mismatch: bool, inbox: seq<Msg>): Option<Agent> {
    Feed(Agent(from.0, mismatch, from.1), inbox)
  }

  lemma FeedStep(a: Agent, ms: seq<Msg>)
    requires AgentReads(a.pc)
    ensures Feed(a, ms) == if ms == [] then Some(a) else Feed(AgentReceive(a, ms[0]), ms[1..])
  {
    hide AgentReceive;
  }

  lemma AnswerIsReceived(name: string, st: Store, text: string)
    ensures Conversation.Receive(AwaitAnswer(name), st, text) == (Idle, SaveAnswer(st, name, text == YES))
  {
  }

  lemma PrepPlaces(left: nat)
    requires left > 0
    ensures NextPrep(left) == AwaitPrepName(left) && AgentReads(AwaitPrepName(left))
  {
  }

  lemma PrepNameIsReceived(left: nat, st: Store, text: string)
    ensures Conversation.Receive(AwaitPrepName(left), st, text) == (AtLength(PrepLoad(left, text)), st)
    ensures left > 0 ==> AfterBytes(PrepLoad(left, text)) == NextPrep(left - 1)
    ensures forall code :: Loaded(PrepLoad(left, text), st, code) == SaveClass(st, (text, code))
  {
  }

  lemma VerdictIsReceived(st: Store, text: string)
    ensures Conversation.Receive(AwaitVerdict, st, text) == if text == YES_INSTRUMENT then (AwaitCodeLength, st)
      else if text == NO_INSTRUMENT then (Idle, SaveResult(st, None)) else (Failed, st)
  {
  }

  lemma AuxNameIsReceived(st: Store, text: string)
    ensures Conversation.Receive(AwaitAuxName, st, text) == (AtLength(AuxLoad(text)), st)
    ensures AfterBytes(AuxLoad(text)) == AwaitAuxMarker
    ensures forall code :: Loaded(AuxLoad(text), st, code) == SaveClass(st, (text, code))
  {
  }

  class InstrumentorApi {
    var ignoredClasses: set<string>
    var disk: map<string, string>
    var interceptors: map<string, string>
    var initializers: map<string, seq<string>>
    var loadedInterceptorsPerCl: map<int, set<string>>
    var instrumentorClassesCache: set<string>
    var answer: bool
    var inbox: seq<Msg>  // what has arrived or is still to arrive on the socket
    ghost var results: map<string, Option<string>>
    ghost var defined: seq<Definition>
    ghost var mismatch: bool

    ghost function State(className: string, loader: int): Store
      reads this
    {
      Store(className, loader, ignoredClasses, disk, interceptors, initializers, loadedInterceptorsPerCl,
            instrumentorClassesCache, answer, results, defined)
    }

    /** What reading the inbox from the given place comes to. */
    ghost function Reading(pc: AgentPc, className: string, loader: int): Option<Agent>
      reads this
    {
      Feed(Agent(pc, mismatch, State(className, loader)), inbox)
    }

    /** One receive at the place `pc`; None when nothing arrives any more. */
    method Receive(ghost pc: AgentPc, ghost className: string, ghost loader: int) returns (text: Option<string>)
      requires AgentReads(pc)
      modifies this
      ensures State(className, loader) == old(State(className, loader))
      ensures text == None ==> Waiting(old(Reading(pc, className, loader)))
      ensures text != None ==> |inbox| < |old(inbox)|
      ensures text != None ==>
        old(Reading(pc, className, loader))
          == After(Conversation.Receive(pc, old(State(className, loader)), text.value), mismatch, inbox)
    {
      hide Feed, Conversation.Receive, Fits;
      FeedStep(Agent(pc, mismatch, State(className, loader)), inbox);
      if inbox == [] {
        return None;
      }
      mismatch := mismatch || !Fits(pc, inbox[0]);
      text := Some(inbox[0].payload);
      inbox := inbox[1..];
    }

    /** A length and that many bytes; `load` says what they are for. */
    method ReceiveSized(ghost load: Load, ghost className: string, ghost loader: int) returns (code: Option<string>)
      modifies this
      ensures State(className, loader) == old(State(className, loader))
      ensures code == None ==> Waiting(old(Reading(AtLength(load), className, loader)))
      ensures code != None ==> |inbox| < |old(inbox)|
      ensures code != None ==>
        old(Reading(AtLength(load), className, loader))
          == After((AfterBytes(load), Loaded(load, old(State(className, loader)), code.value)), mismatch, inbox)
    {
      var length := Receive(AtLength(load), className, loader);
      if length == None { return None; }
      var expected := Atoi(length.value);
      LoadIsReceived(load, State(className, loader), length.value, 0);
      var bytes := Receive(AtBytes(load, expected), className, loader);
      if bytes == None { return None; }
      LoadIsReceived(load, State(className, loader), bytes.value, expected);
      code := Some(Truncated(bytes.value, expected));
    }

    method SaveClassOnDisk(name: string, code: string)
      modifies this`disk
      ensures disk == old(disk)[name := code]
    {
      disk := disk[name := code];
    }

    /** The rest of one auxiliary class after its marker. */
    method LoadAuxiliaryClass(ghost className: string, ghost loader: int) returns (ok: bool)
      modifies this
      ensures ok ==>
        |inbox| < |old(inbox)|
          && old(Reading(AwaitAuxName, className, loader)) == Reading(AwaitAuxMarker, className, loader)
      ensures !ok ==> Waiting(old(Reading(AwaitAuxName, className, loader)))
    {
      hide Feed, Conversation.Receive, Waiting, Fits, AfterBytes, Loaded, AtLength;
      ghost var st, start := State(className, loader), Reading(AwaitAuxName, className, loader);
      var name := Receive(AwaitAuxName, className, loader);
      if name == None { return false; }
      AuxNameIsReceived(st, name.value);
      assert start == Reading(AtLength(AuxLoad(name.value)), className, loader);
      var code := ReceiveSized(AuxLoad(name.value), className, loader);
      if code == None { return false; }
      SaveClassOnDisk(name.value, code.value);
      ignoredClasses := ignoredClasses + {name.value};
      assert State(className, loader) == SaveClass(st, (name.value, code.value));
      return true;
    }

    /** False when the method waits for ever. */
    method LoadAuxiliaryClasses(ghost className: string, ghost loader: int) returns (ok: bool)
      modifies this
      ensures ok ==> old(Reading(AwaitAuxMarker, className, loader)) == Reading(AwaitInitMarker, className, loader)
      ensures !ok ==> Waiting(old(Reading(AwaitAuxMarker, className, loader)))
    {
      hide Feed;
      ghost var start := Reading(AwaitAuxMarker, className, loader);
      var reply := Receive(AwaitAuxMarker, className, loader);
      if reply == None { return false; }
      while reply.value == AUX
        invariant reply != None
        invariant start == Reading(if reply.value == AUX then AwaitAuxName else AwaitInitMarker, className, loader)
        decreases |inbox|
      {
        ok := LoadAuxiliaryClass(className, loader);
        if !ok { return; }
        reply := Receive(AwaitAuxMarker, className, loader);
        if reply == None { return false; }
      }
      return true;
    }

    method KeepInterceptor(name: string, code: string, ghost className: string, ghost loader: int)
      modifies this`disk, this`ignoredClasses, this`interceptors
      ensures State(className, loader) == SaveInterceptor(old(State(className, loader)), name, code)
    {
      interceptors := interceptors[name := code];
      ignoredClasses := ignoredClasses + {name};
      SaveClassOnDisk(name, code);
    }

    /** Receive the code of an interceptor seen for the first time; defining it comes next. */
    method StoreInterceptor(name: string, ghost className: string, ghost loader: int) returns (ok: bool)
      modifies this
      ensures ok ==> |inbox| < |old(inbox)|
      ensures ok ==>
        old(Reading(AwaitInterceptorLength(name), className, loader))
          == After((AwaitInitName, DefineInterceptor(State(className, loader), name)), mismatch, inbox)
      ensures !ok ==> Waiting(old(Reading(AwaitInterceptorLength(name), className, loader)))
    {
      var code := ReceiveSized(InterceptorLoad(name), className, loader);
      if code == None { return false; }
      KeepInterceptor(name, code.value, className, loader);
      return true;
    }

    /** Define the interceptor unless this loader has been given it before. */
    method DefineClass(name: string, ghost className: string, loader: int)
      modifies this`loadedInterceptorsPerCl, this`defined
      ensures State(className, loader) == DefineInterceptor(old(State(className, loader)), name)
    {
      var loaded := if loader in loadedInterceptorsPerCl then loadedInterceptorsPerCl[loader] else {};
      if name !in loaded {
        var bytes := if name in interceptors then interceptors[name] else [];
        defined := defined + [Definition(loader, name, bytes, name in ignoredClasses)];
        loadedInterceptorsPerCl := loadedInterceptorsPerCl[loader := loaded + {name}];
      }
    }

    method LoadInterceptor(ghost className: string, loader: int) returns (ok: bool)
      modifies this
      ensures ok ==>
        |inbox| < |old(inbox)|
          && old(Reading(AwaitInterceptorName, className, loader)) == Reading(AwaitInitName, className, loader)
      ensures !ok ==> Waiting(old(Reading(AwaitInterceptorName, className, loader)))
    {
      hide Feed;
      var name := Receive(AwaitInterceptorName, className, loader);
      if name == None { return false; }
      if name.value !in interceptors {
        ok := StoreInterceptor(name.value, className, loader);
        if !ok { return; }
      }
      DefineClass(name.value, className, loader);
      return true;
    }

    method KeepInitializer(className: string, bytes: string, ghost loader: int)
      modifies this`initializers
      ensures State(className, loader) == SaveInitializer(old(State(className, loader)), bytes)
    {
      var withDots := ToDots(className);
      var earlier := if withDots in initializers then initializers[withDots] else [];
      initializers := initializers[withDots := earlier + [bytes]];
    }

    /** One initializer after its interceptor. */
    method LoadInitializer(className: string, ghost loader: int) returns (ok: bool)
      modifies this
      ensures ok ==>
        |inbox| < |old(inbox)|
          && old(Reading(AwaitInitName, className, loader)) == Reading(AwaitInitMarker, className, loader)
      ensures !ok ==> Waiting(old(Reading(AwaitInitName, className, loader)))
    {
      hide Feed;
      var name := Receive(AwaitInitName, className, loader);
      if name == None { return false; }
      var code := ReceiveSized(ObjectLoad, className, loader);
      if code == None { return false; }
      KeepInitializer(className, code.value, loader);
      return true;
    }

    method LoadInitializers(className: string, loader: int) returns (ok: bool)
      modifies this
      ensures ok ==> old(Reading(AwaitInitMarker, className, loader)) == Reading(AwaitVerdict, className, loader)
      ensures !ok ==> Waiting(old(Reading(AwaitInitMarker, className, loader)))
    {
      hide Feed;
      ghost var start := Reading(AwaitInitMarker, className, loader);
      var reply := Receive(AwaitInitMarker, className, loader);
      if reply == None { return false; }
      while reply.value == INIT
        invariant reply != None
        invariant start
          == Reading(if reply.value == INIT then AwaitInterceptorName else AwaitVerdict, className, loader)
        decreases |inbox|
      {
        ok := LoadInterceptor(className, loader);
        if !ok { return; }
        ok := LoadInitializer(className, loader);
        if !ok { return; }
        reply := Receive(AwaitInitMarker, className, loader);
        if reply == None { return false; }
      }
      return true;
    }

    method ReceiveCode(className: string, ghost loader: int) returns (ok: bool, code: Option<string>)
      modifies this
      ensures ok ==> old(Reading(AwaitCodeLength, className, loader)) == Reading(Idle, className, loader)
      ensures ok ==> ToDots(className) in results && results[ToDots(className)] == code
      ensures !ok ==> Waiting(old(Reading(AwaitCodeLength, className, loader)))
    {
      ghost var st := State(className, loader);
      code := ReceiveSized(CodeLoad, className, loader);
      if code == None { return false, None; }
      SaveClassOnDisk(className, code.value);
      results := results[ToDots(className) := code];
      assert State(className, loader) == SaveResult(st, code);
      ok := true;
    }

    method ReceiveVerdict(className: string, ghost loader: int) returns (ok: bool, code: Option<string>)
      modifies this
      ensures ok ==> old(Reading(AwaitVerdict, className, loader)) == Reading(Idle, className, loader)
      ensures ok ==> ToDots(className) in results && results[ToDots(className)] == code
      ensures !ok ==> (Waiting(old(Reading(AwaitVerdict, className, loader)))
                       || old(Reading(AwaitVerdict, className, loader)) == Reading(Failed, className, loader))
    {
      hide Feed, Conversation.Receive, Waiting;
      ghost var st, start := State(className, loader), Reading(AwaitVerdict, className, loader);
      code := None;
      var reply := Receive(AwaitVerdict, className, loader);
      if reply == None { return false, None; }
      VerdictIsReceived(st, reply.value);
      if reply.value == YES_INSTRUMENT {
        assert start == Reading(AwaitCodeLength, className, loader);
        ok, code := ReceiveCode(className, loader);
      } else if reply.value == NO_INSTRUMENT {
        results := results[ToDots(className) := None];
        assert State(className, loader) == SaveResult(st, None);
        ok := true;
      } else {
        ok := false;
        assert start == Reading(Failed, className, loader);
      }
    }

    /** From the class name sent to the end of the request. `code` is the byte array handed to the virtual
        machine; None with `ok` means that the class stays as it is. `ok` is false when the call waits for
        ever, and when it throws because of an unexpected verdict. */
    method Instrument(className: string, loader: int) returns (ok: bool, code: Option<string>)
      modifies this
      ensures ok ==> old(Reading(AwaitAuxMarker, className, loader)) == Reading(Idle, className, loader)
      ensures ok ==> ToDots(className) in results && results[ToDots(className)] == code
      ensures !ok ==> (Waiting(old(Reading(AwaitAuxMarker, className, loader)))
                       || old(Reading(AwaitAuxMarker, className, loader)) == Reading(Failed, className, loader))
    {
      code := None;
      ok := LoadAuxiliaryClasses(className, loader);
      if !ok { return; }
      ok := LoadInitializers(className, loader);
      if !ok { return; }
      ok, code := ReceiveVerdict(className, loader);
    }

    /** The answer to whether the server has a class; None when the call waits for ever. */
    method ReceiveAnswer(name: string, ghost className: string, ghost loader: int) returns (yes: Option<bool>)
      modifies this
      ensures yes == None ==> Waiting(old(Reading(AwaitAnswer(name), className, loader)))
      ensures yes.Some? ==> old(Reading(AwaitAnswer(name), className, loader)) == Reading(Idle, className, loader)
      ensures yes.Some? ==> instrumentorClassesCache == old(instrumentorClassesCache) + if yes.value then {name} else {}
    {
      hide Feed, Conversation.Receive, Waiting, Fits;
      ghost var st := State(className, loader);
      var reply := Receive(AwaitAnswer(name), className, loader);
      if reply == None { return None; }
      AnswerIsReceived(name, st, reply.value);
      answer := reply.value == YES;
      if answer {
        instrumentorClassesCache := instrumentorClassesCache + {name};
        assert State(className, loader) == SaveAnswer(st, name, true);
        return Some(true);
      }
      assert State(className, loader) == SaveAnswer(st, name, false);
      yes := Some(false);
    }

    /** One helper class of those still to come. */
    method LoadPrepClass(left: nat, ghost className: string, ghost loader: int) returns (ok: bool)
      requires left > 0
      modifies this
      ensures ok ==> old(Reading(NextPrep(left), className, loader)) == Reading(NextPrep(left - 1), className, loader)
      ensures !ok ==> Waiting(old(Reading(NextPrep(left), className, loader)))
    {
      hide Feed, Conversation.Receive, Waiting, Fits, NextPrep, AfterBytes, Loaded, AtLength;
      ghost var st, start := State(className, loader), Reading(AwaitPrepName(left), className, loader);
      PrepPlaces(left);
      var name := Receive(AwaitPrepName(left), className, loader);
      if name == None { return false; }
      PrepNameIsReceived(left, st, name.value);
      assert start == Reading(AtLength(PrepLoad(left, name.value)), className, loader);
      var code := ReceiveSized(PrepLoad(left, name.value), className, loader);
      if code == None { return false; }
      ignoredClasses := ignoredClasses + {name.value};
      SaveClassOnDisk(name.value, code.value);
      assert State(className, loader) == SaveClass(st, (name.value, code.value));
      return true;
    }

    /** The helper classes, as many as the server announces. */
    method LoadPrepClasses(ghost className: string, ghost loader: int) returns (ok: bool)
      modifies this
      ensures ok ==> old(Reading(AwaitPrepCount, className, loader)) == Reading(Idle, className, loader)
      ensures !ok ==> Waiting(old(Reading(AwaitPrepCount, className, loader)))
    {
      hide Feed;
      ghost var start := Reading(AwaitPrepCount, className, loader);
      var count := Receive(AwaitPrepCount, className, loader);
      if count == None { return false; }
      var numOfClasses := Atoi(count.value);
      for i := 0 to numOfClasses
        invariant start == Reading(NextPrep(numOfClasses - i), className, loader)
      {
        ok := LoadPrepClass(numOfClasses - i, className, loader);
        if !ok { return; }
      }
      return true;
    }
  }
}
