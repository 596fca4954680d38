/** What each request of the agent comes to on both sides, in every run: the agent, the server and the channels
    may move in any order in between. */
module RequestEffects {
  import opened Conversation
  import opened ConversationRuns
  import opened Wrappers

  /** The stores of the two sides after a request, in terms of those before. */
  ghost predicate Effect(env: Env, req: Request, a: Store, s: ServerStore, a': Store, s': ServerStore) {
    match req
    case Instrument(name, loader) =>
      var (dots, call) := (ToDots(name), a.(className := name, loader := loader));
      && CodeKnown(env, dots) && dots !in s.byteCodeCache && s'.registered == s.registered
      && (match env.transform(dots)
          case Ignored =>
            a' == call.(results := a.results[dots := None]) && s'.byteCodeCache == s.byteCodeCache[dots := None]
          case Transformed(aux, initializers, code) =>
            Delivered(env, call, aux, Leaves(initializers), code, a')
            && s'.byteCodeCache == s.byteCodeCache[dots := Some(code)])
    case CheckHas(name) =>
      var has := ToDots(name) in s.byteCodeCache || ToDots(name) in s.registered || ToDots(name) in env.loadable;
      s' == s && a' == a.(answer := has, known := if has then a.known + {name} else a.known)
    case Register(name, code) =>
      && a' == a.(known := a.known + {name})
      && s'.byteCodeCache == s.byteCodeCache && s'.sentInterceptors == s.sentInterceptors
      && s'.registered == if ToDots(name) in s.registered then s.registered else s.registered[ToDots(name) := code]
    case PrepClasses =>
      && s' == s && a' == a.(ignored := a.ignored + NamesOf(env.prep), disk := a'.disk)
      && LastWins(a.disk, env.prep, a'.disk)
    case Stop => a' == a && s' == s
  }

  /** How far a request has come that was begun with the two sides at `a` and `s`, once everything under way has
      arrived: it has not been sent in full yet, it has had its effect, or its reply is never read to its
      end. */
  ghost predicate Underway(env: Env, req: Request, a: Store, s: ServerStore, sys: Sys) {
    var t := Settle(env, sys);
    && t.agent.Some?
    && var (pc, store) := (t.agent.value.pc, t.agent.value.store);
    || ((pc == SendName(req) || pc == SendCode(req)) && store == a && t.server.store == s)
    || ((if req.Stop? then pc.Ended? else pc.Idle?) && Effect(env, req, a, s, store, t.server.store))
    || (req.Instrument? && AgentReads(pc))
  }

  lemma PrepTaken(env: Env, a: Store, s: ServerStore)
    ensures var r := TakeRequest(env, s, OpCodeOf(PrepClasses));
      var fed := Feed(Agent(AwaitAck(PrepClasses), false, a), r.outbox);
      fed.Some? && fed.value.pc.Idle? && Effect(env, PrepClasses, a, s, fed.value.store, r.store)
  {
    hide Feed, PrepMessages, LastWins, NamesOf, AfterClasses;
    PrepIsRead(env, false, a);
    ClassesSaved(a, env.prep);
  }

  lemma AckTaken(env: Env, req: Request, a: Store, s: ServerStore)
    requires !req.PrepClasses?
    ensures var r := TakeRequest(env, s, OpCodeOf(req));
      r.store == s && r.outbox == [ACK]
        && Feed(Agent(AwaitAck(req), false, a), r.outbox) == Some(Agent(AfterAck(req), false, a))
  {
    hide Feed;
    AckIsRead(false, a, req);
  }

  lemma NothingToRead(env: Env, s: Sys)
    requires Aligned(env, s) && !AgentReads(s.agent.pc)
    ensures Settle(env, s).agent == Some(s.agent) && s.toAgent == [] && Settle(env, s).out == []
    ensures Settle(env, s).left == []
  {
    NothingUnderWay(env, s);
  }

  lemma SettledSend(env: Env, s: Sys, s': Sys, m: Msg)
    requires Aligned(env, s) && !AgentReads(s.agent.pc) && ServerReads(Settle(env, s).server.pc)
    requires s'.toServer == s.toServer + [m] && s'.server == s.server && s'.toAgent == s.toAgent
    ensures var r := ServerReceive(env, Settle(env, s).server, m);
      Settle(env, s').agent == Feed(s'.agent, r.outbox) && Settle(env, s').server.store == r.store
  {
    hide ServerReceive, Feed;
    NothingToRead(env, s);
    DrainAppend(env, s.server, s.toServer, m);
    var r := ServerReceive(env, Settle(env, s).server, m);
    assert s'.toAgent + ([] + r.outbox) == r.outbox;
  }

  lemma StopDoesNothing(env: Env, a: Store, s: ServerStore)
    ensures Effect(env, Stop, a, s, a, s)
  {
  }

  lemma IdleSide(env: Env, s: Sys)
    requires Aligned(env, s) && s.agent.pc.Idle?
    ensures Settle(env, s).agent == Some(s.agent) && Settle(env, s).server.pc.AwaitRequest? && !s.agent.mismatch
  {
    NothingUnderWay(env, s);
  }

  lemma BeginIsUnderway(env: Env, s: Sys, req: Request)
    requires Aligned(env, s) && CanStep(s, Begin(req))
    ensures Underway(env, req, s.agent.store, Settle(env, s).server.store, Do(env, s, Begin(req)))
  {
    hide Settle, Feed, TakeRequest, Effect;
    var a, srv := s.agent.store, Settle(env, s).server;
    IdleSide(env, s);
    SettledSend(env, s, Do(env, s, Begin(req)), Msg(OpCode, [OpCodeOf(req)]));
    if req.PrepClasses? {
      PrepTaken(env, a, srv.store);
    } else {
      AckTaken(env, req, a, srv.store);
      assert req.Stop? ==> Effect(env, req, a, srv.store, a, srv.store) by { StopDoesNothing(env, a, srv.store); }
    }
  }

  // The name, and for a registration the code, is sent

  lemma InstrumentHasEffect(env: Env, name: string, loader: int, a: Store, s: ServerStore)
    requires Agree(env, a, s) && Instrumentable(env, s, ToDots(name))
    ensures var call := a.(className := name, loader := loader);
      var r := HandleInstrument(env, s, ToDots(name));
      var fed := Feed(Agent(AwaitAuxMarker, false, call), r.outbox);
      fed.Some? && fed.value.pc.Idle? && Effect(env, Request.Instrument(name, loader), a, s, fed.value.store, r.store)
  {
    hide Feed, Delivered, SameInterceptors, DefinedOnce, TransformedReply;
    var call, dots := a.(className := name, loader := loader), ToDots(name);
    MoreIgnoredAgrees(env, a, call, s.sentInterceptors);
    match env.transform(dots) {
      case Ignored => FeedIgnored(false, call);
      case Transformed(aux, initializers, code) => InstrumentDelivers(env, call, s, aux, initializers, code, dots);
    }
  }

  lemma NotDoomed(env: Env, s: Sys)
    requires Inv(env, s) && !AgentReads(s.agent.pc)
    ensures OnCourse(env, s)
  {
    if Doomed(env, s) { DoomedAgentReads(env, s); }
  }

  /** Before a send the two sides agree, and the server is where the send is expected. */
  lemma AgentInStep(env: Env, s: Sys)
    requires Aligned(env, s) && !AgentReads(s.agent.pc)
    ensures var srv := Settle(env, s).server;
      Matches(s.agent.pc, srv.pc) && !s.agent.mismatch && Agree(env, s.agent.store, srv.store)
  {
    NothingUnderWay(env, s);
  }

  lemma SendOfInstrument(env: Env, s: Sys, req: Request)
    requires Inv(env, s) && Aligned(env, s) && s.agent.pc == SendName(req) && req.Instrument?
    ensures Underway(env, req, s.agent.store, Settle(env, s).server.store, Do(env, s, AgentSends))
  {
    hide Settle, Feed, HandleInstrument, Effect, CodeKnown, Instrumentable, AllInstrumentable;
    NothingToRead(env, s);
    AgentInStep(env, s);
    var srv, a := Settle(env, s).server, s.agent.store;
    SettledSend(env, s, Do(env, s, AgentSends), NextSend(s.agent.pc));
    if Instrumentable(env, srv.store, ToDots(req.name)) {
      InstrumentHasEffect(env, req.name, req.loader, a, srv.store);
    } else {
      NotDoomed(env, s);
      SendNameDooms(env, s);
    }
  }

  lemma CheckHasEffect(env: Env, name: string, a: Store, s: ServerStore)
    ensures var fed := Feed(Agent(AwaitAnswer(name), false, a), [HasClassAnswer(env, s, ToDots(name))]);
      fed.Some? && fed.value.pc.Idle? && Effect(env, CheckHas(name), a, s, fed.value.store, s)
  {
    var m := HasClassAnswer(env, s, ToDots(name));
    assert [m] == [m] + [];
    FeedTo(AwaitAnswer(name), Idle, false, a, SaveAnswer(a, name, HasClass(env, s, ToDots(name))), m, []);
  }

  lemma SendOfCheck(env: Env, s: Sys, req: Request)
    requires Aligned(env, s) && s.agent.pc == SendName(req) && req.CheckHas?
    ensures Underway(env, req, s.agent.store, Settle(env, s).server.store, Do(env, s, AgentSends))
  {
    hide Settle, Feed, HasClassAnswer, Effect;
    NothingToRead(env, s);
    AgentInStep(env, s);
    var srv, a := Settle(env, s).server, s.agent.store;
    SettledSend(env, s, Do(env, s, AgentSends), NextSend(s.agent.pc));
    CheckHasEffect(env, req.name, a, srv.store);
  }

  lemma RegisterHasEffect(env: Env, name: string, code: string, a: Store, s: ServerStore)
    ensures Effect(env, Register(name, code), a, s, a.(known := a.known + {name}),
      RegisterByteCode(s, ToDots(name), code))
  {
  }

  lemma SendOfRegistration(env: Env, s: Sys, req: Request)
    requires Aligned(env, s) && Sending(s.agent.pc) && s.agent.pc.req == req && req.Register?
    ensures Underway(env, req, s.agent.store, Settle(env, s).server.store, Do(env, s, AgentSends))
  {
    hide Settle, Effect, RegisterByteCode;
    NothingToRead(env, s);
    AgentInStep(env, s);
    var srv, a := Settle(env, s).server, s.agent.store;
    var s' := Do(env, s, AgentSends);
    SettledSend(env, s, s', NextSend(s.agent.pc));
    RegisterHasEffect(env, req.name, req.code, a, srv.store);
  }

  lemma SenderIsAligned(env: Env, s: Sys)
    requires Inv(env, s) && Sending(s.agent.pc)
    ensures Aligned(env, s) && Settle(env, s).agent == Some(s.agent)
  {
    NotDoomed(env, s);
    NothingToRead(env, s);
  }

  lemma StepIsUnderway(env: Env, s: Sys, step: Step, req: Request, a: Store, srv: ServerStore)
    requires Inv(env, s) && CanStep(s, step) && !step.Begin? && Underway(env, req, a, srv, s)
    ensures Underway(env, req, a, srv, Do(env, s, step))
  {
    hide Settle, Inv, Effect;
    match step {
      case AgentTakes => AgentTakesKeepsSettled(env, s);
      case ServerSends => ServerSendsKeepsSettled(env, s);
      case ServerTakes => ServerTakesKeepsSettled(env, s);
      case AgentSends =>
        SenderIsAligned(env, s);
        match s.agent.pc.req {
          case Instrument(_, _) => SendOfInstrument(env, s, req);
          case CheckHas(_) => SendOfCheck(env, s, req);
          case _ => SendOfRegistration(env, s, req);
        }
    }
  }

  lemma IdleIsAligned(env: Env, s: Sys, req: Request)
    requires Inv(env, s) && CanStep(s, Begin(req))
    ensures Aligned(env, s)
  {
    NotDoomed(env, s);
  }

  lemma {:induction false} RequestIsUnderway(env: Env, steps: seq<Step>, early: nat)
    requires DoAll(env, steps).Some? && early < |steps| && steps[early].Begin?
    requires forall i :: early < i < |steps| ==> !steps[i].Begin?
    ensures DoAll(env, steps[..early]).Some?
    ensures var (first, end) := (DoAll(env, steps[..early]).value, DoAll(env, steps).value);
      Underway(env, steps[early].req, first.agent.store, Settle(env, first).server.store, end)
    decreases |steps|
  {
    hide Underway, Inv, Settle, Do, CanStep;
    RunHasPrefix(env, steps, early);
    var last := |steps| - 1;
    var first, s := DoAll(env, steps[..early]).value, DoAll(env, steps[..last]).value;
    RunKeepsInv(env, steps[..last]);
    if early == last {
      IdleIsAligned(env, s, steps[last].req);
      BeginIsUnderway(env, s, steps[last].req);
    } else {
      assert steps[..last][..early] == steps[..early];
      RequestIsUnderway(env, steps[..last], early);
      StepIsUnderway(env, s, steps[last], steps[early].req, first.agent.store, Settle(env, first).server.store);
    }
  }

  lemma QuietIsSettled(env: Env, s: Sys)
    requires Quiet(s)
    ensures Settle(env, s).server.store == s.server.store
  {
    assert Drain(env, s.server, []) == (s.server, [], []);
  }

  /** Every run, a request begun with step `early` and none after it: once the agent has come to its end, the
      request has had its effect on the agent, and on the server as soon as that has read what it was sent,
      which it has when nothing is under way any more. */
  lemma RequestsTakeEffect(env: Env, steps: seq<Step>, early: nat)
    requires DoAll(env, steps).Some? && early < |steps| && steps[early].Begin?
    requires forall i :: early < i < |steps| ==> !steps[i].Begin?
    requires var s := DoAll(env, steps).value; s.agent.pc.Idle? || s.agent.pc.Ended?
    ensures DoAll(env, steps[..early]).Some?
    ensures var (first, end, req) := (DoAll(env, steps[..early]).value, DoAll(env, steps).value, steps[early].req);
      && (end.agent.pc.Ended? <==> req.Stop?)
      && Effect(env, req, first.agent.store, Settle(env, first).server.store, end.agent.store,
        Settle(env, end).server.store)
      && (Quiet(first) ==> Settle(env, first).server.store == first.server.store)
      && (Quiet(end) ==> Settle(env, end).server.store == end.server.store)
  {
    hide Effect, Inv, Settle;
    RequestIsUnderway(env, steps, early);
    RunKeepsInv(env, steps);
    var first, end := DoAll(env, steps[..early]).value, DoAll(env, steps).value;
    NotDoomed(env, end);
    NothingToRead(env, end);
    if Quiet(first) { QuietIsSettled(env, first); }
    if Quiet(end) { QuietIsSettled(env, end); }
  }
}
