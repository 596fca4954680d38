/** Whole runs of the conversation: when they stay in lock step, how many steps a request takes, and that
    nothing is left in the channels when one ends. */
module ConversationRuns {
  import opened Conversation
  import opened Wrappers

  // Which runs come to rest

  /** No class is asked for twice, and the code of the interceptors of each is known. */
  predicate AllInstrumentable(env: Env, asked: seq<string>) {
    forall i :: 0 <= i < |asked| ==> asked[i] !in asked[..i] && CodeKnown(env, asked[i])
  }

  function Elements(names: seq<string>): set<string> {
    set i | 0 <= i < |names| :: names[i]
  }

  /** The classes whose names have been sent, if that of the last one is pending. */
  function SentNames(a: Agent, asked: seq<string>): seq<string> {
    if Pending(a) && asked != [] then asked[..|asked| - 1] else asked
  }

  /** The two sides are in step, the server could instrument every class that was sent, and has done so. */
  ghost predicate OnCourse(env: Env, s: Sys) {
    Aligned(env, s)
    && var (a, store, sent) :=
         (Settle(env, s).agent.value, Settle(env, s).server.store, SentNames(Settle(env, s).agent.value, s.asked));
    && (Pending(a) ==> s.asked != [] && s.asked[|s.asked| - 1] == PendingName(a))
    && AllInstrumentable(env, sent) && store.byteCodeCache.Keys == Elements(sent)
  }

  /** The agent waits for ever, for the rest of a reply that the server does not go on with. */
  ghost predicate Doomed(env: Env, s: Sys) {
    var t := Settle(env, s);
    && t.agent.Some? && AgentReads(t.agent.value.pc) && t.left == []
    && !AllInstrumentable(env, s.asked)
  }

  ghost predicate Inv(env: Env, s: Sys) {
    OnCourse(env, s) || Doomed(env, s)
  }

  lemma OneMoreAsked(env: Env, s: ServerStore, asked: seq<string>, name: string)
    requires s.byteCodeCache.Keys == Elements(asked)
    ensures AllInstrumentable(env, asked + [name]) <==> AllInstrumentable(env, asked) && Instrumentable(env, s, name)
    ensures Elements(asked + [name]) == Elements(asked) + {name}
  {
    hide CodeKnown;
    var more := asked + [name];
    assert forall i :: 0 <= i < |asked| ==> more[i] == asked[i] && more[..i] == asked[..i];
    assert more[|asked|] == name && more[..|asked|] == asked;
    assert name in asked <==> name in Elements(asked);
  }

  predicate CanMove(s: Sys) {
    CanStep(s, AgentSends) || CanStep(s, AgentTakes) || CanStep(s, ServerSends) || CanStep(s, ServerTakes)
  }

  lemma DoomedAgentReads(env: Env, s: Sys)
    requires Doomed(env, s)
    ensures AgentReads(s.agent.pc)
  {
    if !AgentReads(s.agent.pc) { NothingUnderWay(env, s); }
  }

  /** While the agent is not sending the name of a class, everything asked for has been sent. */
  lemma NonePending(env: Env, s: Sys)
    requires OnCourse(env, s) && !AgentReads(s.agent.pc) && !Pending(s.agent)
    ensures AllInstrumentable(env, s.asked) && Settle(env, s).server.store.byteCodeCache.Keys == Elements(s.asked)
  {
    hide CodeKnown;
    NothingUnderWay(env, s);
  }

  lemma BeginKeepsInv(env: Env, s: Sys, req: Request)
    requires Inv(env, s) && CanStep(s, Begin(req))
    ensures Inv(env, Do(env, s, Begin(req)))
  {
    hide Aligned, CodeKnown, Settle, AllInstrumentable, Elements;
    if Doomed(env, s) { DoomedAgentReads(env, s); }
    NonePending(env, s);
    BeginKeepsAligned(env, s, req);
    assert req.Instrument? ==> (s.asked + [ToDots(req.name)])[..|s.asked|] == s.asked;
  }

  lemma AlignedSettles(env: Env, s: Sys)
    ensures Aligned(env, s) ==> Settle(env, s).agent.Some?
  {
  }

  lemma PendingIsLast(env: Env, s: Sys)
    requires OnCourse(env, s) && Pending(s.agent)
    ensures var (store, name) := (Settle(env, s).server.store, PendingName(s.agent));
      && (AllInstrumentable(env, s.asked) <==> Instrumentable(env, store, name))
      && Elements(s.asked) == store.byteCodeCache.Keys + {name}
  {
    hide CodeKnown, Instrumentable;
    NothingUnderWay(env, s);
    var sent := s.asked[..|s.asked| - 1];
    OneMoreAsked(env, Settle(env, s).server.store, sent, PendingName(s.agent));
    assert sent + [PendingName(s.agent)] == s.asked;
  }

  /** Sending the name of a class that the server cannot instrument. */
  lemma SendNameDooms(env: Env, s: Sys)
    requires OnCourse(env, s) && Pending(s.agent)
    requires !Instrumentable(env, Settle(env, s).server.store, PendingName(s.agent))
    ensures Doomed(env, Do(env, s, AgentSends))
  {
    hide CodeKnown, HandleInstrument, AllInstrumentable, Elements;
    PendingIsLast(env, s);
    NothingUnderWay(env, s);
    var srv, b, dots := Settle(env, s).server, AfterSend(s.agent), PendingName(s.agent);
    MoreIgnoredAgrees(env, s.agent.store, b.store, srv.store.sentInterceptors);
    if dots in srv.store.byteCodeCache {
      RepeatedReplyBlocks(env, false, b.store, srv.store, dots);
    } else {
      UnknownReplyBlocks(env, false, b.store, srv.store, dots);
    }
    var m := NextSend(s.agent.pc);
    DrainAppend(env, s.server, s.toServer, m);
    var r := ServerReceive(env, srv, m);
    assert r == HandleInstrument(env, srv.store, dots);
    assert s.toAgent + ([] + r.outbox) == r.outbox;
  }

  lemma SendKeepsInv(env: Env, s: Sys)
    requires Inv(env, s) && CanStep(s, AgentSends)
    ensures Inv(env, Do(env, s, AgentSends))
  {
    hide CodeKnown, Settle, Aligned, AllInstrumentable, Elements, Instrumentable;
    if Doomed(env, s) { DoomedAgentReads(env, s); }
    if Pending(s.agent) {
      PendingIsLast(env, s);
      if Instrumentable(env, Settle(env, s).server.store, PendingName(s.agent)) {
        SendNameOfInstrument(env, s);
      } else {
        SendNameDooms(env, s);
      }
    } else {
      NonePending(env, s);
      if s.agent.pc.req.CheckHas? { SendNameOfCheck(env, s); } else { SendOfRegister(env, s); }
    }
  }

  lemma StepKeepsInv(env: Env, s: Sys, step: Step)
    requires Inv(env, s) && CanStep(s, step)
    ensures Inv(env, Do(env, s, step))
  {
    hide AllInstrumentable, Elements, Settle, InStep;
    match step {
      case Begin(req) => BeginKeepsInv(env, s, req);
      case AgentSends => SendKeepsInv(env, s);
      case AgentTakes => AgentTakesKeepsSettled(env, s);
      case ServerSends => ServerSendsKeepsSettled(env, s);
      case ServerTakes => ServerTakesKeepsSettled(env, s);
    }
  }

  lemma StartInv(env: Env)
    ensures Inv(env, Start())
  {
    StartAligned(env);
  }

  lemma {:induction false} RunKeepsInv(env: Env, steps: seq<Step>)
    requires DoAll(env, steps).Some?
    ensures Inv(env, DoAll(env, steps).value)
  {
    hide Inv;
    if steps == [] {
      StartInv(env);
    } else {
      var last := |steps| - 1;
      RunKeepsInv(env, steps[..last]);
      StepKeepsInv(env, DoAll(env, steps[..last]).value, steps[last]);
    }
  }

  /** Every run that asks for no class twice, and only for classes whose interceptors have known code: both
      sides stay aligned. */
  lemma RunKeepsAligned(env: Env, steps: seq<Step>)
    requires DoAll(env, steps).Some? && AllInstrumentable(env, DoAll(env, steps).value.asked)
    ensures Aligned(env, DoAll(env, steps).value)
  {
    hide Aligned, AllInstrumentable;
    RunKeepsInv(env, steps);
  }

  /** Every such run: no message was ever taken for something it is not, the agent never failed and the
      server never threw; while a request is under way some process can move; and once nothing is under way
      the caches of the two sides agree. */
  lemma RunsStayInLockStep(env: Env, steps: seq<Step>)
    requires DoAll(env, steps).Some? && AllInstrumentable(env, DoAll(env, steps).value.asked)
    ensures var s := DoAll(env, steps).value;
      && !s.agent.mismatch && !s.agent.pc.Failed? && !s.server.pc.Crashed?
      && (Quiet(s) || CanMove(s))
      && (Quiet(s) ==> Agree(env, s.agent.store, s.server.store) && (s.agent.pc.Ended? <==> s.server.pc.Stopped?))
  {
    hide Aligned, AllInstrumentable;
    RunKeepsAligned(env, steps);
    var s := DoAll(env, steps).value;
    AlignedSidesAreSound(env, s);
    AlignedSidesCanMove(env, s);
    if Quiet(s) { QuietSidesAgree(env, s); }
  }

  /** Every run at all that has come to a point where neither side can move: all requests have ended and
      nothing is under way exactly if no class was asked for twice and the code of the interceptors of each
      was known. */
  lemma RestsExactlyWhenInstrumentable(env: Env, steps: seq<Step>)
    requires DoAll(env, steps).Some? && !CanMove(DoAll(env, steps).value)
    ensures Quiet(DoAll(env, steps).value) <==> AllInstrumentable(env, DoAll(env, steps).value.asked)
  {
    hide Aligned, AllInstrumentable, Settle;
    RunKeepsInv(env, steps);
    var s := DoAll(env, steps).value;
    if Doomed(env, s) {
      DoomedAgentReads(env, s);
    } else {
      AlignedSidesCanMove(env, s);
      NonePending(env, s);
    }
  }

  /** What the agreement of the caches says between two requests: the agent's interceptors are those the server
      has sent, with the server's bytes; a class loader is recorded to have exactly those it was given, each
      with the server's bytes, when it was on the ignored list, and not twice; the agent believes the server to
      have only what it has; and what an instrument request ended with is what the server has cached. */
  lemma CachesAgreeBetweenRequests(env: Env, steps: seq<Step>)
    requires DoAll(env, steps).Some? && Quiet(DoAll(env, steps).value)
    ensures var (a, s) := (DoAll(env, steps).value.agent.store, DoAll(env, steps).value.server.store);
      && (forall n :: n in a.interceptors <==> n in s.sentInterceptors)
      && (forall n :: n in a.interceptors ==> n in env.interceptorCode && a.interceptors[n] == env.interceptorCode[n])
      && (forall loader, n :: n in LoadedBy(a, loader) <==> IsDefined(a, loader, n))
      && (forall i :: 0 <= i < |a.defined| ==>
            var d := a.defined[i];
            d.wasIgnored && d.interceptor in env.interceptorCode && d.code == env.interceptorCode[d.interceptor])
      && (forall i, j :: 0 <= i < j < |a.defined| ==>
              (a.defined[i].loader, a.defined[i].interceptor) != (a.defined[j].loader, a.defined[j].interceptor))
      && (forall n :: n in a.known ==> HasClass(env, s, ToDots(n)))
      && a.results == s.byteCodeCache
  {
    hide Aligned, AllInstrumentable;
    var s := DoAll(env, steps).value;
    RunKeepsInv(env, steps);
    if Doomed(env, s) { DoomedAgentReads(env, s); }
    QuietSidesAgree(env, s);
  }

  // Every request comes to an end

  /** The steps that the sends of the settled agent still take, with the server's work on them and the
      messages back. */
  function RequestLeft(env: Env, a: Agent, store: ServerStore): nat {
    if a.pc.SendName? then
      match a.pc.req
      case Instrument(name, _) => 2 + 2 * |HandleInstrument(env, store, ToDots(name)).outbox|
      case _ => 4
    else if a.pc.SendCode? then 2
    else 0
  }

  /** The steps until both sides rest, if no other request is begun. */
  function StepsLeft(env: Env, s: Sys): nat {
    var t := Settle(env, s);
    |s.toServer| + 2 * |t.out| + |s.toAgent| + match t.agent case None => 0 case Some(a) =>
      RequestLeft(env, a, t.server.store)
  }

  lemma SentRequestLeft(env: Env, s: Sys)
    requires OnCourse(env, s) && CanStep(s, AgentSends) && Settle(env, s).agent == Some(s.agent)
    ensures var a := Settle(env, Do(env, s, AgentSends)).agent;
      && a.Some? && !a.value.pc.SendName?
      && (a.value.pc.SendCode? <==> s.agent.pc.SendName? && s.agent.pc.req.Register?)
  {
    hide Instrumentable, Settle, Aligned, AllInstrumentable;
    AlignedSettles(env, Do(env, s, AgentSends));
    match s.agent.pc.req {
      case Instrument(_, _) =>
        if Instrumentable(env, Settle(env, s).server.store, PendingName(s.agent)) {
          SendNameOfInstrument(env, s);
        } else {
          SendNameDooms(env, s);
        }
      case CheckHas(_) => SendNameOfCheck(env, s);
      case _ => SendOfRegister(env, s);
    }
  }

  lemma SendLeavesOneLess(env: Env, s: Sys)
    requires Inv(env, s) && CanStep(s, AgentSends)
    ensures StepsLeft(env, Do(env, s, AgentSends)) == StepsLeft(env, s) - 1
  {
    hide AllInstrumentable, HandleInstrument;
    if Doomed(env, s) { DoomedAgentReads(env, s); }
    NothingUnderWay(env, s);
    var m, s' := NextSend(s.agent.pc), Do(env, s, AgentSends);
    DrainAppend(env, s.server, s.toServer, m);
    var r := ServerReceive(env, Settle(env, s).server, m);
    assert s'.toAgent + ([] + r.outbox) == r.outbox;
    SendKeepsInv(env, s);
    SentRequestLeft(env, s);
  }

  /** Whichever side moves, in whatever order: every step but the beginning of a request leaves exactly one
      step less to do. */
  lemma EveryStepLeavesOneLess(env: Env, s: Sys, step: Step)
    requires Inv(env, s) && CanStep(s, step) && !step.Begin?
    ensures StepsLeft(env, Do(env, s, step)) == StepsLeft(env, s) - 1
  {
    hide Settle, Inv;
    match step {
      case AgentSends => SendLeavesOneLess(env, s);
      case AgentTakes => AgentTakesKeepsSettled(env, s);
      case ServerSends => ServerSendsKeepsSettled(env, s);
      case ServerTakes => ServerTakesKeepsSettled(env, s);
    }
  }

  /** Nothing is left to do exactly when neither side can move. */
  lemma DoneWhenNobodyMoves(env: Env, s: Sys)
    requires Inv(env, s)
    ensures StepsLeft(env, s) == 0 <==> !CanMove(s)
  {
    if CanMove(s) {
      var step :| CanStep(s, step) && !step.Begin?;
      EveryStepLeavesOneLess(env, s, step);
    } else if OnCourse(env, s) {
      AlignedSidesCanMove(env, s);
      NothingUnderWay(env, s);
    } else {
      DoomedAgentReads(env, s);
    }
  }

  lemma {:induction false} RunHasPrefix(env: Env, steps: seq<Step>, early: nat)
    requires DoAll(env, steps).Some? && early <= |steps|
    ensures DoAll(env, steps[..early]).Some?
  {
    if early == |steps| {
      assert steps[..early] == steps;
    } else {
      var last := |steps| - 1;
      RunHasPrefix(env, steps[..last], early);
      assert steps[..last][..early] == steps[..early];
    }
  }

  /** Every run in which no request is begun any more after the first `early` steps: from then on it takes
      exactly as many steps as there were to do, less those still to do. So it never takes more, and it has
      come to rest when it has taken as many. */
  lemma {:induction false} RequestsEnd(env: Env, steps: seq<Step>, early: nat)
    requires DoAll(env, steps).Some? && early <= |steps| && forall i :: early <= i < |steps| ==> !steps[i].Begin?
    ensures DoAll(env, steps[..early]).Some?
    ensures var (first, end) := (DoAll(env, steps[..early]).value, DoAll(env, steps).value);
      && |steps| - early == StepsLeft(env, first) - StepsLeft(env, end)
      && (|steps| - early == StepsLeft(env, first) <==> !CanMove(end))
  {
    hide StepsLeft, Inv, CanMove, CanStep, Do;
    RunHasPrefix(env, steps, early);
    RunKeepsInv(env, steps);
    DoneWhenNobodyMoves(env, DoAll(env, steps).value);
    if early == |steps| {
      assert steps[..early] == steps;
    } else {
      var last := |steps| - 1;
      assert steps[..last][..early] == steps[..early];
      RequestsEnd(env, steps[..last], early);
      RunKeepsInv(env, steps[..last]);
      EveryStepLeavesOneLess(env, DoAll(env, steps[..last]).value, steps[last]);
    }
  }

  // Nothing is left in the channels

  /** The request that was begun last. */
  function Latest(steps: seq<Step>): Option<Request> {
    if steps == [] then None
    else if steps[|steps| - 1].Begin? then Some(steps[|steps| - 1].req)
    else Latest(steps[..|steps| - 1])
  }

  /** The request that the agent is still sending. */
  function InHand(pc: AgentPc): Option<Request> {
    if pc.AwaitAck? || pc.SendName? || pc.SendCode? then Some(pc.req) else None
  }

  /** While the agent waits, only the last message to the server will be answered, and no answer is under way
      before the server has taken it. */
  ghost predicate LastIsAnswered(env: Env, s: Sys)
    requires s.toServer != []
  {
    && s.toAgent == [] && s.server.outbox == []
    && Drain(env, s.server, s.toServer[..|s.toServer| - 1]).1 == []
  }

  ghost predicate Ordered(env: Env, s: Sys, latest: Option<Request>) {
    && (AgentReads(s.agent.pc) && s.toServer != [] ==> LastIsAnswered(env, s))
    && (InHand(s.agent.pc).Some? ==> latest == InHand(s.agent.pc))
    && (s.agent.pc.Idle? && s.toServer != [] ==> latest.Some? && latest.value.Register?)
  }

  lemma OutboxIsSent(env: Env, s: Server, ms: seq<Msg>)
    ensures s.outbox <= Drain(env, s, ms).1
  {
  }

  lemma SendKeepsOrdered(env: Env, s: Sys, step: Step, latest: Option<Request>)
    requires Inv(env, s) && CanStep(s, step) && (step.Begin? || step.AgentSends?) && Ordered(env, s, latest)
    ensures Ordered(env, Do(env, s, step), if step.Begin? then Some(step.req) else latest)
  {
    hide AllInstrumentable;
    if Doomed(env, s) { DoomedAgentReads(env, s); }
    NothingUnderWay(env, s);
    OutboxIsSent(env, s.server, s.toServer);
    var s' := Do(env, s, step);
    assert s'.toServer[..|s'.toServer| - 1] == s.toServer;
  }

  lemma TakeKeepsOrdered(env: Env, s: Sys, latest: Option<Request>)
    requires CanStep(s, ServerTakes) && Ordered(env, s, latest)
    ensures Ordered(env, Do(env, s, ServerTakes), latest)
  {
    var s' := Do(env, s, ServerTakes);
    if AgentReads(s.agent.pc) && s'.toServer != [] {
      var front := s.toServer[..|s.toServer| - 1];
      assert front[1..] == s'.toServer[..|s'.toServer| - 1];
      OutboxIsSent(env, s'.server, front[1..]);
    }
  }

  lemma StepKeepsOrdered(env: Env, s: Sys, step: Step, latest: Option<Request>)
    requires Inv(env, s) && CanStep(s, step) && Ordered(env, s, latest)
    ensures Ordered(env, Do(env, s, step), if step.Begin? then Some(step.req) else latest)
  {
    hide Inv;
    match step {
      case ServerTakes => TakeKeepsOrdered(env, s, latest);
      case AgentTakes =>
      case ServerSends =>
      case _ => SendKeepsOrdered(env, s, step, latest);
    }
  }

  lemma StartOrdered(env: Env)
    ensures Ordered(env, Start(), None)
  {
  }

  lemma {:induction false} RunKeepsOrdered(env: Env, steps: seq<Step>)
    requires DoAll(env, steps).Some?
    ensures Ordered(env, DoAll(env, steps).value, Latest(steps))
  {
    hide Ordered;
    if steps == [] {
      StartOrdered(env);
    } else {
      var last := |steps| - 1;
      RunKeepsOrdered(env, steps[..last]);
      RunKeepsInv(env, steps[..last]);
      StepKeepsOrdered(env, DoAll(env, steps[..last]).value, steps[last], Latest(steps[..last]));
    }
  }

  /** Every run: when the agent has ended a request other than one to register a class, which is not
      answered, both channels are empty and the server has nothing left to send. */
  lemma ChannelsAreEmptyAfterRequest(env: Env, steps: seq<Step>)
    requires DoAll(env, steps).Some? && DoAll(env, steps).value.agent.pc.Idle?
    requires Latest(steps).Some? ==> !Latest(steps).value.Register?
    ensures Quiet(DoAll(env, steps).value)
  {
    var s := DoAll(env, steps).value;
    RunKeepsInv(env, steps);
    RunKeepsOrdered(env, steps);
    if Doomed(env, s) { DoomedAgentReads(env, s); }
    NothingUnderWay(env, s);
    OutboxIsSent(env, s.server, s.toServer);
  }
}
