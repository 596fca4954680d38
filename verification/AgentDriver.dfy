/** The callback that runs for every class file the virtual machine loads: it decides whether the class
    matters, makes sure that the server has it and what it refers to, and asks for its instrumentation. */
module AgentDriver {
  import opened Wrappers
  import opened Conversation
  import opened Dependencies

  const IGNORED_LOADERS: set<string> := {"@Bootstrap", "sun.reflect.DelegatingClassLoader"}

  /** `name` is the class name found in the class file; `loader` the hash that stands for the class loader. */
  datatype LoadEvent = LoadEvent(name: string, loaderName: string, loader: int, code: string)

  predicate ShouldContinue(ignored: set<string>, e: LoadEvent) {
    e.loaderName !in IGNORED_LOADERS && e.name !in ignored
  }

  /** The reading of the reply to an instrument request. */
  function Asked(env: Env, st: Store, s: ServerStore, e: LoadEvent): Option<Agent> {
    Feed(Agent(AwaitAuxMarker, false, st.(className := e.name, loader := e.loader)),
      HandleInstrument(env, s, ToDots(e.name)).outbox)
  }

  /** The reply is read to its end. */
  predicate Finishes(env: Env, st: Store, s: ServerStore, e: LoadEvent) {
    Asked(env, st, s, e).Some? && Asked(env, st, s, e).value.pc.Idle?
  }

  lemma CallAgrees(env: Env, st: Store, s: ServerStore, e: LoadEvent)
    requires Agree(env, st, s)
    ensures Agree(env, st.(className := e.name, loader := e.loader), s)
  {
    MoreIgnoredAgrees(env, st, st.(className := e.name, loader := e.loader), s.sentInterceptors);
  }

  lemma InstrumentedIsCached(env: Env, s: ServerStore, dots: string)
    requires Instrumentable(env, s, dots)
    ensures var r := HandleInstrument(env, s, dots).store;
      r.byteCodeCache.Keys == s.byteCodeCache.Keys + {dots} && r.registered == s.registered
  {
  }

  lemma AskedFinishesIffNew(env: Env, st: Store, s: ServerStore, e: LoadEvent)
    requires Agree(env, st, s)
    ensures Finishes(env, st, s, e) <==> Instrumentable(env, s, ToDots(e.name))
    ensures Finishes(env, st, s, e) ==>
      var (dots, r) := (ToDots(e.name), HandleInstrument(env, s, ToDots(e.name)).store);
      Agree(env, Asked(env, st, s, e).value.store, r) && r.byteCodeCache.Keys == s.byteCodeCache.Keys + {dots}
        && r.registered == s.registered
  {
    hide HandleInstrument, Feed, ToDots, CodeKnown, Agree;
    var called := st.(className := e.name, loader := e.loader);
    CallAgrees(env, st, s, e);
    InstrumentFinishesIffNew(env, called, s, ToDots(e.name));
    if Instrumentable(env, s, ToDots(e.name)) {
      FirstReplyIsRead(env, called, s, ToDots(e.name));
      InstrumentedIsCached(env, s, ToDots(e.name));
    }
  }

  lemma GrowingAgrees(env: Env, st: Store, s: ServerStore, t: ServerStore)
    requires Agree(env, st, s) && Grows(s, t)
    ensures Agree(env, st, t)
  {
  }

  /** The server before the class is asked for: it has the class, and if it did not have it, everything that
      the class refers to has been sent as well; `names` are the classes sent for that. */
  ghost predicate IsPrepared(w: World, s: ServerStore, t: ServerStore, e: LoadEvent, names: seq<string>) {
    if HasClass(w.env, s, ToDots(e.name)) then t == s && names == []
    else Progress(w, RegisterByteCode(s, ToDots(e.name), e.code), t, names, e.code) && AllSettled(w, t, e.code)
  }

  // What a sequence of class loads comes to

  /** The two sides after it, the names of the classes that were handled, up to the one whose reply is not
      read to its end, and whether there was no such class. */
  datatype Replay = Replay(agent: Store, server: ServerStore, handled: seq<string>, finished: bool)

  function ReplayAll(env: Env, st: Store, s: ServerStore, vmStarted: bool, events: seq<LoadEvent>): Replay
    decreases |events|
  {
    if events == [] then Replay(st, s, [], true) else
      var e := events[0];
      if !vmStarted || !ShouldContinue(st.ignored, e) then ReplayAll(env, st, s, vmStarted, events[1..])
      else if !Finishes(env, st, s, e) then Replay(st, s, [e.name], false)
      else
        var r := ReplayAll(env, Asked(env, st, s, e).value.store, HandleInstrument(env, s, ToDots(e.name)).store,
          vmStarted, events[1..]);
        r.(handled := [e.name] + r.handled)
  }

  predicate Distinct(names: seq<string>) {
    forall i, j :: 0 <= i < j < |names| ==> ToDots(names[i]) != ToDots(names[j])
  }

  predicate AllNew(env: Env, s: ServerStore, names: seq<string>) {
    forall i :: 0 <= i < |names| ==> Instrumentable(env, s, ToDots(names[i]))
  }

  function Dotted(names: seq<string>): set<string> {
    set i | 0 <= i < |names| :: ToDots(names[i])
  }

  lemma OneMoreName(env: Env, s: ServerStore, t: ServerStore, name: string, names: seq<string>)
    requires t.byteCodeCache.Keys == s.byteCodeCache.Keys + {ToDots(name)} && Instrumentable(env, s, ToDots(name))
    ensures Distinct(names) && AllNew(env, t, names) <==> Distinct([name] + names) && AllNew(env, s, [name] + names)
  {
    hide ToDots, CodeKnown;
    var more := [name] + names;
    assert more[0] == name && forall i :: 0 <= i < |names| ==> more[i + 1] == names[i];
    assert forall i :: 1 <= i < |more| ==> more[i] == names[i - 1];
    if Distinct(more) && AllNew(env, s, more) {
      forall i | 0 <= i < |names| ensures Instrumentable(env, t, ToDots(names[i])) {
        assert ToDots(more[0]) != ToDots(more[i + 1]);
      }
    }
  }

  lemma DottedMore(name: string, names: seq<string>)
    ensures Dotted([name] + names) == {ToDots(name)} + Dotted(names)
  {
    hide ToDots;
    var more := [name] + names;
    assert more[0] == name && forall i :: 1 <= i < |more| ==> more[i] == names[i - 1];
    forall d | d in Dotted(names) ensures d in Dotted(more) {
      var i :| 0 <= i < |names| && d == ToDots(names[i]);
      assert more[i + 1] == names[i];
    }
  }

  lemma FinishesSome(env: Env, st: Store, s: ServerStore, e: LoadEvent)
    ensures Finishes(env, st, s, e) ==> Asked(env, st, s, e).Some?
  {
  }

  lemma NoNames(env: Env, s: ServerStore)
    ensures Distinct([]) && AllNew(env, s, []) && Dotted([]) == {}
  {
  }

  lemma OneName(env: Env, s: ServerStore, name: string)
    ensures AllNew(env, s, [name]) <==> Instrumentable(env, s, ToDots(name))
  {
    assert [name][0] == name;
  }

  /** Every sequence of class loads comes to its end exactly when no two of the classes it handles have the same
      name, and the server can instrument each of them. */
  lemma {:induction false} FinishesIffNamesDiffer(env: Env, st: Store, s: ServerStore, vmStarted: bool,
        events: seq<LoadEvent>)
    requires Agree(env, st, s)
    ensures var r := ReplayAll(env, st, s, vmStarted, events);
      && (r.finished <==> Distinct(r.handled) && AllNew(env, s, r.handled))
      && (r.finished ==>
            Agree(env, r.agent, r.server) && r.server.byteCodeCache.Keys == s.byteCodeCache.Keys + Dotted(r.handled))
    decreases |events|
  {
    hide Agree, HandleInstrument, Asked, Finishes, Instrumentable, ToDots, Distinct, AllNew, Dotted;
    if events == [] {
      NoNames(env, s);
    } else {
      var e := events[0];
      if !vmStarted || !ShouldContinue(st.ignored, e) {
        FinishesIffNamesDiffer(env, st, s, vmStarted, events[1..]);
      } else {
        AskedFinishesIffNew(env, st, s, e);
        if Finishes(env, st, s, e) {
          FinishesSome(env, st, s, e);
          var st', s' := Asked(env, st, s, e).value.store, HandleInstrument(env, s, ToDots(e.name)).store;
          FinishesIffNamesDiffer(env, st', s', vmStarted, events[1..]);
          OneMoreName(env, s, s', e.name, ReplayAll(env, st', s', vmStarted, events[1..]).handled);
          DottedMore(e.name, ReplayAll(env, st', s', vmStarted, events[1..]).handled);
        } else {
          OneName(env, s, e.name);
        }
      }
    }
  }

  lemma SameReply(env: Env, st: Store, s: ServerStore, t: ServerStore, e: LoadEvent)
    requires t == s.(registered := t.registered)
    ensures Asked(env, st, t, e) == Asked(env, st, s, e)
    ensures var (r, q) :=
      (HandleInstrument(env, s, ToDots(e.name)).store, HandleInstrument(env, t, ToDots(e.name)).store);
      r.registered == s.registered && q == r.(registered := t.registered)
  {
  }

  /** What the server was sent without being asked has no influence. */
  lemma {:induction false} RegisteredHasNoInfluence(env: Env, st: Store, s: ServerStore, t: ServerStore,
        vmStarted: bool, events: seq<LoadEvent>)
    requires t == s.(registered := t.registered)
    ensures var (r, q) := (ReplayAll(env, st, s, vmStarted, events), ReplayAll(env, st, t, vmStarted, events));
      q == r.(server := r.server.(registered := q.server.registered))
    decreases |events|
  {
    if events == [] {
    } else {
      var e := events[0];
      SameReply(env, st, s, t, e);
      if !vmStarted || !ShouldContinue(st.ignored, e) {
        RegisteredHasNoInfluence(env, st, s, t, vmStarted, events[1..]);
      } else if Finishes(env, st, s, e) {
        var dots := ToDots(e.name);
        RegisteredHasNoInfluence(env, Asked(env, st, s, e).value.store, HandleInstrument(env, s, dots).store,
          HandleInstrument(env, t, dots).store,
                                 vmStarted, events[1..]);
      }
    }
  }

  // A condition on the class loads alone

  function Firsts(classes: seq<(string, string)>): set<string> {
    set i | 0 <= i < |classes| :: classes[i].0
  }

  function Interceptors(leaves: seq<Initializer>): set<string>
    requires forall i :: 0 <= i < |leaves| ==> leaves[i].ForStaticField?
  {
    set i | 0 <= i < |leaves| :: leaves[i].interceptor
  }

  /** The class is not on the ignored list and is none that instrumenting others puts there. */
  ghost predicate NeverIgnored(env: Env, st: Store, name: string) {
    && name !in st.ignored
    && forall c :: env.transform(c).Transformed? ==>
         name !in Firsts(env.transform(c).aux) && name !in Interceptors(Leaves(env.transform(c).initializers))
  }

  lemma NoLeaves(env: Env, st: Store)
    ensures AfterLeavesMessages(env, st, []) == st
  {
  }

  lemma LeavesMessagesStep(env: Env, st: Store, leaves: seq<Initializer>)
    requires KnownInterceptors(env, leaves) && leaves != []
    ensures AfterLeavesMessages(env, st, leaves)
      == AfterLeavesMessages(env, AfterLeafMessages(env, st, leaves[0]), leaves[1..])
  {
    hide AfterLeafMessages;
  }

  lemma InterceptorsStep(leaves: seq<Initializer>)
    requires leaves != [] && forall i :: 0 <= i < |leaves| ==> leaves[i].ForStaticField?
    ensures Interceptors(leaves) == {leaves[0].interceptor} + Interceptors(leaves[1..])
  {
    assert forall i :: 1 <= i < |leaves| ==> leaves[i] == leaves[1..][i - 1];
    forall n | n in Interceptors(leaves[1..]) ensures n in Interceptors(leaves) {
      var i :| 0 <= i < |leaves| - 1 && leaves[1..][i].interceptor == n;
      assert leaves[i + 1].interceptor == n;
    }
  }

  lemma LeafIgnoresInterceptor(env: Env, st: Store, leaf: Initializer)
    requires leaf.ForStaticField? && leaf.interceptor in env.interceptorCode
    ensures AfterLeafMessages(env, st, leaf).ignored <= st.ignored + {leaf.interceptor}
  {
  }

  lemma {:induction false} LeavesIgnoreInterceptors(env: Env, st: Store, leaves: seq<Initializer>)
    requires KnownInterceptors(env, leaves)
    ensures AfterLeavesMessages(env, st, leaves).ignored <= st.ignored + Interceptors(leaves)
    decreases |leaves|
  {
    hide AfterLeafMessages, AfterLeavesMessages, Interceptors;
    if leaves == [] {
      NoLeaves(env, st);
    } else {
      var next := AfterLeafMessages(env, st, leaves[0]);
      LeavesMessagesStep(env, st, leaves);
      LeafIgnoresInterceptor(env, st, leaves[0]);
      LeavesIgnoreInterceptors(env, next, leaves[1..]);
      InterceptorsStep(leaves);
      assert AfterLeavesMessages(env, next, leaves[1..]).ignored
        <= st.ignored + {leaves[0].interceptor} + Interceptors(leaves[1..]);
    }
  }

  lemma StaysUnignored(env: Env, st: Store, s: ServerStore, e: LoadEvent, name: string)
    requires Agree(env, st, s) && Finishes(env, st, s, e) && NeverIgnored(env, st, name)
    ensures NeverIgnored(env, Asked(env, st, s, e).value.store, name)
  {
    var dots, called := ToDots(e.name), st.(className := e.name, loader := e.loader);
    AskedFinishesIffNew(env, st, s, e);
    match env.transform(dots) {
      case Ignored => FeedIgnored(false, called);
      case Transformed(aux, initializers, code) =>
        MoreIgnoredAgrees(env, st, called, s.sentInterceptors);
        FeedTransformed(env, false, called, aux, Leaves(initializers), code, s.sentInterceptors);
        ClassesSaved(called, aux);
        LeavesIgnoreInterceptors(env, AfterClasses(called, aux), Leaves(initializers));
        assert name !in Firsts(env.transform(dots).aux);
    }
  }

  /** The names of the classes that come from a loader that matters. */
  function Concerned(events: seq<LoadEvent>): seq<string> {
    if events == [] then []
    else (if events[0].loaderName in IGNORED_LOADERS then [] else [events[0].name]) + Concerned(events[1..])
  }

  ghost predicate NoneIgnored(env: Env, st: Store, events: seq<LoadEvent>) {
    forall i :: 0 <= i < |events| && events[i].loaderName !in IGNORED_LOADERS ==> NeverIgnored(env, st, events[i].name)
  }

  lemma NotIgnored(env: Env, st: Store, name: string)
    ensures NeverIgnored(env, st, name) ==> name !in st.ignored
  {
  }

  lemma FirstIsOld(env: Env, s: ServerStore, name: string, names: seq<string>)
    requires !Instrumentable(env, s, ToDots(name))
    ensures !AllNew(env, s, [name] + names)
  {
    assert ([name] + names)[0] == name;
  }

  /** Class loads, none of which the agent ignores for its name, come to their end exactly when no two of them
      have the same class name and the server can instrument each. */
  lemma {:induction false} LoadsFinishIffNamesDiffer(env: Env, st: Store, s: ServerStore, events: seq<LoadEvent>)
    requires Agree(env, st, s) && NoneIgnored(env, st, events)
    ensures ReplayAll(env, st, s, true, events).finished
      <==> Distinct(Concerned(events)) && AllNew(env, s, Concerned(events))
    decreases |events|
  {
    hide Agree, HandleInstrument, Asked, Finishes, Instrumentable, ToDots, NeverIgnored, Distinct, AllNew;
    if events == [] {
      NoNames(env, s);
    } else {
      var e, rest := events[0], events[1..];
      assert forall i :: 0 <= i < |rest| ==> rest[i] == events[i + 1];
      if e.loaderName in IGNORED_LOADERS {
        assert [] + Concerned(rest) == Concerned(rest);
        LoadsFinishIffNamesDiffer(env, st, s, rest);
      } else {
        NotIgnored(env, st, e.name);
        AskedFinishesIffNew(env, st, s, e);
        if Finishes(env, st, s, e) {
          FinishesSome(env, st, s, e);
          var st', s' := Asked(env, st, s, e).value.store, HandleInstrument(env, s, ToDots(e.name)).store;
          forall i | 0 <= i < |rest| && rest[i].loaderName !in IGNORED_LOADERS
            ensures NeverIgnored(env, st', rest[i].name)
          {
            StaysUnignored(env, st, s, e, events[i + 1].name);
          }
          LoadsFinishIffNamesDiffer(env, st', s', rest);
          OneMoreName(env, s, s', e.name, Concerned(rest));
        } else {
          FirstIsOld(env, s, e.name, Concerned(rest));
        }
      }
    }
  }

  /** A class of the same name from a second loader blocks the agent. */
  lemma SecondLoaderBlocks(env: Env, st: Store, s: ServerStore, first: LoadEvent, second: LoadEvent)
    requires Agree(env, st, s) && first.name == second.name && NeverIgnored(env, st, first.name)
    requires first.loaderName !in IGNORED_LOADERS && second.loaderName !in IGNORED_LOADERS
    ensures !ReplayAll(env, st, s, true, [first, second]).finished
  {
    hide Agree, ReplayAll, NeverIgnored, ToDots;
    var events := [first, second];
    LoadsFinishIffNamesDiffer(env, st, s, events);
    assert events[1..] == [second] && [second][1..] == [];
    assert Concerned([second]) == [second.name] && Concerned(events) == [first.name] + [second.name];
    assert Concerned(events)[0] == Concerned(events)[1];
  }

  /** The class Main from two loaders, right after the start, blocks the agent. */
  lemma MainFromTwoLoaders()
    ensures var env := Env(_ => Ignored, map[], {}, []);
      !ReplayAll(env, Start().agent.store, Start().server.store, true,
        [LoadEvent("Main", "A", 1, "1"), LoadEvent("Main", "B", 2, "2")]).finished
  {
    hide ReplayAll;
    var env := Env(_ => Ignored, map[], {}, []);
    SecondLoaderBlocks(env, Start().agent.store, Start().server.store, LoadEvent("Main", "A", 1, "1"),
      LoadEvent("Main", "B", 2, "2"));
  }

  lemma UnknownFirstInterceptor(env: Env, dots: string, leaf: Initializer, code: string)
    requires env.transform(dots) == Transformed([], [leaf], code)
    requires leaf.ForStaticField? && leaf.interceptor !in env.interceptorCode
    ensures !CodeKnown(env, dots)
  {
    assert [leaf][1..] == [] && [leaf] + [] == [leaf];
    assert Leaves([leaf]) == [leaf] + Leaves([leaf][1..]);
    assert Leaves([leaf])[0] == leaf;
  }

  lemma UnknownInterceptorBlocks(env: Env, st: Store, s: ServerStore, e: LoadEvent)
    requires Agree(env, st, s) && ShouldContinue(st.ignored, e) && !CodeKnown(env, ToDots(e.name))
    ensures !ReplayAll(env, st, s, true, [e]).finished
  {
    hide Agree, ToDots, HandleInstrument, Asked, Finishes, CodeKnown, ShouldContinue;
    AskedFinishesIffNew(env, st, s, e);
  }

  /** And so does a single class with an interceptor that the server has no code of. */
  lemma MainWithUnknownInterceptor()
    ensures var env := Env(_ => Transformed([], [ForStaticField("Advice", "Main", "")], "1"), map[], {}, []);
      !ReplayAll(env, Start().agent.store, Start().server.store, true, [LoadEvent("Main", "A", 1, "1")]).finished
  {
    var env := Env(_ => Transformed([], [ForStaticField("Advice", "Main", "")], "1"), map[], {}, []);
    UnknownFirstInterceptor(env, ToDots("Main"), ForStaticField("Advice", "Main", ""), "1");
    UnknownInterceptorBlocks(env, Start().agent.store, Start().server.store, LoadEvent("Main", "A", 1, "1"));
  }

  /** Before the virtual machine has started nothing is handled. */
  lemma {:induction false} NothingBeforeStart(env: Env, st: Store, s: ServerStore, events: seq<LoadEvent>)
    ensures ReplayAll(env, st, s, false, events) == Replay(st, s, [], true)
    decreases |events|
  {
    if events == [] {
    } else {
      NothingBeforeStart(env, st, s, events[1..]);
    }
  }

  /** A class that comes from a loader other than the two that are left out. */
  predicate IsWanted(e: LoadEvent, name: string) {
    e.name == name && e.loaderName != "@Bootstrap" && e.loaderName != "sun.reflect.DelegatingClassLoader"
  }

  lemma ContinuedIsWanted(ignored: set<string>, e: LoadEvent)
    requires ShouldContinue(ignored, e)
    ensures IsWanted(e, e.name) && e.name !in ignored
  {
    assert "@Bootstrap" in IGNORED_LOADERS && "sun.reflect.DelegatingClassLoader" in IGNORED_LOADERS;
  }

  lemma LaterIsWanted(events: seq<LoadEvent>, name: string)
    requires events != [] && exists k :: 0 <= k < |events[1..]| && IsWanted(events[1..][k], name)
    ensures exists k :: 0 <= k < |events| && IsWanted(events[k], name)
  {
    var k :| 0 <= k < |events[1..]| && IsWanted(events[1..][k], name);
    assert IsWanted(events[k + 1], name);
  }

  lemma DeliveredIgnoresMore(env: Env, st: Store, aux: seq<(string, string)>, leaves: seq<Initializer>, code: string,
        r: Store)
    requires KnownInterceptors(env, leaves) && Delivered(env, st, aux, leaves, code, r)
    ensures st.ignored <= r.ignored
  {
  }

  lemma AskedIgnoresMore(env: Env, st: Store, s: ServerStore, e: LoadEvent)
    requires Agree(env, st, s) && Finishes(env, st, s, e)
    ensures st.ignored <= Asked(env, st, s, e).value.store.ignored
  {
    hide Agree, Delivered, Feed, FreshInterceptors, LastWins;
    var dots, call := ToDots(e.name), st.(className := e.name, loader := e.loader);
    AskedFinishesIffNew(env, st, s, e);
    CallAgrees(env, st, s, e);
    match env.transform(dots) {
      case Ignored => FeedIgnored(false, call);
      case Transformed(aux, initializers, code) =>
        InstrumentDelivers(env, call, s, aux, initializers, code, dots);
        DeliveredIgnoresMore(env, call, aux, Leaves(initializers), code, Asked(env, st, s, e).value.store);
    }
  }

  /** Every class handled was loaded by a loader that matters, and was not on the ignored list. */
  lemma {:induction false} HandledAreWanted(env: Env, st: Store, s: ServerStore, vmStarted: bool,
        events: seq<LoadEvent>, i: nat)
    requires Agree(env, st, s) && i < |ReplayAll(env, st, s, vmStarted, events).handled|
    ensures var name := ReplayAll(env, st, s, vmStarted, events).handled[i];
      name !in st.ignored && exists k :: 0 <= k < |events| && IsWanted(events[k], name)
    decreases |events|
  {
    hide Agree, HandleInstrument, Asked, Finishes, Instrumentable, ToDots, IsWanted;
    var (e, rest) := (events[0], events[1..]);
    if !vmStarted || !ShouldContinue(st.ignored, e) {
      HandledAreWanted(env, st, s, vmStarted, rest, i);
      LaterIsWanted(events, ReplayAll(env, st, s, vmStarted, rest).handled[i]);
    } else if i == 0 {
      assert IsWanted(events[0], e.name) by { ContinuedIsWanted(st.ignored, e); }
    } else {
      AskedFinishesIffNew(env, st, s, e);
      FinishesSome(env, st, s, e);
      var (st', s') := (Asked(env, st, s, e).value.store, HandleInstrument(env, s, ToDots(e.name)).store);
      HandledAreWanted(env, st', s', vmStarted, rest, i - 1);
      LaterIsWanted(events, ReplayAll(env, st', s', vmStarted, rest).handled[i - 1]);
      AskedIgnoresMore(env, st, s, e);
    }
  }

  /** Where no class is ever ignored for its name, a replay that comes to its end has handled every class from a
      loader that matters, in order. */
  lemma {:induction false} HandledAreAll(env: Env, st: Store, s: ServerStore, events: seq<LoadEvent>)
    requires Agree(env, st, s) && NoneIgnored(env, st, events) && ReplayAll(env, st, s, true, events).finished
    ensures ReplayAll(env, st, s, true, events).handled == Concerned(events)
    decreases |events|
  {
    hide Agree, HandleInstrument, Asked, Finishes, Instrumentable, ToDots, NeverIgnored;
    if events == [] {
    } else {
      var e, rest := events[0], events[1..];
      assert forall i :: 0 <= i < |rest| ==> rest[i] == events[i + 1];
      if e.loaderName in IGNORED_LOADERS {
        assert [] + Concerned(rest) == Concerned(rest);
        HandledAreAll(env, st, s, rest);
      } else {
        NotIgnored(env, st, e.name);
        AskedFinishesIffNew(env, st, s, e);
        FinishesSome(env, st, s, e);
        var st', s' := Asked(env, st, s, e).value.store, HandleInstrument(env, s, ToDots(e.name)).store;
        forall i | 0 <= i < |rest| && rest[i].loaderName !in IGNORED_LOADERS
          ensures NeverIgnored(env, st', rest[i].name)
        {
          StaysUnignored(env, st, s, e, events[i + 1].name);
        }
        HandledAreAll(env, st', s', rest);
      }
    }
  }

  /** What instrumenting a class ends with. */
  function OutcomeOf(env: Env, dots: string): Option<string> {
    match env.transform(dots)
    case Ignored => None
    case Transformed(_, _, code) => Some(code)
  }

  lemma InstrumentedWith(env: Env, s: ServerStore, dots: string)
    requires Instrumentable(env, s, dots)
    ensures HandleInstrument(env, s, dots).store.byteCodeCache == s.byteCodeCache[dots := OutcomeOf(env, dots)]
  {
  }

  /** The handled classes whose replies were read to their ends. */
  function Completed(r: Replay): seq<string> {
    if r.finished || r.handled == [] then r.handled else r.handled[..|r.handled| - 1]
  }

  lemma CompletedStep(r: Replay, name: string)
    requires r.finished || r.handled != []
    ensures Completed(r.(handled := [name] + r.handled)) == [name] + Completed(r)
  {
  }

  lemma {:induction false} BlockedHasName(env: Env, st: Store, s: ServerStore, vmStarted: bool, events: seq<LoadEvent>)
    ensures var r := ReplayAll(env, st, s, vmStarted, events); r.finished || r.handled != []
    decreases |events|
  {
    hide Asked, Finishes, HandleInstrument;
    if events == [] {
    } else {
      var e := events[0];
      if vmStarted && ShouldContinue(st.ignored, e) && Finishes(env, st, s, e) {
        FinishesSome(env, st, s, e);
        BlockedHasName(env, Asked(env, st, s, e).value.store, HandleInstrument(env, s, ToDots(e.name)).store,
          vmStarted, events[1..]);
      } else {
        BlockedHasName(env, st, s, vmStarted, events[1..]);
      }
    }
  }

  lemma IsNew(env: Env, s: ServerStore, dots: string)
    requires Instrumentable(env, s, dots)
    ensures dots !in s.byteCodeCache
  {
  }

  lemma OnlyBlocked(st: Store, s: ServerStore, name: string)
    ensures Completed(Replay(st, s, [name], false)) == []
  {
  }

  lemma NothingReplayed(env: Env, st: Store, s: ServerStore)
    requires Agree(env, st, s)
    ensures st.results == s.byteCodeCache && Dotted([]) == {} && Completed(Replay(st, s, [], true)) == []
  {
  }

  /** Every replay: the agent and the server end up with the same results, which are those there were and, for
      every class whose reply was read to its end, what the transformer makes of it. */
  lemma {:induction false} ReplayInstruments(env: Env, st: Store, s: ServerStore, vmStarted: bool,
        events: seq<LoadEvent>)
    requires Agree(env, st, s)
    ensures var r := ReplayAll(env, st, s, vmStarted, events);
      && Agree(env, r.agent, r.server) && r.agent.results == r.server.byteCodeCache
      && r.agent.results.Keys == s.byteCodeCache.Keys + Dotted(Completed(r))
      && (forall d :: d in s.byteCodeCache ==> d in r.agent.results && r.agent.results[d] == s.byteCodeCache[d])
      && (forall d :: d in Dotted(Completed(r)) ==> d in r.agent.results && r.agent.results[d] == OutcomeOf(env, d))
    decreases |events|
  {
    hide Agree, HandleInstrument, Asked, Finishes, Instrumentable, ToDots, Dotted, OutcomeOf, Completed;
    if events == [] {
      NothingReplayed(env, st, s);
    } else {
      var e := events[0];
      if !vmStarted || !ShouldContinue(st.ignored, e) {
        ReplayInstruments(env, st, s, vmStarted, events[1..]);
      } else {
        AskedFinishesIffNew(env, st, s, e);
        if Finishes(env, st, s, e) {
          FinishesSome(env, st, s, e);
          var (st', s') := (Asked(env, st, s, e).value.store, HandleInstrument(env, s, ToDots(e.name)).store);
          InstrumentedWith(env, s, ToDots(e.name));
          IsNew(env, s, ToDots(e.name));
          ReplayInstruments(env, st', s', vmStarted, events[1..]);
          BlockedHasName(env, st', s', vmStarted, events[1..]);
          var r := ReplayAll(env, st', s', vmStarted, events[1..]);
          CompletedStep(r, e.name);
          DottedMore(e.name, Completed(r));
        } else {
          NothingReplayed(env, st, s);
          OnlyBlocked(st, s, e.name);
        }
      }
    }
  }

  /** What is left of a replay, after the classes in `handled`. */
  ghost predicate Continues(env: Env, whole: Replay, handled: seq<string>, st: Store, s: ServerStore, vmStarted: bool,
        events: seq<LoadEvent>) {
    var r := ReplayAll(env, st, s, vmStarted, events);
    whole == Replay(r.agent, whole.server, handled + r.handled, r.finished)
    && r.server.byteCodeCache == whole.server.byteCodeCache
    && r.server.sentInterceptors == whole.server.sentInterceptors
  }

  lemma ReplayEnds(env: Env, st: Store, s: ServerStore, vmStarted: bool)
    ensures ReplayAll(env, st, s, vmStarted, []) == Replay(st, s, [], true)
  {
  }

  lemma ReplayStep(env: Env, whole: Replay, handled: seq<string>, st: Store, s: ServerStore, vmStarted: bool,
        events: seq<LoadEvent>, prepared: ServerStore)
    requires events != [] && Continues(env, whole, handled, st, s, vmStarted, events)
    ensures var e := events[0];
      if !vmStarted || !ShouldContinue(st.ignored, e) then Continues(env, whole, handled, st, s, vmStarted, events[1..])
      else if !Finishes(env, st, s, e) then
        whole == Replay(st, whole.server, handled + [e.name], false)
        && whole.server.byteCodeCache == s.byteCodeCache && whole.server.sentInterceptors == s.sentInterceptors
      else Asked(env, st, s, e).Some? && (Grows(s, prepared) ==>
        Continues(env, whole, handled + [e.name], Asked(env, st, s, e).value.store,
          HandleInstrument(env, prepared, ToDots(e.name)).store, vmStarted, events[1..]))
  {
    hide HandleInstrument, ToDots;
    var e := events[0];
    if vmStarted && ShouldContinue(st.ignored, e) && Finishes(env, st, s, e) && Grows(s, prepared) {
      var next, dots := Asked(env, st, s, e).value.store, ToDots(e.name);
      SameReply(env, st, s, prepared, e);
      RegisteredHasNoInfluence(env, next, HandleInstrument(env, s, dots).store,
        HandleInstrument(env, prepared, dots).store, vmStarted, events[1..]);
      var r := ReplayAll(env, next, HandleInstrument(env, prepared, dots).store, vmStarted, events[1..]);
      assert handled + ([e.name] + r.handled) == (handled + [e.name]) + r.handled;
    }
  }

  class AgentCallbacks {
    const loader: DependencyLoader
    var vmStarted: bool
    var agent: Store

    ghost predicate Valid()
      reads this, loader
    {
      loader.Valid() && Agree(loader.world.env, agent, loader.server)
    }

    constructor (world: World)
      ensures Valid() && fresh(loader) && loader.world == world && loader.server == ServerStore(map[], map[], [])
      ensures !vmStarted
      ensures agent == Start().agent.store
    {
      loader := new DependencyLoader(world);
      vmStarted := false;
      agent := Start().agent.store;
    }

    /** Helper classes have been loaded and the virtual machine runs. */
    method VMInit()
      requires Valid()
      modifies this`vmStarted, this`agent
      ensures Valid() && vmStarted
      ensures agent == AfterClasses(old(agent), loader.world.env.prep)
    {
      vmStarted := true;
      ClassesSaved(agent, loader.world.env.prep);
      MoreIgnoredAgrees(loader.world.env, agent, AfterClasses(agent, loader.world.env.prep),
        loader.server.sentInterceptors);
      agent := AfterClasses(agent, loader.world.env.prep);
    }

    /** Before the class is asked for, the server has it; and if it was new to the server, no class it refers
        to is left to send. */
    method Prepare(e: LoadEvent) returns (ghost names: seq<string>)
      requires Valid()
      modifies loader
      ensures Valid() && Grows(old(loader.server), loader.server)
      ensures IsPrepared(loader.world, old(loader.server), loader.server, e, names)
      ensures HasClass(loader.world.env, loader.server, ToDots(e.name))
    {
      ghost var first := loader.server;
      names := [];
      var known := loader.IsClassOnInstrumentor(e.name);
      if !known {
        loader.SendClassData(e.name, e.code);
        ghost var second := loader.server;
        names := loader.LoadDependencies(e.name, e.code);
        SentOnceGrows(loader.world, second, loader.server, names);
        GrowsTransitive(first, second, loader.server);
        GrowingAgrees(loader.world.env, agent, first, loader.server);
      }
    }

    /** False: the call waits for ever. */
    method Instrument(e: LoadEvent) returns (finished: bool)
      requires Valid()
      modifies this`agent, loader`server
      ensures finished <==> Finishes(loader.world.env, old(agent), old(loader.server), e)
      ensures if finished then
          && Valid() && agent == Asked(loader.world.env, old(agent), old(loader.server), e).value.store
          && loader.server == HandleInstrument(loader.world.env, old(loader.server), ToDots(e.name)).store
        else agent == old(agent) && loader.server == old(loader.server)
    {
      AskedFinishesIffNew(loader.world.env, agent, loader.server, e);
      var fed := Asked(loader.world.env, agent, loader.server, e);
      finished := fed.Some? && fed.value.pc.Idle?;
      if finished {
        agent := fed.value.store;
        loader.server := HandleInstrument(loader.world.env, loader.server, ToDots(e.name)).store;
      }
    }

    /** Runs under the monitor, so no two calls overlap. A class that is handled is asked for once the server,
        by then `prepared`, has it and what it refers to, and the call ends exactly if the server can
        instrument it. */
    method ClassFileLoadHook(e: LoadEvent)
      returns (handled: bool, finished: bool, ghost prepared: ServerStore, ghost names: seq<string>)
      requires Valid()
      modifies this`agent, loader
      ensures handled <==> vmStarted && ShouldContinue(old(agent).ignored, e)
      ensures finished ==> Valid()
      ensures !handled ==> finished && agent == old(agent) && loader.server == old(loader.server)
      ensures handled ==>
        IsPrepared(loader.world, old(loader.server), prepared, e, names) && Grows(old(loader.server), prepared)
      ensures handled ==> (finished <==> Instrumentable(loader.world.env, old(loader.server), ToDots(e.name)))
      ensures handled ==> (finished <==> Finishes(loader.world.env, old(agent), old(loader.server), e))
      ensures handled ==>
        agent == if finished then Asked(loader.world.env, old(agent), old(loader.server), e).value.store else old(agent)
      ensures handled ==>
        loader.server == if finished
          then HandleInstrument(loader.world.env, prepared, ToDots(e.name)).store else prepared
    {
      handled, finished, prepared, names := false, true, loader.server, [];
      if vmStarted {
        if ShouldContinue(agent.ignored, e) {
          handled := true;
          names := Prepare(e);
          prepared := loader.server;
          SameReply(loader.world.env, agent, old(loader.server), prepared, e);
          AskedFinishesIffNew(loader.world.env, agent, old(loader.server), e);
          finished := Instrument(e);
        }
      }
    }

    /** Every run of the callback does what the replay of the class loads says, and so comes to its end exactly
        when no class name is handled twice and the server can instrument every class that is handled. */
    method Run(events: seq<LoadEvent>) returns (finished: bool, ghost handled: seq<string>)
      requires Valid()
      modifies this`agent, loader
      ensures var r := ReplayAll(loader.world.env, old(agent), old(loader.server), vmStarted, events);
        && finished == r.finished && handled == r.handled && agent == r.agent
        && loader.server.byteCodeCache == r.server.byteCodeCache
        && loader.server.sentInterceptors == r.server.sentInterceptors
      ensures finished <==> Distinct(handled) && AllNew(loader.world.env, old(loader.server), handled)
      ensures finished ==> Valid()
    {
      hide ReplayAll, HandleInstrument, Asked, Finishes, Instrumentable, ToDots, Distinct, AllNew, IsPrepared;
      ghost var env, whole := loader.world.env, ReplayAll(loader.world.env, agent, loader.server, vmStarted, events);
      FinishesIffNamesDiffer(env, agent, loader.server, vmStarted, events);
      handled, finished := [], true;
      assert events[0..] == events && [] + whole.handled == whole.handled;
      for i := 0 to |events|
        invariant Valid() && finished
        invariant Continues(env, whole, handled, agent, loader.server, vmStarted, events[i..])
      {
        ghost var st, s := agent, loader.server;
        var taken, ok, prepared, _ := ClassFileLoadHook(events[i]);
        ReplayStep(env, whole, handled, st, s, vmStarted, events[i..], prepared);
        assert events[i..][1..] == events[i + 1..];
        if taken {
          handled := handled + [events[i].name];
          if !ok {
            return false, handled;
          }
        }
      }
      ReplayEnds(env, agent, loader.server, vmStarted);
      assert events[|events|..] == [] && handled + [] == handled;
    }
  }
}
