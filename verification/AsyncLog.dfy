/** The asynchronous logger: producers push messages into the shared queue, one worker thread takes them
    out and feeds the sinks, and a terminate message ends the worker. */
module AsyncLog {
  import opened Wrappers
  import opened MpmcQueue

  datatype Msg = Log(level: nat, text: string) | Flush | Terminate

  datatype SinkEvent = Logged(msg: Msg) | Flushed

  datatype Policy = BlockRetry | DiscardLogMsg

  /** The worker's own variables; `outputs[k]` is what sink k has seen, `running` is false after the loop. */
  datatype Worker = Worker(outputs: seq<seq<SinkEvent>>, flushRequested: bool, terminateRequested: bool, running: bool)

  predicate Accepts(level: nat, m: Msg) {
    m.Log? && m.level >= level
  }

  /** One pass over the sinks: sink k sees the message when its level allows it. */
  function Deliver(levels: seq<nat>, outputs: seq<seq<SinkEvent>>, m: Msg): (r: seq<seq<SinkEvent>>)
    requires |outputs| == |levels|
    ensures |r| == |outputs|
  {
    seq(|outputs|,
      k requires 0 <= k < |outputs| => if Accepts(levels[k], m) then outputs[k] + [Logged(m)] else outputs[k])
  }

  function FlushAll(outputs: seq<seq<SinkEvent>>): (r: seq<seq<SinkEvent>>)
    ensures |r| == |outputs|
  {
    seq(|outputs|, k requires 0 <= k < |outputs| => outputs[k] + [Flushed])
  }

  /** One call of `process_next_msg`: None stands for an empty queue, and `elapsed` tells whether the
      flush interval has run out. */
  function ProcessNext(levels: seq<nat>, w: Worker, incoming: Option<Msg>, elapsed: bool): (r: Worker)
    requires |w.outputs| == |levels|
    ensures |r.outputs| == |levels|
  {
    match incoming
    case Some(Flush) => w.(flushRequested := true)
    case Some(Terminate) => w.(flushRequested := true, terminateRequested := true)
    case Some(Log(_, _)) => w.(outputs := Deliver(levels, w.outputs, incoming.value))
    case None =>
      var flushed := if w.flushRequested || elapsed
        then w.(outputs := FlushAll(w.outputs), flushRequested := false) else w;
      flushed.(running := !w.terminateRequested)
  }

  /** One call of `process_next_msg` after the other, as long as the worker runs. Each round is what `dequeue`
      filled in and whether the flush interval has run out. */
  function ProcessAll(levels: seq<nat>, w: Worker, rounds: seq<(Option<Msg>, bool)>): (r: Worker)
    requires |w.outputs| == |levels|
    ensures |r.outputs| == |levels|
  {
    if rounds == [] then w else
      var (before, last) := (ProcessAll(levels, w, rounds[..|rounds| - 1]), rounds[|rounds| - 1]);
      if before.running then ProcessNext(levels, before, last.0, last.1) else before
  }

  /** The queue was found empty in round i, after a terminate message. */
  predicate EmptyAfterTerminate(rounds: seq<(Option<Msg>, bool)>, i: nat) {
    i < |rounds| && rounds[i].0 == None && exists j :: 0 <= j < i && rounds[j].0 == Some(Terminate)
  }

  // What a sequence of rounds comes to

  predicate AsksToFlush(m: Option<Msg>) {
    m == Some(Flush) || m == Some(Terminate)
  }

  /** A message that asks for a flush was taken in one of the rounds, and the queue has not been found empty
      since. */
  predicate FlushWanted(rounds: seq<(Option<Msg>, bool)>) {
    exists j :: 0 <= j < |rounds| && AsksToFlush(rounds[j].0) && forall i :: j < i < |rounds| ==> rounds[i].0.Some?
  }

  /** What a sink of this level is to see of the rounds: the messages of at least its level, and a flush in
      every round that finds the queue empty when a flush is wanted or the interval has run out. */
  function SinkEvents(level: nat, rounds: seq<(Option<Msg>, bool)>): seq<SinkEvent> {
    if rounds == [] then [] else
      var (front, last) := (rounds[..|rounds| - 1], rounds[|rounds| - 1]);
      SinkEvents(level, front) +
      match last.0
      case Some(Log(l, text)) => if level <= l then [Logged(Log(l, text))] else []
      case Some(_) => []
      case None => if last.1 || FlushWanted(front) then [Flushed] else []
  }

  /** The worker has not come to its end before the last of the rounds. */
  ghost predicate AllTaken(rounds: seq<(Option<Msg>, bool)>) {
    forall i :: 0 <= i < |rounds| - 1 ==> !EmptyAfterTerminate(rounds, i)
  }

  /** The worker when its thread is started. */
  function Fresh(levels: seq<nat>): Worker {
    Worker(seq(|levels|, k => []), false, false, true)
  }

  lemma FlushWantedStep(rounds: seq<(Option<Msg>, bool)>)
    requires rounds != []
    ensures FlushWanted(rounds) <==>
      AsksToFlush(rounds[|rounds| - 1].0) || (rounds[|rounds| - 1].0.Some? && FlushWanted(rounds[..|rounds| - 1]))
  {
    var last := |rounds| - 1;
    var front := rounds[..last];
    assert forall i :: 0 <= i < last ==> front[i] == rounds[i];
    if FlushWanted(rounds) && !AsksToFlush(rounds[last].0) {
      var j :| 0 <= j < |rounds| && AsksToFlush(rounds[j].0) && forall i :: j < i < |rounds| ==> rounds[i].0.Some?;
      assert AsksToFlush(front[j].0);
    }
    if rounds[last].0.Some? && FlushWanted(front) {
      var j :| 0 <= j < |front| && AsksToFlush(front[j].0) && forall i :: j < i < |front| ==> front[i].0.Some?;
      assert AsksToFlush(rounds[j].0);
    }
  }

  lemma EmptyInFront(rounds: seq<(Option<Msg>, bool)>, i: nat)
    requires i < |rounds| - 1
    ensures EmptyAfterTerminate(rounds[..|rounds| - 1], i) <==> EmptyAfterTerminate(rounds, i)
  {
    var front := rounds[..|rounds| - 1];
    assert forall j :: 0 <= j < |front| ==> front[j] == rounds[j];
    if j :| 0 <= j < i && rounds[j].0 == Some(Terminate) {
      assert front[j].0 == Some(Terminate);
    }
  }

  lemma TerminatedStep(rounds: seq<(Option<Msg>, bool)>)
    requires rounds != []
    ensures var (front, last) := (rounds[..|rounds| - 1], rounds[|rounds| - 1]);
      && ((exists j :: 0 <= j < |rounds| && rounds[j].0 == Some(Terminate))
        <==> last.0 == Some(Terminate) || exists j :: 0 <= j < |front| && front[j].0 == Some(Terminate))
      && (AllTaken(rounds) ==> AllTaken(front))
      && (AllTaken(rounds) && front != [] ==> !EmptyAfterTerminate(front, |front| - 1))
  {
    var last := |rounds| - 1;
    var front := rounds[..last];
    assert forall i :: 0 <= i < last ==> front[i] == rounds[i];
    if j :| 0 <= j < |rounds| && rounds[j].0 == Some(Terminate) && j < last {
      assert front[j].0 == Some(Terminate);
    }
    if j :| 0 <= j < |front| && front[j].0 == Some(Terminate) {
      assert rounds[j].0 == Some(Terminate);
    }
    forall i | 0 <= i < |front| ensures EmptyAfterTerminate(front, i) <==> EmptyAfterTerminate(rounds, i) {
      EmptyInFront(rounds, i);
    }
  }

  /** The worker after the rounds, as far as its own variables go. */
  ghost predicate FlagsAfter(w: Worker, rounds: seq<(Option<Msg>, bool)>) {
    && (w.terminateRequested <==> exists j :: 0 <= j < |rounds| && rounds[j].0 == Some(Terminate))
    && (w.running <==> rounds == [] || !EmptyAfterTerminate(rounds, |rounds| - 1))
    && (w.flushRequested <==> FlushWanted(rounds))
  }

  lemma FlagsStep(levels: seq<nat>, w: Worker, rounds: seq<(Option<Msg>, bool)>)
    requires |w.outputs| == |levels| && rounds != [] && FlagsAfter(w, rounds[..|rounds| - 1]) && w.running
    ensures var last := rounds[|rounds| - 1]; FlagsAfter(ProcessNext(levels, w, last.0, last.1), rounds)
  {
    hide FlushWanted, Deliver, FlushAll;
    var last := |rounds| - 1;
    FlushWantedStep(rounds);
    TerminatedStep(rounds);
    assert forall i :: 0 <= i < last ==> rounds[..last][i] == rounds[i];
    if j :| 0 <= j < last && rounds[j].0 == Some(Terminate) {
      assert rounds[..last][j].0 == Some(Terminate);
    }
    if j :| 0 <= j < last && rounds[..last][j].0 == Some(Terminate) {
      assert rounds[j].0 == Some(Terminate);
    }
  }

  lemma SinkEventsStep(level: nat, rounds: seq<(Option<Msg>, bool)>)
    requires rounds != []
    ensures var (front, last) := (rounds[..|rounds| - 1], rounds[|rounds| - 1]);
      SinkEvents(level, rounds) == SinkEvents(level, front) +
        match last.0
        case Some(Log(l, text)) => if level <= l then [Logged(Log(l, text))] else []
        case Some(_) => []
        case None => if last.1 || FlushWanted(front) then [Flushed] else []
  {
    hide FlushWanted;
  }

  lemma EventsStep(levels: seq<nat>, w: Worker, rounds: seq<(Option<Msg>, bool)>, k: nat)
    requires |w.outputs| == |levels| && rounds != [] && k < |levels|
    requires w.flushRequested <==> FlushWanted(rounds[..|rounds| - 1])
    requires w.outputs[k] == SinkEvents(levels[k], rounds[..|rounds| - 1])
    ensures var last := rounds[|rounds| - 1];
      ProcessNext(levels, w, last.0, last.1).outputs[k] == SinkEvents(levels[k], rounds)
  {
    hide FlushWanted, SinkEvents, AsksToFlush;
    SinkEventsStep(levels[k], rounds);
    assert w.outputs[k] + [] == w.outputs[k];
  }

  lemma NoRounds(levels: seq<nat>)
    ensures ProcessAll(levels, Fresh(levels), []) == Fresh(levels) && FlagsAfter(Fresh(levels), [])
    ensures forall k :: 0 <= k < |levels| ==> SinkEvents(levels[k], []) == Fresh(levels).outputs[k]
  {
  }

  lemma FlagsSay(w: Worker, rounds: seq<(Option<Msg>, bool)>)
    requires FlagsAfter(w, rounds)
    ensures w.running <==> rounds == [] || !EmptyAfterTerminate(rounds, |rounds| - 1)
    ensures w.flushRequested <==> FlushWanted(rounds)
  {
  }

  /** Every sequence of rounds, from the start of the thread and as long as the worker takes them: the worker
      runs on unless the last one found the queue empty after a terminate message, and each sink has seen
      exactly the events it was to see. */
  lemma {:induction false} SinksSeeTheRounds(levels: seq<nat>, rounds: seq<(Option<Msg>, bool)>)
    requires AllTaken(rounds)
    ensures var w := ProcessAll(levels, Fresh(levels), rounds);
      && (w.running <==> rounds == [] || !EmptyAfterTerminate(rounds, |rounds| - 1))
      && FlagsAfter(w, rounds)
      && forall k :: 0 <= k < |levels| ==> w.outputs[k] == SinkEvents(levels[k], rounds)
    decreases |rounds|
  {
    hide ProcessNext, FlagsAfter, SinkEvents, AllTaken, EmptyAfterTerminate;
    if rounds == [] {
      NoRounds(levels);
    } else {
      var front, last := rounds[..|rounds| - 1], rounds[|rounds| - 1];
      TerminatedStep(rounds);
      SinksSeeTheRounds(levels, front);
      var w := ProcessAll(levels, Fresh(levels), front);
      FlagsSay(w, front);
      FlagsStep(levels, w, rounds);
      FlagsSay(ProcessNext(levels, w, last.0, last.1), rounds);
      forall k | 0 <= k < |levels|
        ensures ProcessNext(levels, w, last.0, last.1).outputs[k] == SinkEvents(levels[k], rounds)
      {
        EventsStep(levels, w, rounds, k);
      }
    }
  }

  /** A flush or terminate message is carried out by the first round after it that finds the queue empty:
      whatever came in between, every sink has then been flushed last. */
  lemma FlushIsCarriedOut(levels: seq<nat>, rounds: seq<(Option<Msg>, bool)>, j: nat)
    requires AllTaken(rounds) && j < |rounds| - 1 && AsksToFlush(rounds[j].0) && rounds[|rounds| - 1].0 == None
    requires forall i :: j < i < |rounds| - 1 ==> rounds[i].0.Some?
    ensures var w := ProcessAll(levels, Fresh(levels), rounds);
      forall k :: 0 <= k < |levels| ==> w.outputs[k] != [] && w.outputs[k][|w.outputs[k]| - 1] == Flushed
  {
    hide ProcessAll, AllTaken;
    SinksSeeTheRounds(levels, rounds);
    var front := rounds[..|rounds| - 1];
    assert FlushWanted(front) by { assert AsksToFlush(front[j].0); }
  }

  /** A round that finds the queue empty flushes every sink exactly if a flush or terminate message was taken
      since the queue was last found empty, or the interval has run out; otherwise no sink sees anything. */
  lemma EmptyRoundFlushesIffWanted(levels: seq<nat>, rounds: seq<(Option<Msg>, bool)>, elapsed: bool, k: nat)
    requires AllTaken(rounds + [(None, elapsed)]) && k < |levels|
    ensures var before := ProcessAll(levels, Fresh(levels), rounds).outputs[k];
      ProcessAll(levels, Fresh(levels), rounds + [(None, elapsed)]).outputs[k]
        == before + if elapsed || FlushWanted(rounds) then [Flushed] else []
  {
    hide ProcessAll, FlushWanted;
    var more := rounds + [(None, elapsed)];
    assert more[..|more| - 1] == rounds;
    TerminatedStep(more);
    SinksSeeTheRounds(levels, more);
    SinksSeeTheRounds(levels, rounds);
  }

  /** The worker as the object that the thread runs on. */
  class AsyncLogHelper {
    const levels: seq<nat>
    const outputs: array<seq<SinkEvent>>
    var flushRequested: bool
    var terminateRequested: bool

    ghost predicate Valid()
      reads this
    {
      outputs.Length == |levels|
    }

    ghost function State(running: bool): Worker
      reads this, outputs
    {
      Worker(outputs[..], flushRequested, terminateRequested, running)
    }

    constructor (levels: seq<nat>)
      ensures Valid() && fresh(outputs) && this.levels == levels
      ensures State(true) == Fresh(levels)
    {
      this.levels := levels;
      this.outputs := new seq<SinkEvent>[|levels|](k => []);
      flushRequested, terminateRequested := false, false;
    }

    method HandleFlushInterval(elapsed: bool)
      requires Valid()
      modifies this, outputs
      ensures terminateRequested == old(terminateRequested)
      ensures flushRequested == false
      ensures outputs[..] == if old(flushRequested) || elapsed then FlushAll(old(outputs[..])) else old(outputs[..])
    {
      if flushRequested || elapsed {
        ghost var before := outputs[..];
        for k := 0 to outputs.Length
          invariant unchanged(this)
          invariant forall j :: 0 <= j < outputs.Length ==>
            outputs[j] == if j < k then before[j] + [Flushed] else before[j]
        {
          outputs[k] := outputs[k] + [Flushed];
        }
        assert outputs[..] == FlushAll(before);
        flushRequested := false;
      }
    }

    /** False when the loop ends. */
    method ProcessNextMsg(incoming: Option<Msg>, elapsed: bool) returns (active: bool)
      requires Valid()
      modifies this, outputs
      ensures Valid()
      ensures State(active) == ProcessNext(levels, old(State(true)), incoming, elapsed)
    {
      match incoming {
        case Some(Flush) =>
          flushRequested := true;
        case Some(Terminate) =>
          flushRequested := true;
          terminateRequested := true;
        case Some(Log(level, _)) =>
          ghost var before := outputs[..];
          for k := 0 to outputs.Length
            invariant unchanged(this)
            invariant forall j :: 0 <= j < outputs.Length ==>
              outputs[j] == if j < k then Deliver(levels, before, incoming.value)[j] else before[j]
          {
            if level >= levels[k] {
              outputs[k] := outputs[k] + [Logged(incoming.value)];
            }
          }
          assert outputs[..] == Deliver(levels, before, incoming.value);
        case None =>
          HandleFlushInterval(elapsed);
          return !terminateRequested;
      }
      return true;
    }

    /** The thread: it ends with the first round that finds the queue empty after a terminate message, and
        otherwise goes on; `used` is how many rounds it took. */
    method WorkerLoop(rounds: seq<(Option<Msg>, bool)>) returns (used: nat, active: bool)
      requires Valid() && !terminateRequested
      modifies this, outputs
      ensures Valid() && used <= |rounds|
      ensures State(active) == ProcessAll(levels, old(State(true)), rounds[..used])
      ensures active ==> used == |rounds| && forall i :: 0 <= i < used ==> !EmptyAfterTerminate(rounds, i)
      ensures !active ==> used > 0 && EmptyAfterTerminate(rounds, used - 1) && forall i :: 0 <= i < used - 1 ==>
        !EmptyAfterTerminate(rounds, i)
    {
      used, active := 0, true;
      while used < |rounds|
        invariant Valid() && active && used <= |rounds|
        invariant State(true) == ProcessAll(levels, old(State(true)), rounds[..used])
        invariant terminateRequested <==> exists j :: 0 <= j < used && rounds[j].0 == Some(Terminate)
        invariant forall i :: 0 <= i < used ==> !EmptyAfterTerminate(rounds, i)
      {
        assert rounds[..used + 1][..used] == rounds[..used];
        active := ProcessNextMsg(rounds[used].0, rounds[used].1);
        used := used + 1;
        if !active {
          return;
        }
      }
    }
  }

  // The whole logger: the queue of module MpmcQueue with one consumer

  const WORKER: Tid := 0

  /** The last three fields are a record: the messages of the push calls that came back with a ticket,
      by ticket, those that came back without one, and the number of calls that came back. */
  datatype Sys = Sys(q: State<Msg>, levels: seq<nat>, policy: Policy, worker: Worker,
                     returned: map<nat, Msg>, dropped: seq<Msg>, calls: nat)

  datatype Action =
    | Push(tid: Tid, msg: Msg)              // a producer enters push_msg
    | Access(tid: Tid, spurious: bool)      // the next access of any thread to the queue
    | PushEnd(tid: Tid)                     // enqueue comes back to push_msg
    | Poll                                  // the worker calls dequeue
    | Process(elapsed: bool)                // dequeue comes back to the worker

  function Begin(size: nat, levels: seq<nat>, policy: Policy): Sys {
    Sys(Init(size), levels, policy, Fresh(levels), map[], [], 0)
  }

  predicate CanAct(s: Sys, a: Action) {
    match a
    case Push(t, _) => t != WORKER && t !in s.q.threads
    case Access(t, spurious) => Enabled(s.q, Advance(t, spurious))
    case PushEnd(t) => t != WORKER && t in s.q.threads && s.q.threads[t].EnqDone?
    case Poll => s.worker.running && WORKER !in s.q.threads
    case Process(_) => WORKER in s.q.threads && s.q.threads[WORKER].DeqDone?
  }

  /** The message `dequeue` filled in, if it succeeded and the cell held one. */
  function Incoming(pc: Pc<Msg>): Option<Msg>
    requires pc.DeqDone?
  {
    if pc.ok && pc.moved.Some? then Some(pc.moved.value) else None
  }

  /** A failed enqueue is tried again with the same message, unless the policy is to discard it. */
  function EndPush(s: Sys, t: Tid): Sys
    requires s.q.Size() > 0 && CanAct(s, PushEnd(t))
  {
    var pc, q := s.q.threads[t], Apply(s.q, Return(t));
    if pc.ok then s.(q := q, returned := s.returned[pc.pos := pc.item], calls := s.calls + 1)
    else if s.policy == BlockRetry then s.(q := Apply(q, StartEnqueue(t, pc.item)))
    else s.(q := q, dropped := s.dropped + [pc.item], calls := s.calls + 1)
  }

  function Act(s: Sys, a: Action): Sys
    requires s.q.Size() > 0 && |s.worker.outputs| == |s.levels| && CanAct(s, a)
  {
    match a
    case Push(t, msg) => s.(q := Apply(s.q, StartEnqueue(t, msg)))
    case Access(t, spurious) => s.(q := Apply(s.q, Advance(t, spurious)))
    case PushEnd(t) => EndPush(s, t)
    case Poll => s.(q := Apply(s.q, StartDequeue(WORKER)))
    case Process(elapsed) =>
      s.(q := Apply(s.q, Return(WORKER)),
        worker := ProcessNext(s.levels, s.worker, Incoming(s.q.threads[WORKER]), elapsed))
  }

  function ActAll(s: Sys, actions: seq<Action>): (r: Option<Sys>)
    requires s.q.Size() > 0 && |s.worker.outputs| == |s.levels|
    ensures r.Some? ==>
      r.value.q.Size() == s.q.Size() && r.value.levels == s.levels && |r.value.worker.outputs| == |s.levels|
  {
    if actions == [] then Some(s) else
      var last := |actions| - 1;
      match ActAll(s, actions[..last])
      case None => None
      case Some(m) => if CanAct(m, actions[last]) then Some(Act(m, actions[last])) else None
  }

  // What each sink has seen

  function LoggedOf(events: seq<SinkEvent>): seq<Msg> {
    if events == [] then [] else
      var last := |events| - 1;
      LoggedOf(events[..last]) + match events[last] case Logged(m) => [m] case Flushed => []
  }

  /** The messages a sink of this level is to see, in order. */
  function AcceptedOf(level: nat, ms: seq<Msg>): seq<Msg> {
    if ms == [] then [] else
      var last := |ms| - 1;
      AcceptedOf(level, ms[..last]) + if Accepts(level, ms[last]) then [ms[last]] else []
  }

  lemma AcceptedOfAppend(level: nat, ms: seq<Msg>, m: Msg)
    ensures AcceptedOf(level, ms + [m]) == AcceptedOf(level, ms) + if Accepts(level, m) then [m] else []
  {
    assert (ms + [m])[..|ms|] == ms;
  }

  lemma {:induction false} AcceptedOfPrefix(level: nat, ms: seq<Msg>, more: seq<Msg>)
    requires ms <= more
    ensures AcceptedOf(level, ms) <= AcceptedOf(level, more)
  {
    if ms == more {
    } else {
      AcceptedOfPrefix(level, ms, more[..|more| - 1]);
    }
  }

  lemma LoggedOfAppend(events: seq<SinkEvent>, e: SinkEvent)
    ensures LoggedOf(events + [e]) == LoggedOf(events) + match e case Logged(m) => [m] case Flushed => []
  {
    assert (events + [e])[..|events|] == events;
  }

  // The invariant

  predicate HasTicket(pc: Pc<Msg>) {
    pc.DeqMove? || pc.DeqRelease? || (pc.DeqDone? && pc.ok)
  }

  /** How many tickets the worker is done with. */
  function Handled(s: Sys): nat {
    if WORKER in s.q.threads && HasTicket(s.q.threads[WORKER]) then s.q.threads[WORKER].pos else s.q.dequeuePos
  }

  ghost predicate OneConsumer(s: Sys) {
    && (forall p :: 0 <= p < |s.q.consumers| ==> s.q.consumers[p] == WORKER)
    && (forall t :: t in s.q.threads ==> (t == WORKER <==> !IsEnqueue(s.q.threads[t])))
    && (WORKER in s.q.threads && HasTicket(s.q.threads[WORKER]) ==> s.q.threads[WORKER].pos == s.q.dequeuePos - 1)
  }

  /** The worker after the messages in `handled`. */
  ghost predicate WorkerAt(levels: seq<nat>, w: Worker, handled: seq<Msg>)
    requires |w.outputs| == |levels|
  {
    && (forall k :: 0 <= k < |levels| ==> LoggedOf(w.outputs[k]) == AcceptedOf(levels[k], handled))
    && (w.terminateRequested <==> Terminate in handled)
    && (w.running && w.terminateRequested ==> w.flushRequested)
    && (!w.running ==> w.terminateRequested)
    && (!w.running ==>
          forall k :: 0 <= k < |levels| ==> w.outputs[k] != [] && w.outputs[k][|w.outputs[k]| - 1] == Flushed)
  }

  ghost predicate WorkerInv(s: Sys)
    requires |s.worker.outputs| == |s.levels|
  {
    && Handled(s) <= |s.q.pushed| && WorkerAt(s.levels, s.worker, s.q.pushed[..Handled(s)])
    && (!s.worker.running ==> WORKER !in s.q.threads)
  }

  lemma SinkSees(levels: seq<nat>, w: Worker, m: Msg, elapsed: bool, k: nat)
    requires |w.outputs| == |levels| && k < |levels|
    ensures LoggedOf(ProcessNext(levels, w, Some(m), elapsed).outputs[k])
      == LoggedOf(w.outputs[k]) + if Accepts(levels[k], m) then [m] else []
  {
    hide LoggedOf;
    LoggedOfAppend(w.outputs[k], Logged(m));
  }

  lemma TakesOne(handled: seq<Msg>, m: Msg)
    ensures Terminate in handled + [m] <==> Terminate in handled || m == Terminate
  {
  }

  lemma WorkerTakes(levels: seq<nat>, w: Worker, handled: seq<Msg>, m: Msg, elapsed: bool)
    requires |w.outputs| == |levels| && WorkerAt(levels, w, handled) && w.running
    ensures WorkerAt(levels, ProcessNext(levels, w, Some(m), elapsed), handled + [m])
    ensures ProcessNext(levels, w, Some(m), elapsed).running
  {
    hide LoggedOf, AcceptedOf, Deliver;
    TakesOne(handled, m);
    forall k | 0 <= k < |levels|
      ensures LoggedOf(ProcessNext(levels, w, Some(m), elapsed).outputs[k]) == AcceptedOf(levels[k], handled + [m])
    {
      AcceptedOfAppend(levels[k], handled, m);
      SinkSees(levels, w, m, elapsed, k);
    }
  }

  lemma FlushesAll(outputs: seq<seq<SinkEvent>>, k: nat)
    requires k < |outputs|
    ensures var r := FlushAll(outputs);
      LoggedOf(r[k]) == LoggedOf(outputs[k]) && r[k] != [] && r[k][|r[k]| - 1] == Flushed
  {
    hide LoggedOf;
    LoggedOfAppend(outputs[k], Flushed);
  }

  lemma WorkerIdles(levels: seq<nat>, w: Worker, handled: seq<Msg>, elapsed: bool)
    requires |w.outputs| == |levels| && WorkerAt(levels, w, handled) && w.running
    ensures WorkerAt(levels, ProcessNext(levels, w, None, elapsed), handled)
  {
    hide LoggedOf, AcceptedOf, FlushAll;
    forall k | 0 <= k < |levels|
      ensures var r := FlushAll(w.outputs);
        LoggedOf(r[k]) == AcceptedOf(levels[k], handled) && r[k] != [] && r[k][|r[k]| - 1] == Flushed
    {
      FlushesAll(w.outputs, k);
    }
  }

  predicate ProducerTicket(pc: Pc<Msg>, p: nat) {
    ((pc.EnqMove? || pc.EnqPublish?) && pc.pos == p) || (pc.EnqDone? && pc.ok && pc.pos == p)
  }

  ghost predicate RecordInv(s: Sys) {
    && (forall p :: p in s.returned ==> p < |s.q.pushed| && s.q.pushed[p] == s.returned[p])
    && (forall t, p: nat :: t in s.q.threads && ProducerTicket(s.q.threads[t], p) ==> p !in s.returned)
    && s.calls == |s.returned| + |s.dropped|
    && (s.policy == BlockRetry ==> s.dropped == [])
  }

  ghost predicate SysInv(s: Sys) {
    && Inv(s.q) && |s.worker.outputs| == |s.levels|
    && OneConsumer(s) && WorkerInv(s) && RecordInv(s)
  }

  lemma BeginInv(size: nat, levels: seq<nat>, policy: Policy)
    requires size >= 2
    ensures SysInv(Begin(size, levels, policy))
  {
    InitInv<Msg>(size);
  }

  /** Steps that leave the worker alone and handle no ticket. */
  lemma WorkerInvFrame(s: Sys, s': Sys)
    requires |s.worker.outputs| == |s.levels| && WorkerInv(s)
    requires s'.worker == s.worker && s'.levels == s.levels
    requires Handled(s') == Handled(s) && s.q.pushed <= s'.q.pushed
    requires WORKER in s'.q.threads ==> WORKER in s.q.threads || s.worker.running
    ensures WorkerInv(s')
  {
    hide WorkerAt, Handled;
    assert s'.q.pushed[..Handled(s)] == s.q.pushed[..Handled(s)];
  }

  lemma PushFrame(s: Sys, t: Tid, msg: Msg)
    requires s.q.Size() > 0 && |s.worker.outputs| == |s.levels| && OneConsumer(s) && RecordInv(s)
    requires CanAct(s, Push(t, msg))
    ensures var s' := Act(s, Push(t, msg));
      && OneConsumer(s') && RecordInv(s') && Handled(s') == Handled(s) && s'.q.pushed == s.q.pushed
      && (WORKER in s'.q.threads <==> WORKER in s.q.threads)
  {
  }

  lemma PollFrame(s: Sys)
    requires s.q.Size() > 0 && |s.worker.outputs| == |s.levels| && OneConsumer(s) && RecordInv(s)
    requires CanAct(s, Poll)
    ensures var s' := Act(s, Poll);
      OneConsumer(s') && RecordInv(s') && Handled(s') == Handled(s) && s'.q.pushed == s.q.pushed
  {
  }

  lemma PushKeepsInv(s: Sys, t: Tid, msg: Msg)
    requires SysInv(s) && CanAct(s, Push(t, msg))
    ensures SysInv(Act(s, Push(t, msg)))
  {
    hide Inv, OneConsumer, RecordInv, WorkerInv, Apply;
    InvSize(s.q);
    StepKeepsInv(s.q, StartEnqueue(t, msg));
    PushFrame(s, t, msg);
    WorkerInvFrame(s, Act(s, Push(t, msg)));
  }

  lemma PollKeepsInv(s: Sys)
    requires SysInv(s) && CanAct(s, Poll)
    ensures SysInv(Act(s, Poll))
  {
    hide Inv, OneConsumer, RecordInv, WorkerInv, Apply;
    InvSize(s.q);
    StepKeepsInv(s.q, StartDequeue(WORKER));
    PollFrame(s);
    WorkerInvFrame(s, Act(s, Poll));
  }

  lemma PushEndQueue(s: Sys, t: Tid)
    requires Inv(s.q) && CanAct(s, PushEnd(t))
    ensures Inv(EndPush(s, t).q)
  {
    StepKeepsInv(s.q, Return(t));
    if !s.q.threads[t].ok && s.policy == BlockRetry {
      StepKeepsInv(Apply(s.q, Return(t)), StartEnqueue(t, s.q.threads[t].item));
    }
  }

  lemma PushEndConsumer(s: Sys, t: Tid)
    requires s.q.Size() > 0 && OneConsumer(s) && CanAct(s, PushEnd(t))
    ensures OneConsumer(EndPush(s, t)) && Handled(EndPush(s, t)) == Handled(s)
    ensures EndPush(s, t).q.pushed == s.q.pushed && EndPush(s, t).worker == s.worker && EndPush(s, t).levels == s.levels
    ensures WORKER in EndPush(s, t).q.threads ==> WORKER in s.q.threads
  {
  }

  /** No two producers have one ticket. */
  lemma TicketsDiffer(s: Sys, t: Tid)
    requires Inv(s.q) && t in s.q.threads && s.q.threads[t].EnqDone? && s.q.threads[t].ok
    ensures var pos := s.q.threads[t].pos; pos < |s.q.pushed| && s.q.pushed[pos] == s.q.threads[t].item
    ensures forall u :: u in s.q.threads && u != t ==> !ProducerTicket(s.q.threads[u], s.q.threads[t].pos)
  {
    assert ThreadOk(s.q, t);
    forall u | u in s.q.threads && u != t ensures !ProducerTicket(s.q.threads[u], s.q.threads[t].pos) {
      assert ThreadOk(s.q, u);
    }
  }

  lemma OneMoreReturned(returned: map<nat, Msg>, p: nat, m: Msg)
    requires p !in returned
    ensures |returned[p := m]| == |returned| + 1
  {
    assert returned[p := m].Keys == returned.Keys + {p};
  }

  lemma PushEndTicket(s: Sys, t: Tid)
    requires s.q.Size() > 0 && RecordInv(s) && CanAct(s, PushEnd(t)) && s.q.threads[t].ok
    requires s.q.threads[t].pos < |s.q.pushed| && s.q.pushed[s.q.threads[t].pos] == s.q.threads[t].item
    requires forall u :: u in s.q.threads && u != t ==> !ProducerTicket(s.q.threads[u], s.q.threads[t].pos)
    ensures RecordInv(EndPush(s, t))
  {
    var pc := s.q.threads[t];
    assert ProducerTicket(pc, pc.pos);
    OneMoreReturned(s.returned, pc.pos, pc.item);
  }

  lemma PushEndNoTicket(s: Sys, t: Tid)
    requires s.q.Size() > 0 && RecordInv(s) && CanAct(s, PushEnd(t)) && !s.q.threads[t].ok
    ensures RecordInv(EndPush(s, t))
  {
  }

  lemma PushEndRecord(s: Sys, t: Tid)
    requires s.q.Size() > 0 && RecordInv(s) && CanAct(s, PushEnd(t))
    requires s.q.threads[t].ok ==>
      s.q.threads[t].pos < |s.q.pushed| && s.q.pushed[s.q.threads[t].pos] == s.q.threads[t].item
    requires s.q.threads[t].ok ==> forall u :: u in s.q.threads && u != t ==>
      !ProducerTicket(s.q.threads[u], s.q.threads[t].pos)
    ensures RecordInv(EndPush(s, t))
  {
    hide RecordInv, EndPush, ProducerTicket;
    if s.q.threads[t].ok { PushEndTicket(s, t); } else { PushEndNoTicket(s, t); }
  }

  lemma PushEndKeepsInv(s: Sys, t: Tid)
    requires SysInv(s) && CanAct(s, PushEnd(t))
    ensures SysInv(Act(s, PushEnd(t)))
  {
    hide Inv, RecordInv, OneConsumer, WorkerInv, EndPush;
    InvSize(s.q);
    PushEndQueue(s, t);
    PushEndConsumer(s, t);
    if s.q.threads[t].ok { TicketsDiffer(s, t); }
    WorkerInvFrame(s, EndPush(s, t));
    PushEndRecord(s, t);
  }

  /** What the rest of the logger can see of a producer's access. */
  predicate EnqueueEffect(q: State<Msg>, q': State<Msg>, t: Tid)
    requires t in q.threads
  {
    && t in q'.threads && q'.threads == q.threads[t := q'.threads[t]] && IsEnqueue(q'.threads[t])
    && q'.consumers == q.consumers && q'.dequeuePos == q.dequeuePos && q.pushed <= q'.pushed
    && (ProducerTicket(q'.threads[t], q'.threads[t].Ticket()) ==>
          ProducerTicket(q.threads[t], q'.threads[t].Ticket()) || q'.threads[t].Ticket() == |q.pushed|)
  }

  lemma EnqueueFrame(q: State<Msg>, t: Tid, spurious: bool)
    requires q.Size() > 0 && t in q.threads && !Finished(q.threads[t]) && IsEnqueue(q.threads[t])
    requires |q.pushed| == q.enqueuePos
    ensures EnqueueEffect(q, AdvanceEnqueue(q, t, spurious), t)
  {
  }

  lemma ProducerRecord(s: Sys, t: Tid, q': State<Msg>)
    requires RecordInv(s) && t in s.q.threads && EnqueueEffect(s.q, q', t)
    ensures RecordInv(s.(q := q'))
  {
  }

  lemma ProducerAccess(s: Sys, t: Tid, q': State<Msg>)
    requires |s.worker.outputs| == |s.levels| && OneConsumer(s) && WorkerInv(s) && RecordInv(s)
    requires t in s.q.threads && t != WORKER && EnqueueEffect(s.q, q', t)
    ensures OneConsumer(s.(q := q')) && RecordInv(s.(q := q')) && WorkerInv(s.(q := q'))
  {
    hide RecordInv, WorkerInv;
    ProducerRecord(s, t, q');
    WorkerInvFrame(s, s.(q := q'));
  }

  /** What the rest of the logger can see of the worker's access. */
  predicate DequeueEffect(q: State<Msg>, q': State<Msg>, t: Tid)
    requires t in q.threads
  {
    && t in q'.threads && q'.threads == q.threads[t := q'.threads[t]] && q'.pushed == q.pushed
    && !IsEnqueue(q'.threads[t])
    && ((q'.consumers == q.consumers && q'.dequeuePos == q.dequeuePos
         && (HasTicket(q.threads[t]) <==> HasTicket(q'.threads[t]))
         && (HasTicket(q.threads[t]) ==> q'.threads[t].pos == q.threads[t].pos))
        || (q'.consumers == q.consumers + [t] && q'.dequeuePos == q.dequeuePos + 1
            && !HasTicket(q.threads[t]) && HasTicket(q'.threads[t]) && q'.threads[t].pos == q.dequeuePos))
  }

  lemma DequeueFrame(q: State<Msg>, t: Tid, spurious: bool)
    requires q.Size() > 0 && t in q.threads && !Finished(q.threads[t]) && !IsEnqueue(q.threads[t])
    ensures DequeueEffect(q, AdvanceDequeue(q, t, spurious), t)
  {
  }

  lemma WorkerAccess(s: Sys, q': State<Msg>)
    requires |s.worker.outputs| == |s.levels| && OneConsumer(s) && WorkerInv(s) && RecordInv(s)
    requires WORKER in s.q.threads && DequeueEffect(s.q, q', WORKER)
    ensures OneConsumer(s.(q := q')) && RecordInv(s.(q := q')) && WorkerInv(s.(q := q'))
  {
    WorkerInvFrame(s, s.(q := q'));
  }

  lemma InvCounts(q: State<Msg>)
    requires Inv(q)
    ensures |q.pushed| == q.enqueuePos
  {
  }

  lemma KindOfThread(s: Sys, t: Tid)
    requires OneConsumer(s) && t in s.q.threads
    ensures t == WORKER <==> !IsEnqueue(s.q.threads[t])
  {
  }

  lemma AccessKeepsInv(s: Sys, t: Tid, spurious: bool)
    requires SysInv(s) && CanAct(s, Access(t, spurious))
    ensures SysInv(Act(s, Access(t, spurious)))
  {
    hide Inv, RecordInv, OneConsumer, WorkerInv, AdvanceEnqueue, AdvanceDequeue;
    InvSize(s.q);
    InvCounts(s.q);
    KindOfThread(s, t);
    StepKeepsInv(s.q, Advance(t, spurious));
    if IsEnqueue(s.q.threads[t]) {
      EnqueueFrame(s.q, t, spurious);
      ProducerAccess(s, t, AdvanceEnqueue(s.q, t, spurious));
    } else {
      DequeueFrame(s.q, t, spurious);
      WorkerAccess(s, AdvanceDequeue(s.q, t, spurious));
    }
  }

  lemma ProcessConsumer(s: Sys, elapsed: bool)
    requires s.q.Size() > 0 && |s.worker.outputs| == |s.levels| && CanAct(s, Process(elapsed)) && OneConsumer(s)
    ensures OneConsumer(Act(s, Process(elapsed)))
  {
    hide ProcessNext;
  }

  lemma ProcessRecord(s: Sys, elapsed: bool)
    requires s.q.Size() > 0 && |s.worker.outputs| == |s.levels| && CanAct(s, Process(elapsed)) && RecordInv(s)
    ensures RecordInv(Act(s, Process(elapsed)))
  {
    hide ProcessNext;
  }

  lemma ProcessFrame(s: Sys, elapsed: bool)
    requires s.q.Size() > 0 && |s.worker.outputs| == |s.levels| && CanAct(s, Process(elapsed))
    requires OneConsumer(s) && RecordInv(s)
    ensures OneConsumer(Act(s, Process(elapsed))) && RecordInv(Act(s, Process(elapsed)))
    ensures |Act(s, Process(elapsed)).worker.outputs| == |s.levels|
  {
    hide OneConsumer, RecordInv, ProcessNext;
    ProcessConsumer(s, elapsed);
    ProcessRecord(s, elapsed);
  }

  lemma HandlesNextTicket(s: Sys, elapsed: bool)
    requires s.q.Size() > 0 && |s.worker.outputs| == |s.levels| && WorkerInv(s) && OneConsumer(s)
    requires CanAct(s, Process(elapsed))
    requires var pc := s.q.threads[WORKER]; pc.ok && pc.pos < |s.q.pushed| && pc.moved == Some(s.q.pushed[pc.pos])
    ensures WorkerInv(Act(s, Process(elapsed)))
  {
    hide WorkerAt, ProcessNext;
    var h, pushed := Handled(s), s.q.pushed;
    assert pushed[..h + 1] == pushed[..h] + [pushed[h]];
    WorkerTakes(s.levels, s.worker, pushed[..h], pushed[h], elapsed);
  }

  lemma EmptyQueueKeepsWorkerInv(s: Sys, elapsed: bool)
    requires s.q.Size() > 0 && |s.worker.outputs| == |s.levels| && WorkerInv(s) && OneConsumer(s)
    requires CanAct(s, Process(elapsed))
    requires !s.q.threads[WORKER].ok
    ensures WorkerInv(Act(s, Process(elapsed)))
  {
    hide WorkerAt, ProcessNext;
    WorkerIdles(s.levels, s.worker, s.q.pushed[..Handled(s)], elapsed);
  }

  lemma ProcessKeepsInv(s: Sys, elapsed: bool)
    requires SysInv(s) && CanAct(s, Process(elapsed))
    ensures SysInv(Act(s, Process(elapsed)))
  {
    hide OneConsumer, RecordInv, WorkerInv, ProcessNext;
    StepKeepsInv(s.q, Return(WORKER));
    assert ThreadOk(s.q, WORKER);
    ProcessFrame(s, elapsed);
    if s.q.threads[WORKER].ok {
      HandlesNextTicket(s, elapsed);
    } else {
      EmptyQueueKeepsWorkerInv(s, elapsed);
    }
  }

  lemma ActKeepsInv(s: Sys, a: Action)
    requires SysInv(s) && CanAct(s, a)
    ensures SysInv(Act(s, a))
  {
    match a {
      case Push(t, msg) => PushKeepsInv(s, t, msg);
      case Access(t, spurious) => AccessKeepsInv(s, t, spurious);
      case PushEnd(t) => PushEndKeepsInv(s, t);
      case Poll => PollKeepsInv(s);
      case Process(elapsed) => ProcessKeepsInv(s, elapsed);
    }
  }

  lemma PushedGrows(s: Sys, a: Action)
    requires s.q.Size() > 0 && |s.worker.outputs| == |s.levels| && CanAct(s, a)
    ensures s.q.pushed <= Act(s, a).q.pushed
  {
  }

  lemma {:induction false} ActAllKeepsInv(s: Sys, actions: seq<Action>)
    requires SysInv(s) && ActAll(s, actions).Some?
    ensures SysInv(ActAll(s, actions).value) && s.q.pushed <= ActAll(s, actions).value.q.pushed
  {
    if actions == [] {
    } else {
      var last := |actions| - 1;
      ActAllKeepsInv(s, actions[..last]);
      var m := ActAll(s, actions[..last]).value;
      ActKeepsInv(m, actions[last]);
      PushedGrows(m, actions[last]);
    }
  }

  lemma {:induction false} PolicyFixed(s: Sys, actions: seq<Action>)
    requires s.q.Size() > 0 && |s.worker.outputs| == |s.levels| && ActAll(s, actions).Some?
    ensures ActAll(s, actions).value.policy == s.policy
  {
    if actions == [] {
    } else {
      PolicyFixed(s, actions[..|actions| - 1]);
    }
  }

  lemma BeginIs(size: nat, levels: seq<nat>, policy: Policy)
    ensures var s := Begin(size, levels, policy);
      s.levels == levels && s.policy == policy && s.q.pushed == [] && s.q.Size() == size
        && |s.worker.outputs| == |s.levels|
  {
  }

  /** Every run that ends with the worker gone, split at any point before a terminate message had a
      ticket: each sink has seen exactly the messages its level accepts among the tickets the worker
      handled, once and in ticket order, these include every ticket given up to the split, and each sink
      was flushed after the last of them. With the blocking policy every push that came back by then has
      its own ticket among these. */
  lemma ShutdownDeliversEverything(size: nat, levels: seq<nat>, policy: Policy, early: seq<Action>, late: seq<Action>)
    requires size >= 2 && ActAll(Begin(size, levels, policy), early).Some?
    requires var mid := ActAll(Begin(size, levels, policy), early).value;
      Terminate !in mid.q.pushed && ActAll(mid, late).Some? && !ActAll(mid, late).value.worker.running
    ensures var mid := ActAll(Begin(size, levels, policy), early).value;
      var end := ActAll(mid, late).value;
      && |mid.q.pushed| < Handled(end) <= |end.q.pushed|
      && mid.q.pushed <= end.q.pushed
      && (forall k :: 0 <= k < |levels| ==>
            && LoggedOf(end.worker.outputs[k]) == AcceptedOf(levels[k], end.q.pushed[..Handled(end)])
            && AcceptedOf(levels[k], mid.q.pushed) <= LoggedOf(end.worker.outputs[k])
            && end.worker.outputs[k] != []
            && end.worker.outputs[k][|end.worker.outputs[k]| - 1] == Flushed)
      && (forall p :: p in mid.returned ==> p < |mid.q.pushed| && mid.q.pushed[p] == mid.returned[p])
      && (policy == BlockRetry ==> mid.calls == |mid.returned|)
  {
    hide Inv, ActAll, Act, Begin, OneConsumer, LoggedOf, AcceptedOf;
    var start := Begin(size, levels, policy);
    BeginIs(size, levels, policy);
    BeginInv(size, levels, policy);
    InvSize(start.q);
    ActAllKeepsInv(start, early);
    PolicyFixed(start, early);
    var mid := ActAll(start, early).value;
    InvSize(mid.q);
    ActAllKeepsInv(mid, late);
    var end := ActAll(mid, late).value;
    var h := Handled(end);
    assert forall p :: 0 <= p < |mid.q.pushed| ==> mid.q.pushed[p] == end.q.pushed[p];
    var p :| 0 <= p < h && end.q.pushed[p] == Terminate;
    assert mid.q.pushed <= end.q.pushed[..h];
    forall k | 0 <= k < |levels|
      ensures AcceptedOf(levels[k], mid.q.pushed) <= AcceptedOf(levels[k], end.q.pushed[..h])
    {
      AcceptedOfPrefix(levels[k], mid.q.pushed, end.q.pushed[..h]);
    }
  }

  // Whole runs, seen from the worker

  /** The rounds of the worker in a run: what `dequeue` filled in each time, and whether the interval had run
      out. */
  function RoundsOf(s: Sys, actions: seq<Action>): seq<(Option<Msg>, bool)>
    requires s.q.Size() > 0 && |s.worker.outputs| == |s.levels| && ActAll(s, actions).Some?
  {
    if actions == [] then [] else
      var (front, last) := (actions[..|actions| - 1], actions[|actions| - 1]);
      RoundsOf(s, front) +
      if last.Process? then [(Incoming(ActAll(s, front).value.q.threads[WORKER]), last.elapsed)] else []
  }

  lemma WorkerRuns(s: Sys, elapsed: bool)
    requires SysInv(s) && CanAct(s, Process(elapsed))
    ensures s.worker.running
  {
  }

  lemma OneMoreRound(levels: seq<nat>, w: Worker, rounds: seq<(Option<Msg>, bool)>, round: (Option<Msg>, bool))
    requires |w.outputs| == |levels|
    ensures ProcessAll(levels, w, rounds + [round]) ==
      if ProcessAll(levels, w, rounds).running
      then ProcessNext(levels, ProcessAll(levels, w, rounds), round.0, round.1) else ProcessAll(levels, w, rounds)
  {
    hide ProcessNext;
    assert (rounds + [round])[..|rounds|] == rounds;
  }

  lemma OneMoreTaken(rounds: seq<(Option<Msg>, bool)>, round: (Option<Msg>, bool))
    requires AllTaken(rounds) && (rounds == [] || !EmptyAfterTerminate(rounds, |rounds| - 1))
    ensures AllTaken(rounds + [round])
  {
    var more := rounds + [round];
    assert more[..|rounds|] == rounds;
    forall i | 0 <= i < |rounds| ensures !EmptyAfterTerminate(more, i) { EmptyInFront(more, i); }
  }

  lemma NothingTaken()
    ensures AllTaken([])
  {
  }

  lemma {:induction false} WorkerOfRun(size: nat, levels: seq<nat>, policy: Policy, actions: seq<Action>)
    requires size >= 2 && ActAll(Begin(size, levels, policy), actions).Some?
    ensures var rounds := RoundsOf(Begin(size, levels, policy), actions);
      && AllTaken(rounds)
      && ActAll(Begin(size, levels, policy), actions).value.worker == ProcessAll(levels, Fresh(levels), rounds)
    decreases |actions|
  {
    hide SysInv, ProcessNext, AllTaken, EmptyAfterTerminate, FlagsAfter, SinkEvents;
    var start := Begin(size, levels, policy);
    BeginInv(size, levels, policy);
    if actions == [] {
      NothingTaken();
    } else {
      var front, last := actions[..|actions| - 1], actions[|actions| - 1];
      WorkerOfRun(size, levels, policy, front);
      ActAllKeepsInv(start, front);
      var (m, rounds) := (ActAll(start, front).value, RoundsOf(start, front));
      if last.Process? {
        WorkerRuns(m, last.elapsed);
        SinksSeeTheRounds(levels, rounds);
        OneMoreTaken(rounds, (Incoming(m.q.threads[WORKER]), last.elapsed));
        OneMoreRound(levels, Fresh(levels), rounds, (Incoming(m.q.threads[WORKER]), last.elapsed));
      } else {
        assert rounds + [] == rounds;
      }
    }
  }

  /** Every run: each sink has seen exactly what it was to see of the rounds the worker took, the flushes in
      their places, and the worker is gone exactly if the last of these found the queue empty after a
      terminate message. */
  lemma EverySinkSeesItsEvents(size: nat, levels: seq<nat>, policy: Policy, actions: seq<Action>)
    requires size >= 2 && ActAll(Begin(size, levels, policy), actions).Some?
    ensures var rounds := RoundsOf(Begin(size, levels, policy), actions);
      var w := ActAll(Begin(size, levels, policy), actions).value.worker;
      && (w.running <==> rounds == [] || !EmptyAfterTerminate(rounds, |rounds| - 1))
      && |w.outputs| == |levels| && forall k :: 0 <= k < |levels| ==> w.outputs[k] == SinkEvents(levels[k], rounds)
  {
    WorkerOfRun(size, levels, policy, actions);
    SinksSeeTheRounds(levels, RoundsOf(Begin(size, levels, policy), actions));
  }

  // No message comes from nowhere

  /** The messages that log calls were made with, in order. */
  function Calls(actions: seq<Action>): seq<Msg> {
    if actions == [] then [] else
      var last := |actions| - 1;
      Calls(actions[..last]) + if actions[last].Push? then [actions[last].msg] else []
  }

  /** The producers that are trying to enter this message and have no ticket yet. */
  function Trying(q: State<Msg>, m: Msg): set<Tid> {
    set t | t in q.threads && IsEnqueue(q.threads[t]) && !WonEnqueue(q.threads[t]) && q.threads[t].item == m
  }

  /** How often the message stands in the queue, or waits to get there. */
  function Entered(q: State<Msg>, m: Msg): nat {
    multiset(q.pushed)[m] + |Trying(q, m)|
  }

  lemma SameTriers(q: State<Msg>, q': State<Msg>, t: Tid, m: Msg)
    requires forall u :: u != t ==> (u in q.threads <==> u in q'.threads)
    requires forall u :: u != t && u in q.threads ==> q'.threads[u] == q.threads[u]
    ensures Trying(q, m) - {t} == Trying(q', m) - {t}
  {
  }

  lemma WithOrWithout(tids: set<Tid>, t: Tid)
    ensures |tids| == |tids - {t}| + if t in tids then 1 else 0
  {
    assert tids == (tids - {t}) + if t in tids then {t} else {};
  }

  lemma OneMoreInside(q: State<Msg>, q': State<Msg>, t: Tid, m: Msg)
    requires forall u :: u != t ==> (u in q.threads <==> u in q'.threads)
    requires forall u :: u != t && u in q.threads ==> q'.threads[u] == q.threads[u]
    ensures |Trying(q', m)| == |Trying(q, m)| - (if t in Trying(q, m) then 1 else 0)
      + if t in Trying(q', m) then 1 else 0
  {
    hide Trying;
    SameTriers(q, q', t, m);
    WithOrWithout(Trying(q, m), t);
    WithOrWithout(Trying(q', m), t);
  }

  /** A step of an enqueue takes a ticket for its item, and with it ends the trying, or does neither. */
  lemma TicketEndsTrying(q: State<Msg>, t: Tid, spurious: bool, m: Msg)
    requires q.Size() > 0 && t in q.threads && !Finished(q.threads[t]) && IsEnqueue(q.threads[t])
    ensures var (q', item) := (AdvanceEnqueue(q, t, spurious), q.threads[t].item);
      || (q'.pushed == q.pushed && (t in Trying(q', m) <==> t in Trying(q, m)))
      || (q'.pushed == q.pushed + [item] && t !in Trying(q', m) && (t in Trying(q, m) <==> item == m))
  {
  }

  lemma OneMoreIsCounted(ms: seq<Msg>, x: Msg, m: Msg)
    ensures multiset(ms + [x])[m] == multiset(ms)[m] + if x == m then 1 else 0
  {
  }

  lemma EnqueueKeepsEntered(q: State<Msg>, t: Tid, spurious: bool, m: Msg)
    requires q.Size() > 0 && t in q.threads && !Finished(q.threads[t]) && IsEnqueue(q.threads[t])
    ensures Entered(AdvanceEnqueue(q, t, spurious), m) == Entered(q, m)
  {
    hide Trying;
    TicketEndsTrying(q, t, spurious, m);
    OneMoreIsCounted(q.pushed, q.threads[t].item, m);
    OneMoreInside(q, AdvanceEnqueue(q, t, spurious), t, m);
  }

  lemma NeverTries(q: State<Msg>, t: Tid, spurious: bool, m: Msg)
    requires q.Size() > 0 && t in q.threads && !Finished(q.threads[t]) && !IsEnqueue(q.threads[t])
    ensures var q' := AdvanceDequeue(q, t, spurious);
      q'.pushed == q.pushed && t !in Trying(q', m) && t !in Trying(q, m)
  {
  }

  lemma DequeueKeepsEntered(q: State<Msg>, t: Tid, spurious: bool, m: Msg)
    requires q.Size() > 0 && t in q.threads && !Finished(q.threads[t]) && !IsEnqueue(q.threads[t])
    ensures Entered(AdvanceDequeue(q, t, spurious), m) == Entered(q, m)
  {
    hide Trying;
    NeverTries(q, t, spurious, m);
    OneMoreInside(q, AdvanceDequeue(q, t, spurious), t, m);
  }

  lemma StartsAndReturns(q: State<Msg>, step: Step<Msg>, m: Msg)
    requires q.Size() > 0 && Enabled(q, step) && !step.Advance?
    ensures Entered(Apply(q, step), m) == Entered(q, m)
      + (if step.StartEnqueue? && step.item == m then 1 else 0)
      - if step.Return? && step.tid in Trying(q, m) then 1 else 0
  {
    OneMoreInside(q, Apply(q, step), step.tid, m);
  }

  /** Every call with this message has a ticket, is still trying, or has been given up. */
  predicate Accounted(s: Sys, calls: seq<Msg>, m: Msg) {
    multiset(calls)[m] == Entered(s.q, m) + multiset(s.dropped)[m]
  }

  lemma ReturnLeaves(q: State<Msg>, t: Tid)
    requires q.Size() > 0 && Enabled(q, Return(t))
    ensures Apply(q, Return(t)).Size() == q.Size() && t !in Apply(q, Return(t)).threads
  {
  }

  lemma PushEndAccounts(s: Sys, t: Tid, calls: seq<Msg>, m: Msg)
    requires s.q.Size() > 0 && CanAct(s, PushEnd(t)) && Accounted(s, calls, m)
    ensures Accounted(EndPush(s, t), calls, m)
  {
    hide Apply, Entered;
    StartsAndReturns(s.q, Return(t), m);
    if !s.q.threads[t].ok && s.policy == BlockRetry {
      var q := Apply(s.q, Return(t));
      ReturnLeaves(s.q, t);
      StartsAndReturns(q, StartEnqueue(t, s.q.threads[t].item), m);
    }
  }

  lemma AccessAccounts(s: Sys, t: Tid, spurious: bool, calls: seq<Msg>, m: Msg)
    requires s.q.Size() > 0 && CanAct(s, Access(t, spurious)) && Accounted(s, calls, m)
    ensures Accounted(s.(q := Apply(s.q, Advance(t, spurious))), calls, m)
  {
    hide Entered, AdvanceEnqueue, AdvanceDequeue;
    if IsEnqueue(s.q.threads[t]) {
      EnqueueKeepsEntered(s.q, t, spurious, m);
    } else {
      DequeueKeepsEntered(s.q, t, spurious, m);
    }
  }

  lemma NotTrying(q: State<Msg>, t: Tid, m: Msg)
    requires t in q.threads && q.threads[t].DeqDone?
    ensures t !in Trying(q, m)
  {
  }

  lemma ActAccounts(s: Sys, a: Action, calls: seq<Msg>, m: Msg)
    requires s.q.Size() > 0 && |s.worker.outputs| == |s.levels| && CanAct(s, a) && Accounted(s, calls, m)
    ensures Accounted(Act(s, a), calls + if a.Push? then [a.msg] else [], m)
  {
    hide Apply, Entered, ProcessNext, EndPush, Trying;
    match a {
      case Push(t, msg) => StartsAndReturns(s.q, StartEnqueue(t, msg), m);
      case Access(t, spurious) =>
        AccessAccounts(s, t, spurious, calls, m);
        assert calls + [] == calls;
      case PushEnd(t) =>
        PushEndAccounts(s, t, calls, m);
        assert calls + [] == calls;
      case Poll =>
        StartsAndReturns(s.q, StartDequeue(WORKER), m);
        assert calls + [] == calls;
      case Process(_) =>
        NotTrying(s.q, WORKER, m);
        StartsAndReturns(s.q, Return(WORKER), m);
        assert calls + [] == calls;
    }
  }

  lemma NothingAccounted(size: nat, levels: seq<nat>, policy: Policy, m: Msg)
    ensures Accounted(Begin(size, levels, policy), [], m)
  {
    assert Trying(Begin(size, levels, policy).q, m) == {};
  }

  lemma {:induction false} CallsAreAccounted(size: nat, levels: seq<nat>, policy: Policy, actions: seq<Action>, m: Msg)
    requires size >= 2 && ActAll(Begin(size, levels, policy), actions).Some?
    ensures Accounted(ActAll(Begin(size, levels, policy), actions).value, Calls(actions), m)
    decreases |actions|
  {
    hide Accounted, Act, CanAct, Begin;
    BeginIs(size, levels, policy);
    var start := Begin(size, levels, policy);
    if actions == [] {
      NothingAccounted(size, levels, policy, m);
    } else {
      var front, last := actions[..|actions| - 1], actions[|actions| - 1];
      CallsAreAccounted(size, levels, policy, front, m);
      ActAccounts(ActAll(start, front).value, last, Calls(front), m);
      assert Calls(front) + [] == Calls(front);
    }
  }

  lemma {:induction false} AcceptedAreFew(level: nat, ms: seq<Msg>, m: Msg)
    ensures multiset(AcceptedOf(level, ms))[m] <= multiset(ms)[m]
  {
    if ms == [] {
    } else {
      var last := |ms| - 1;
      AcceptedAreFew(level, ms[..last], m);
      assert ms == ms[..last] + [ms[last]];
    }
  }

  /** No sink has seen a message more often than it stands in the queue. */
  lemma SinksSeeNoMore(s: Sys, k: nat, m: Msg)
    requires |s.worker.outputs| == |s.levels| && WorkerInv(s) && k < |s.levels|
    ensures multiset(LoggedOf(s.worker.outputs[k]))[m] <= multiset(s.q.pushed)[m]
  {
    hide LoggedOf, AcceptedOf;
    AcceptedAreFew(s.levels[k], s.q.pushed[..Handled(s)], m);
    assert s.q.pushed == s.q.pushed[..Handled(s)] + s.q.pushed[Handled(s)..];
  }

  lemma NobodyTries(s: Sys, m: Msg)
    requires OneConsumer(s) && forall t :: t in s.q.threads ==> t == WORKER
    ensures Trying(s.q, m) == {}
  {
  }

  /** Every run: the calls of each message are its tickets, the calls given up, and those still trying. So no
      sink sees a message more often than it was logged, and with the blocking policy, once no producer is in
      a call, each message has as many tickets as calls. */
  lemma MessagesAreConserved(size: nat, levels: seq<nat>, policy: Policy, actions: seq<Action>, m: Msg)
    requires size >= 2 && ActAll(Begin(size, levels, policy), actions).Some?
    ensures var s := ActAll(Begin(size, levels, policy), actions).value;
      && multiset(Calls(actions))[m] == multiset(s.q.pushed)[m] + |Trying(s.q, m)| + multiset(s.dropped)[m]
      && (forall k :: 0 <= k < |levels| ==>
            multiset(LoggedOf(s.worker.outputs[k]))[m] <= multiset(s.q.pushed)[m] <= multiset(Calls(actions))[m])
      && (policy == BlockRetry && (forall t :: t in s.q.threads ==> t == WORKER) ==>
            multiset(s.q.pushed)[m] == multiset(Calls(actions))[m])
  {
    hide LoggedOf, ActAll, Trying, Inv, WorkerInv, Begin, Calls;
    CallsAreAccounted(size, levels, policy, actions, m);
    BeginIs(size, levels, policy);
    BeginInv(size, levels, policy);
    ActAllKeepsInv(Begin(size, levels, policy), actions);
    PolicyFixed(Begin(size, levels, policy), actions);
    var s := ActAll(Begin(size, levels, policy), actions).value;
    forall k | 0 <= k < |levels| ensures multiset(LoggedOf(s.worker.outputs[k]))[m] <= multiset(s.q.pushed)[m] {
      SinksSeeNoMore(s, k, m);
    }
    if forall t :: t in s.q.threads ==> t == WORKER {
      NobodyTries(s, m);
    }
  }
}
