/** The bounded queue shared by any number of producers and consumers, as an interleaving of single
    atomic accesses. A thread inside `enqueue` or `dequeue` is a program counter with its local
    variables; every load, store and compare-and-swap is one step of one thread. */
module MpmcQueue {
  import opened Arithmetic
  import opened Wrappers

  type Tid = nat

  /** One element of the ring. `data` is None before the first write and after a move out. */
  datatype Cell<+T> = Cell(sequence: nat, data: Option<T>)

  /** Where a thread is, with its locals. `pos` is the position it loaded, which becomes its ticket
      once its compare-and-swap succeeds. */
  datatype Pc<+T> =
    | EnqLoad(item: T)
    | EnqReadSeq(item: T, pos: nat)
    | EnqCas(item: T, pos: nat)
    | EnqMove(item: T, pos: nat)
    | EnqPublish(item: T, pos: nat)
    | EnqDone(item: T, pos: nat, ok: bool)
    | DeqLoad
    | DeqReadSeq(pos: nat)
    | DeqCas(pos: nat)
    | DeqMove(pos: nat)
    | DeqRelease(pos: nat, moved: Option<T>)
    | DeqDone(pos: nat, moved: Option<T>, ok: bool)
  {
    function Ticket(): nat {
      if EnqLoad? || DeqLoad? then 0 else pos
    }
  }

  /** The shared memory and the threads that are inside a call. The last four fields are a record of
      what happened and are read by no step: ticket p was won by `producers[p]` carrying `pushed[p]`,
      and by `consumers[p]`, which took `received[p]` out of the cell. */
  datatype State<T> = State(
    cells: seq<Cell<T>>, enqueuePos: nat, dequeuePos: nat, threads: map<Tid, Pc<T>>,
    pushed: seq<T>, producers: seq<Tid>, consumers: seq<Tid>, received: map<nat, Option<T>>)
  {
    function Size(): nat {
      |cells|
    }

    function CellAt(pos: nat): Cell<T>
      requires Size() > 0
    {
      cells[pos % Size()]
    }

    function Goto(t: Tid, pc: Pc<T>): State<T> {
      this.(threads := threads[t := pc])
    }
  }

  datatype Step<+T> =
    | StartEnqueue(tid: Tid, item: T)
    | StartDequeue(tid: Tid)
    | Advance(tid: Tid, spurious: bool)  // the next access of a thread; the weak CAS may fail spuriously
    | Return(tid: Tid)

  function Init<T>(size: nat): State<T> {
    State(seq(size, i requires 0 <= i < size => Cell(i, None)), 0, 0, map[], [], [], [], map[])
  }

  predicate Finished<T>(pc: Pc<T>) {
    pc.EnqDone? || pc.DeqDone?
  }

  predicate Enabled<T>(s: State<T>, step: Step<T>) {
    match step
    case StartEnqueue(t, _) => t !in s.threads
    case StartDequeue(t) => t !in s.threads
    case Advance(t, _) => t in s.threads && !Finished(s.threads[t])
    case Return(t) => t in s.threads && Finished(s.threads[t])
  }

  predicate IsEnqueue<T>(pc: Pc<T>) {
    pc.EnqLoad? || pc.EnqReadSeq? || pc.EnqCas? || pc.EnqMove? || pc.EnqPublish? || pc.EnqDone?
  }

  function AdvanceEnqueue<T>(s: State<T>, t: Tid, spurious: bool): State<T>
    requires s.Size() > 0 && t in s.threads && !Finished(s.threads[t]) && IsEnqueue(s.threads[t])
  {
    match s.threads[t]
    case EnqLoad(item) => s.Goto(t, EnqReadSeq(item, s.enqueuePos))
    case EnqReadSeq(item, pos) =>
      var sequence := s.CellAt(pos).sequence;
      if sequence == pos then s.Goto(t, EnqCas(item, pos))
      else if sequence < pos then s.Goto(t, EnqDone(item, pos, false))
      else s.Goto(t, EnqLoad(item))
    case EnqCas(item, pos) =>
      if s.enqueuePos != pos || spurious then s.Goto(t, EnqReadSeq(item, s.enqueuePos))
      else s.Goto(t, EnqMove(item, pos)).(enqueuePos := pos + 1, pushed := s.pushed + [item],
        producers := s.producers + [t])
    case EnqMove(item, pos) =>
      s.Goto(t, EnqPublish(item, pos)).(cells := s.cells[pos % s.Size() := s.CellAt(pos).(data := Some(item))])
    case EnqPublish(item, pos) =>
      s.Goto(t, EnqDone(item, pos, true)).(cells := s.cells[pos % s.Size() := s.CellAt(pos).(sequence := pos + 1)])
  }

  function AdvanceDequeue<T>(s: State<T>, t: Tid, spurious: bool): State<T>
    requires s.Size() > 0 && t in s.threads && !Finished(s.threads[t]) && !IsEnqueue(s.threads[t])
  {
    match s.threads[t]
    case DeqLoad => s.Goto(t, DeqReadSeq(s.dequeuePos))
    case DeqReadSeq(pos) =>
      var sequence := s.CellAt(pos).sequence;
      if sequence == pos + 1 then s.Goto(t, DeqCas(pos))
      else if sequence < pos + 1 then s.Goto(t, DeqDone(pos, None, false))
      else s.Goto(t, DeqLoad)
    case DeqCas(pos) =>
      if s.dequeuePos != pos || spurious then s.Goto(t, DeqReadSeq(s.dequeuePos))
      else s.Goto(t, DeqMove(pos)).(dequeuePos := pos + 1, consumers := s.consumers + [t])
    case DeqMove(pos) =>
      s.Goto(t, DeqRelease(pos, s.CellAt(pos).data))
      .(cells := s.cells[pos % s.Size() := s.CellAt(pos).(data := None)],
        received := s.received[pos := s.CellAt(pos).data])
    case DeqRelease(pos, moved) =>
      s.Goto(t, DeqDone(pos, moved, true))
      .(cells := s.cells[pos % s.Size() := s.CellAt(pos).(sequence := pos + s.Size())])
  }

  function Apply<T>(s: State<T>, step: Step<T>): State<T>
    requires s.Size() > 0 && Enabled(s, step)
  {
    match step
    case StartEnqueue(t, item) => s.Goto(t, EnqLoad(item))
    case StartDequeue(t) => s.Goto(t, DeqLoad)
    case Advance(t, spurious) =>
      if IsEnqueue(s.threads[t]) then AdvanceEnqueue(s, t, spurious) else AdvanceDequeue(s, t, spurious)
    case Return(t) => s.(threads := s.threads - {t})
  }

  /** The state after a run, or None when some step was not possible. */
  function Exec<T>(size: nat, steps: seq<Step<T>>): (r: Option<State<T>>)
    requires size > 0
    ensures r.Some? ==> r.value.Size() == size
  {
    if steps == [] then Some(Init(size)) else
      var last := |steps| - 1;
      match Exec(size, steps[..last])
      case None => None
      case Some(s) => if Enabled(s, steps[last]) then Some(Apply(s, steps[last])) else None
  }

  // Tickets

  predicate HoldsEnq<T>(pc: Pc<T>, p: nat) {
    (pc.EnqMove? || pc.EnqPublish?) && pc.pos == p
  }

  /** The producer of ticket p has claimed it but not yet published the item. */
  predicate Producing<T>(s: State<T>, p: nat) {
    p < |s.producers| && s.producers[p] in s.threads && HoldsEnq(s.threads[s.producers[p]], p)
  }

  predicate HoldsDeq<T>(pc: Pc<T>, p: nat) {
    (pc.DeqMove? || pc.DeqRelease?) && pc.pos == p
  }

  /** The consumer of ticket p has claimed it but not yet released the cell. */
  predicate Consuming<T>(s: State<T>, p: nat) {
    p < |s.consumers| && s.consumers[p] in s.threads && HoldsDeq(s.threads[s.consumers[p]], p)
  }

  /** The consumer of ticket p has claimed it but not yet moved the item out. */
  predicate Moving<T>(s: State<T>, p: nat) {
    p < |s.consumers| && s.consumers[p] in s.threads && s.threads[s.consumers[p]] == DeqMove(p)
  }

  predicate Published<T>(s: State<T>, p: nat) {
    p < s.enqueuePos && !Producing(s, p)
  }

  predicate Released<T>(s: State<T>, p: nat) {
    p < s.dequeuePos && !Consuming(s, p)
  }

  // The invariant

  ghost predicate Free<T>(s: State<T>, i: nat, p: nat)
    requires 0 <= i < s.Size()
  {
    && p % s.Size() == i
    && s.dequeuePos <= p < s.dequeuePos + s.Size()
    && s.enqueuePos <= p + s.Size()
    && (p < s.enqueuePos ==> Producing(s, p))
  }

  ghost predicate Full<T>(s: State<T>, i: nat, p: nat)
    requires 0 <= i < s.Size()
  {
    && p % s.Size() == i
    && p < s.enqueuePos <= p + s.Size()
    && (p < s.dequeuePos ==> Consuming(s, p))
    && (p >= s.dequeuePos || Moving(s, p) ==> p < |s.pushed| && s.cells[i].data == Some(s.pushed[p]))
  }

  /** Cell i either waits for the producer of some ticket, or holds the item of a published one. */
  ghost predicate CellOk<T>(s: State<T>, i: nat)
    requires 0 <= i < s.Size()
  {
    Free(s, i, s.cells[i].sequence) || (s.cells[i].sequence > 0 && Full(s, i, s.cells[i].sequence - 1))
  }

  ghost predicate OwnsEnq<T>(s: State<T>, t: Tid, item: T, pos: nat)
    requires s.Size() > 0
  {
    pos < |s.producers| && pos < |s.pushed| && s.producers[pos] == t && s.pushed[pos] == item
      && s.CellAt(pos).sequence == pos
  }

  ghost predicate OwnsDeq<T>(s: State<T>, t: Tid, pos: nat)
    requires s.Size() > 0
  {
    pos < |s.consumers| && s.consumers[pos] == t && s.CellAt(pos).sequence == pos + 1
  }

  ghost predicate ThreadOk<T>(s: State<T>, t: Tid)
    requires s.Size() > 0 && t in s.threads
  {
    match s.threads[t]
    case EnqLoad(_) => true
    case EnqReadSeq(_, pos) => pos <= s.enqueuePos
    case EnqCas(_, pos) => pos <= s.enqueuePos && (pos == s.enqueuePos ==> s.CellAt(pos).sequence == pos)
    case EnqMove(item, pos) => OwnsEnq(s, t, item, pos)
    case EnqPublish(item, pos) => OwnsEnq(s, t, item, pos) && s.CellAt(pos).data == Some(item)
    case EnqDone(item, pos, ok) => ok ==>
      pos < |s.pushed| && pos < |s.producers| && s.pushed[pos] == item && s.producers[pos] == t
    case DeqLoad => true
    case DeqReadSeq(pos) => pos <= s.dequeuePos
    case DeqCas(pos) => pos <= s.dequeuePos && (pos == s.dequeuePos ==> s.CellAt(pos).sequence == pos + 1)
    case DeqMove(pos) => OwnsDeq(s, t, pos)
    case DeqRelease(pos, moved) => OwnsDeq(s, t, pos) && pos < |s.pushed| && moved == Some(s.pushed[pos])
    case DeqDone(pos, moved, ok) =>
      ok ==> pos < |s.consumers| && s.consumers[pos] == t && pos < |s.pushed| && moved == Some(s.pushed[pos])
  }

  ghost predicate Inv<T>(s: State<T>) {
    && s.Size() >= 2
    && |s.pushed| == |s.producers| == s.enqueuePos
    && |s.consumers| == s.dequeuePos
    && s.dequeuePos <= s.enqueuePos <= s.dequeuePos + s.Size()
    && (forall i :: 0 <= i < s.Size() ==> CellOk(s, i))
    && (forall t :: t in s.threads ==> ThreadOk(s, t))
    && (forall p :: p in s.received <==> 0 <= p < s.dequeuePos && !Moving(s, p))
    && (forall p :: p in s.received ==> p < |s.pushed| && s.received[p] == Some(s.pushed[p]))
  }

  predicate Holds<T>(pc: Pc<T>) {
    pc.EnqMove? || pc.EnqPublish? || pc.DeqMove? || pc.DeqRelease?
  }

  /** Nothing changes but thread t, which owns no cell before or after: it may come, go or move on. */
  ghost predicate OnlyThread<T>(s: State<T>, s': State<T>, t: Tid) {
    && s' == s.(threads := s'.threads)
    && (forall u :: u != t ==>
          (u in s.threads <==> u in s'.threads) && (u in s.threads ==> s'.threads[u] == s.threads[u]))
    && (t in s.threads ==> !Holds(s.threads[t]))
    && (t in s'.threads ==> !Holds(s'.threads[t]))
  }

  lemma OnlyThreadKeepsTickets<T>(s: State<T>, s': State<T>, t: Tid, p: nat)
    requires OnlyThread(s, s', t)
    ensures Producing(s', p) == Producing(s, p) && Consuming(s', p) == Consuming(s, p) && Moving(s', p) == Moving(s, p)
  {
  }

  lemma OnlyThreadKeepsCell<T>(s: State<T>, s': State<T>, t: Tid, i: nat)
    requires OnlyThread(s, s', t) && i < s.Size() && CellOk(s, i)
    ensures CellOk(s', i)
  {
    hide Producing, Consuming, Moving;
    forall p: nat
      ensures Producing(s', p) == Producing(s, p) && Consuming(s', p) == Consuming(s, p)
      ensures Moving(s', p) == Moving(s, p)
    {
      OnlyThreadKeepsTickets(s, s', t, p);
    }
  }

  lemma OnlyThreadKeepsOthers<T>(s: State<T>, s': State<T>, t: Tid, u: Tid)
    requires OnlyThread(s, s', t) && s.Size() > 0 && u != t && u in s.threads && ThreadOk(s, u)
    ensures ThreadOk(s', u)
  {
  }

  lemma OnlyThreadKeepsInv<T>(s: State<T>, s': State<T>, t: Tid)
    requires Inv(s) && OnlyThread(s, s', t) && (t in s'.threads ==> ThreadOk(s', t))
    ensures Inv(s')
  {
    hide Producing, Consuming, Moving, CellOk, ThreadOk;
    forall p: nat
      ensures Producing(s', p) == Producing(s, p) && Consuming(s', p) == Consuming(s, p)
      ensures Moving(s', p) == Moving(s, p)
    {
      OnlyThreadKeepsTickets(s, s', t, p);
    }
    forall i | 0 <= i < s'.Size() ensures CellOk(s', i) { OnlyThreadKeepsCell(s, s', t, i); }
    forall u | u in s'.threads ensures ThreadOk(s', u) {
      if u != t { OnlyThreadKeepsOthers(s, s', t, u); }
    }
  }

  lemma StartReturnKeepsInv<T>(s: State<T>, step: Step<T>)
    requires Inv(s) && Enabled(s, step) && !step.Advance?
    ensures Inv(Apply(s, step))
  {
    OnlyThreadKeepsInv(s, Apply(s, step), step.tid);
  }

  /** A step that only changes the locals of one thread, which owns no cell before or after. */
  lemma LocalStepKeepsInv<T>(s: State<T>, t: Tid, pc: Pc<T>)
    requires Inv(s) && t in s.threads && !Holds(s.threads[t]) && !Holds(pc)
    requires ThreadOk(s.Goto(t, pc), t)
    ensures Inv(s.Goto(t, pc))
  {
    OnlyThreadKeepsInv(s, s.Goto(t, pc), t);
  }

  /** A cell whose sequence equals an unclaimed position is waiting for that ticket. */
  lemma SequenceAtTicket<T>(s: State<T>, pos: nat)
    requires Inv(s) && s.CellAt(pos).sequence == pos
    ensures Free(s, pos % s.Size(), pos)
  {
    assert CellOk(s, pos % s.Size());
    if pos > 0 {
      NextRemainder(pos - 1, s.Size());
    }
  }

  lemma WinEnqueueCell<T>(s: State<T>, s': State<T>, i: nat)
    requires s.Size() >= 2 && i < s.Size() && CellOk(s, i)
    requires s'.cells == s.cells && s'.dequeuePos == s.dequeuePos && s'.enqueuePos == s.enqueuePos + 1
    requires |s.pushed| == s.enqueuePos && |s'.pushed| == s'.enqueuePos && s'.pushed[..s.enqueuePos] == s.pushed
    requires s.CellAt(s.enqueuePos).sequence == s.enqueuePos < s.dequeuePos + s.Size()
    requires forall p: nat :: Producing(s', p) == (Producing(s, p) || p == s.enqueuePos)
    requires forall p: nat :: Consuming(s', p) == Consuming(s, p) && Moving(s', p) == Moving(s, p)
    ensures CellOk(s', i)
  {
    var q := s.cells[i].sequence;
    if Free(s, i, q) {
      AddModulus(q, s.Size());
      assert Free(s', i, q);
    } else {
      AddModulus(q - 1, s.Size());
      assert Full(s', i, q - 1);
    }
  }

  lemma WinEnqueueKeepsInv<T>(s: State<T>, t: Tid)
    requires Inv(s) && t in s.threads && s.threads[t].EnqCas? && s.threads[t].pos == s.enqueuePos
    ensures Inv(AdvanceEnqueue(s, t, false))
  {
    var s' := AdvanceEnqueue(s, t, false);
    var pos := s.enqueuePos;
    assert ThreadOk(s, t);
    SequenceAtTicket(s, pos);
    forall p: nat ensures Producing(s', p) == (Producing(s, p) || p == pos) {
    }
    forall p: nat ensures Consuming(s', p) == Consuming(s, p) && Moving(s', p) == Moving(s, p) {
    }
    forall i | 0 <= i < s.Size() ensures CellOk(s', i) {
      assert CellOk(s, i);
      WinEnqueueCell(s, s', i);
    }
    forall u | u in s'.threads ensures ThreadOk(s', u) { assert ThreadOk(s, u); }
  }

  /** A cell whose sequence is one past a position holds that ticket's item. */
  lemma SequencePastTicket<T>(s: State<T>, pos: nat)
    requires Inv(s) && s.CellAt(pos).sequence == pos + 1
    ensures Full(s, pos % s.Size(), pos)
  {
    assert CellOk(s, pos % s.Size());
    NextRemainder(pos, s.Size());
  }

  lemma WinDequeueCell<T>(s: State<T>, s': State<T>, i: nat)
    requires s.Size() >= 2 && i < s.Size() && CellOk(s, i)
    requires s'.cells == s.cells && s'.dequeuePos == s.dequeuePos + 1 && s'.enqueuePos == s.enqueuePos
    requires s'.pushed == s.pushed
    requires s.CellAt(s.dequeuePos).sequence == s.dequeuePos + 1
    requires forall p: nat :: Producing(s', p) == Producing(s, p)
    requires forall p: nat :: Consuming(s', p) == (Consuming(s, p) || p == s.dequeuePos)
    requires forall p: nat :: Moving(s', p) == (Moving(s, p) || p == s.dequeuePos)
    ensures CellOk(s', i)
  {
    var q := s.cells[i].sequence;
    if Free(s, i, q) {
      assert Free(s', i, q);
    } else {
      assert Full(s', i, q - 1);
    }
  }

  /** The ticket that the consumer wins is published. */
  lemma WinDequeueSequence<T>(s: State<T>, t: Tid)
    requires Inv(s) && t in s.threads && s.threads[t].DeqCas? && s.threads[t].pos == s.dequeuePos
    ensures s.CellAt(s.dequeuePos).sequence == s.dequeuePos + 1 && s.dequeuePos < s.enqueuePos
  {
    hide CellOk;
    assert ThreadOk(s, t);
    SequencePastTicket(s, s.dequeuePos);
  }

  lemma WinDequeueTickets<T>(s: State<T>, t: Tid, p: nat)
    requires s.Size() > 0 && t in s.threads && s.threads[t].DeqCas? && s.threads[t].pos == s.dequeuePos
    requires |s.consumers| == s.dequeuePos
    ensures var s' := AdvanceDequeue(s, t, false);
      Producing(s', p) == Producing(s, p) && Consuming(s', p) == (Consuming(s, p) || p == s.dequeuePos)
        && Moving(s', p) == (Moving(s, p) || p == s.dequeuePos)
  {
  }

  lemma WinDequeueThread<T>(s: State<T>, t: Tid, u: Tid)
    requires Inv(s) && t in s.threads && s.threads[t].DeqCas? && s.threads[t].pos == s.dequeuePos && u in s.threads
    ensures ThreadOk(AdvanceDequeue(s, t, false), u)
  {
    hide CellOk;
    assert ThreadOk(s, t) && ThreadOk(s, u);
  }

  lemma WinDequeueKeepsInv<T>(s: State<T>, t: Tid)
    requires Inv(s) && t in s.threads && s.threads[t].DeqCas? && s.threads[t].pos == s.dequeuePos
    ensures Inv(AdvanceDequeue(s, t, false))
  {
    hide Producing, Consuming, Moving, CellOk, ThreadOk;
    var s' := AdvanceDequeue(s, t, false);
    WinDequeueSequence(s, t);
    forall p: nat
      ensures Producing(s', p) == Producing(s, p) && Consuming(s', p) == (Consuming(s, p) || p == s.dequeuePos)
      ensures Moving(s', p) == (Moving(s, p) || p == s.dequeuePos)
    {
      WinDequeueTickets(s, t, p);
    }
    forall i | 0 <= i < s'.Size() ensures CellOk(s', i) { WinDequeueCell(s, s', i); }
    forall u | u in s'.threads ensures ThreadOk(s', u) { WinDequeueThread(s, t, u); }
  }

  /** A cell that is not written stays as it is, if nothing changes for the tickets that use it. */
  lemma CellStays<T>(s: State<T>, s': State<T>, i: nat)
    requires s'.Size() == s.Size() > 0 && i < s.Size() && s'.cells[i] == s.cells[i] && CellOk(s, i)
    requires s'.enqueuePos == s.enqueuePos && s'.dequeuePos == s.dequeuePos && s'.pushed == s.pushed
    requires forall p: nat :: p % s.Size() == i ==>
      Producing(s', p) == Producing(s, p) && Consuming(s', p) == Consuming(s, p) && Moving(s', p) == Moving(s, p)
    ensures CellOk(s', i)
  {
    hide Producing, Consuming, Moving;
    if Free(s, i, s.cells[i].sequence) {
      assert Free(s', i, s.cells[i].sequence);
    } else {
      assert Full(s', i, s.cells[i].sequence - 1);
    }
  }

  lemma MoveInCell<T>(s: State<T>, s': State<T>, t: Tid, i: nat)
    requires Inv(s) && t in s.threads && s.threads[t].EnqMove? && i < s.Size()
    requires s' == AdvanceEnqueue(s, t, false)
    requires forall p: nat :: Producing(s', p) == Producing(s, p) && Consuming(s', p) == Consuming(s, p)
    requires forall p: nat :: Moving(s', p) == Moving(s, p)
    ensures CellOk(s', i)
  {
    hide Producing, Consuming, Moving;
    var pos := s.threads[t].pos;
    assert ThreadOk(s, t) && CellOk(s, i);
    if i == pos % s.Size() {
      SequenceAtTicket(s, pos);
      assert Free(s', i, pos);
    } else {
      CellStays(s, s', i);
    }
  }

  ghost predicate Relies<T>(s: State<T>, u: Tid)
    requires s.Size() > 0 && u in s.threads
  {
    match s.threads[u]
    case EnqCas(_, pos) => pos == s.enqueuePos
    case DeqCas(pos) => pos == s.dequeuePos
    case pc => Holds(pc)
  }

  /** While a thread holds a ticket, no other thread relies on the sequence of its cell. */
  lemma OtherUsersAway<T>(s: State<T>, t: Tid, u: Tid)
    requires Inv(s) && t in s.threads && u in s.threads && t != u && Holds(s.threads[t])
    ensures Relies(s, u) ==> s.threads[u].pos % s.Size() != s.threads[t].pos % s.Size()
  {
    assert ThreadOk(s, t) && ThreadOk(s, u);
    if Relies(s, u) {
      NextRemainder(s.threads[u].pos, s.Size());
      NextRemainder(s.threads[t].pos, s.Size());
    }
  }

  lemma MoveInThread<T>(s: State<T>, t: Tid, u: Tid)
    requires Inv(s) && t in s.threads && s.threads[t].EnqMove? && u in s.threads
    ensures ThreadOk(AdvanceEnqueue(s, t, false), u)
  {
    hide CellOk;
    assert ThreadOk(s, t) && ThreadOk(s, u);
    if u != t { OtherUsersAway(s, t, u); }
  }

  lemma MoveInKeepsInv<T>(s: State<T>, t: Tid)
    requires Inv(s) && t in s.threads && s.threads[t].EnqMove?
    ensures Inv(AdvanceEnqueue(s, t, false))
  {
    hide CellOk, ThreadOk;
    var s' := AdvanceEnqueue(s, t, false);
    forall p: nat
      ensures Producing(s', p) == Producing(s, p) && Consuming(s', p) == Consuming(s, p)
      ensures Moving(s', p) == Moving(s, p)
    {
    }
    forall i | 0 <= i < s.Size() ensures CellOk(s', i) { MoveInCell(s, s', t, i); }
    forall u | u in s'.threads ensures ThreadOk(s', u) { MoveInThread(s, t, u); }
  }

  /** A step by which thread t gives up its ticket and writes only the sequence of its cell. */
  lemma HandOverKeepsThreads<T>(s: State<T>, s': State<T>, t: Tid, u: Tid)
    requires Inv(s) && t in s.threads && u in s.threads && t != u
    requires s.threads[t].EnqPublish? || s.threads[t].DeqRelease?
    requires s'.threads.Keys == s.threads.Keys && s'.threads[u] == s.threads[u]
    requires s'.enqueuePos == s.enqueuePos && s'.dequeuePos == s.dequeuePos
    requires s'.pushed == s.pushed && s'.producers == s.producers && s'.consumers == s.consumers
    requires s'.Size() == s.Size()
    requires forall i :: 0 <= i < s.Size() && i != s.threads[t].pos % s.Size() ==> s'.cells[i] == s.cells[i]
    ensures ThreadOk(s', u)
  {
    assert ThreadOk(s, t) && ThreadOk(s, u);
    OtherUsersAway(s, t, u);
  }

  lemma PublishCell<T>(s: State<T>, s': State<T>, t: Tid, i: nat)
    requires Inv(s) && t in s.threads && s.threads[t].EnqPublish? && i < s.Size()
    requires s' == AdvanceEnqueue(s, t, false)
    requires forall p: nat :: Producing(s', p) == (Producing(s, p) && p != s.threads[t].pos)
    requires forall p: nat :: Consuming(s', p) == Consuming(s, p) && Moving(s', p) == Moving(s, p)
    ensures CellOk(s', i)
  {
    hide Producing, Consuming, Moving;
    var pos := s.threads[t].pos;
    assert ThreadOk(s, t) && CellOk(s, i);
    if i == pos % s.Size() {
      SequenceAtTicket(s, pos);
      assert Full(s', i, pos);
    } else {
      CellStays(s, s', i);
    }
  }

  lemma PublishKeepsInv<T>(s: State<T>, t: Tid)
    requires Inv(s) && t in s.threads && s.threads[t].EnqPublish?
    ensures Inv(AdvanceEnqueue(s, t, false))
  {
    var s' := AdvanceEnqueue(s, t, false);
    var pos := s.threads[t].pos;
    assert ThreadOk(s, t);
    forall p: nat ensures Producing(s', p) == (Producing(s, p) && p != pos) {
    }
    forall p: nat ensures Consuming(s', p) == Consuming(s, p) && Moving(s', p) == Moving(s, p) {
    }
    forall i | 0 <= i < s.Size() ensures CellOk(s', i) { PublishCell(s, s', t, i); }
    forall u | u in s'.threads ensures ThreadOk(s', u) {
      if u != t { HandOverKeepsThreads(s, s', t, u); }
    }
  }

  lemma MoveOutCell<T>(s: State<T>, s': State<T>, t: Tid, i: nat)
    requires Inv(s) && t in s.threads && s.threads[t].DeqMove? && i < s.Size()
    requires s' == AdvanceDequeue(s, t, false)
    requires forall p: nat :: Producing(s', p) == Producing(s, p) && Consuming(s', p) == Consuming(s, p)
    requires forall p: nat :: Moving(s', p) == (Moving(s, p) && p != s.threads[t].pos)
    ensures CellOk(s', i)
  {
    hide Producing, Consuming, Moving;
    var pos := s.threads[t].pos;
    assert ThreadOk(s, t) && CellOk(s, i);
    if i == pos % s.Size() {
      SequencePastTicket(s, pos);
      assert Full(s', i, pos);
    } else {
      CellStays(s, s', i);
    }
  }

  lemma MoveOutThread<T>(s: State<T>, t: Tid, u: Tid)
    requires Inv(s) && t in s.threads && s.threads[t].DeqMove? && u in s.threads
    ensures ThreadOk(AdvanceDequeue(s, t, false), u)
  {
    assert ThreadOk(s, t) && ThreadOk(s, u);
    SequencePastTicket(s, s.threads[t].pos);
    if u != t { OtherUsersAway(s, t, u); }
  }

  lemma MoveOutTickets<T>(s: State<T>, t: Tid, p: nat)
    requires s.Size() > 0 && t in s.threads && s.threads[t].DeqMove? && ThreadOk(s, t)
    ensures var s' := AdvanceDequeue(s, t, false);
      Producing(s', p) == Producing(s, p) && Consuming(s', p) == Consuming(s, p)
        && Moving(s', p) == (Moving(s, p) && p != s.threads[t].pos)
  {
  }

  /** The item moved out is the one its producer brought in. */
  lemma MoveOutReceived<T>(s: State<T>, t: Tid)
    requires Inv(s) && t in s.threads && s.threads[t].DeqMove?
    ensures var pos := s.threads[t].pos;
      pos < s.dequeuePos && Moving(s, pos) && pos < |s.pushed| && s.CellAt(pos).data == Some(s.pushed[pos])
  {
    hide CellOk;
    assert ThreadOk(s, t);
    assert Moving(s, s.threads[t].pos);
    SequencePastTicket(s, s.threads[t].pos);
  }

  lemma MoveOutKeepsInv<T>(s: State<T>, t: Tid)
    requires Inv(s) && t in s.threads && s.threads[t].DeqMove?
    ensures Inv(AdvanceDequeue(s, t, false))
  {
    hide Producing, Consuming, Moving, CellOk, ThreadOk;
    var s' := AdvanceDequeue(s, t, false);
    var pos := s.threads[t].pos;
    MoveOutReceived(s, t);
    forall p: nat
      ensures Producing(s', p) == Producing(s, p) && Consuming(s', p) == Consuming(s, p)
      ensures Moving(s', p) == (Moving(s, p) && p != pos)
    {
      MoveOutTickets(s, t, p);
    }
    forall i | 0 <= i < s'.Size() ensures CellOk(s', i) { MoveOutCell(s, s', t, i); }
    forall u | u in s'.threads ensures ThreadOk(s', u) { MoveOutThread(s, t, u); }
  }

  lemma ReleaseCell<T>(s: State<T>, s': State<T>, t: Tid, i: nat)
    requires Inv(s) && t in s.threads && s.threads[t].DeqRelease? && i < s.Size()
    requires s' == AdvanceDequeue(s, t, false)
    requires forall p: nat :: Consuming(s', p) == (Consuming(s, p) && p != s.threads[t].pos)
    requires forall p: nat :: Producing(s', p) == Producing(s, p) && Moving(s', p) == Moving(s, p)
    ensures CellOk(s', i)
  {
    hide Producing, Consuming, Moving;
    var pos := s.threads[t].pos;
    assert ThreadOk(s, t) && CellOk(s, i);
    if i == pos % s.Size() {
      SequencePastTicket(s, pos);
      AddModulus(pos, s.Size());
      assert Free(s', i, pos + s.Size());
    } else {
      CellStays(s, s', i);
    }
  }

  lemma ReleaseKeepsInv<T>(s: State<T>, t: Tid)
    requires Inv(s) && t in s.threads && s.threads[t].DeqRelease?
    ensures Inv(AdvanceDequeue(s, t, false))
  {
    var s' := AdvanceDequeue(s, t, false);
    var pos := s.threads[t].pos;
    assert ThreadOk(s, t);
    forall p: nat ensures Consuming(s', p) == (Consuming(s, p) && p != pos) {
    }
    forall p: nat ensures Producing(s', p) == Producing(s, p) && Moving(s', p) == Moving(s, p) {
    }
    forall i | 0 <= i < s.Size() ensures CellOk(s', i) { ReleaseCell(s, s', t, i); }
    forall u | u in s'.threads ensures ThreadOk(s', u) {
      if u != t { HandOverKeepsThreads(s, s', t, u); }
    }
  }

  lemma InitInv<T>(size: nat)
    requires size >= 2
    ensures Inv(Init<T>(size))
  {
    var s := Init<T>(size);
    forall i | 0 <= i < size ensures CellOk(s, i) {
      ModUnique(i, size, 0, i);
      assert Free(s, i, i);
    }
  }

  lemma EnqueueLocalKeepsInv<T>(s: State<T>, t: Tid)
    requires Inv(s) && t in s.threads && (s.threads[t].EnqLoad? || s.threads[t].EnqReadSeq?)
    ensures Inv(AdvanceEnqueue(s, t, false))
  {
    assert ThreadOk(s, t);
    LocalStepKeepsInv(s, t, AdvanceEnqueue(s, t, false).threads[t]);
  }

  lemma EnqueueStepKeepsInv<T>(s: State<T>, t: Tid, spurious: bool)
    requires Inv(s) && t in s.threads && !Finished(s.threads[t]) && IsEnqueue(s.threads[t])
    ensures Inv(AdvanceEnqueue(s, t, spurious))
  {
    match s.threads[t] {
      case EnqCas(item, pos) =>
        if pos == s.enqueuePos && !spurious {
          WinEnqueueKeepsInv(s, t);
        } else {
          LocalStepKeepsInv(s, t, EnqReadSeq(item, s.enqueuePos));
        }
      case EnqMove(_, _) => MoveInKeepsInv(s, t);
      case EnqPublish(_, _) => PublishKeepsInv(s, t);
      case _ => EnqueueLocalKeepsInv(s, t);
    }
  }

  lemma DequeueLocalKeepsInv<T>(s: State<T>, t: Tid)
    requires Inv(s) && t in s.threads && (s.threads[t].DeqLoad? || s.threads[t].DeqReadSeq?)
    ensures Inv(AdvanceDequeue(s, t, false))
  {
    assert ThreadOk(s, t);
    LocalStepKeepsInv(s, t, AdvanceDequeue(s, t, false).threads[t]);
  }

  lemma DequeueStepKeepsInv<T>(s: State<T>, t: Tid, spurious: bool)
    requires Inv(s) && t in s.threads && !Finished(s.threads[t]) && !IsEnqueue(s.threads[t])
    ensures Inv(AdvanceDequeue(s, t, spurious))
  {
    match s.threads[t] {
      case DeqCas(pos) =>
        if pos == s.dequeuePos && !spurious {
          WinDequeueKeepsInv(s, t);
        } else {
          LocalStepKeepsInv(s, t, DeqReadSeq(s.dequeuePos));
        }
      case DeqMove(_) => MoveOutKeepsInv(s, t);
      case DeqRelease(_, _) => ReleaseKeepsInv(s, t);
      case _ => DequeueLocalKeepsInv(s, t);
    }
  }

  lemma StepKeepsInv<T>(s: State<T>, step: Step<T>)
    requires Inv(s) && Enabled(s, step)
    ensures Inv(Apply(s, step))
  {
    match step {
      case Advance(t, spurious) =>
        if IsEnqueue(s.threads[t]) {
          EnqueueStepKeepsInv(s, t, spurious);
        } else {
          DequeueStepKeepsInv(s, t, spurious);
        }
      case _ => StartReturnKeepsInv(s, step);
    }
  }

  /** The invariant holds after every run, of any length and in any interleaving. */
  lemma {:induction false} RunKeepsInv<T>(size: nat, steps: seq<Step<T>>)
    requires size >= 2 && Exec(size, steps).Some?
    ensures Inv(Exec(size, steps).value)
  {
    if steps == [] {
      InitInv<T>(size);
    } else {
      var last := |steps| - 1;
      RunKeepsInv(size, steps[..last]);
      StepKeepsInv(Exec(size, steps[..last]).value, steps[last]);
    }
  }

  // What the invariant means for callers

  /** Every run: what the consumer of ticket p took is what the producer of ticket p brought, and every
      consumer's call that succeeded returns the item of the ticket it won. */
  lemma ConsumersGetTheirTicket<T>(size: nat, steps: seq<Step<T>>, p: nat, t: Tid)
    requires size >= 2 && Exec(size, steps).Some?
    ensures var s := Exec(size, steps).value;
      && (p in s.received ==> p < s.dequeuePos && p < |s.pushed| && s.received[p] == Some(s.pushed[p]))
      && (p < s.dequeuePos && p !in s.received ==> Moving(s, p))
      && (t in s.threads && s.threads[t].DeqDone? && s.threads[t].ok ==>
            var pos := s.threads[t].pos;
            pos < |s.consumers| && s.consumers[pos] == t && pos in s.received && s.threads[t].moved == s.received[pos])
  {
    RunKeepsInv(size, steps);
    var s := Exec(size, steps).value;
    if t in s.threads {
      assert ThreadOk(s, t);
    }
  }

  /** Every run: the positions never cross and are never more than the ring apart. */
  lemma PositionsStayInWindow<T>(size: nat, steps: seq<Step<T>>)
    requires size >= 2 && Exec(size, steps).Some?
    ensures var s := Exec(size, steps).value; s.dequeuePos <= s.enqueuePos <= s.dequeuePos + size
  {
    RunKeepsInv(size, steps);
  }

  /** Every run: two threads that are between their claim and their release never work on one cell. */
  lemma CellsHaveOneOwner<T>(size: nat, steps: seq<Step<T>>, t: Tid, u: Tid)
    requires size >= 2 && Exec(size, steps).Some?
    requires var s := Exec(size, steps).value;
      t in s.threads && u in s.threads && t != u && Holds(s.threads[t]) && Holds(s.threads[u])
    ensures var s := Exec(size, steps).value; s.threads[t].pos % size != s.threads[u].pos % size
  {
    RunKeepsInv(size, steps);
    OtherUsersAway(Exec(size, steps).value, t, u);
  }

  /** The tickets of a cell before its current one are finished, the later ones are not begun. */
  lemma ReleasedBefore<T>(s: State<T>, i: nat, p: nat)
    requires Inv(s) && i < s.Size() && p % s.Size() == i
    ensures Free(s, i, s.cells[i].sequence) ==>
      (Released(s, p) <==> p < s.cells[i].sequence) && (Published(s, p) <==> p < s.cells[i].sequence)
    ensures !Free(s, i, s.cells[i].sequence) ==>
      (Released(s, p) <==> p + 1 < s.cells[i].sequence) && (Published(s, p) <==> p < s.cells[i].sequence)
  {
    var n := s.Size();
    assert CellOk(s, i);
    var current := if Free(s, i, s.cells[i].sequence) then s.cells[i].sequence else s.cells[i].sequence - 1;
    if current < p { SameRemainder(current, p, n); }
    if p < current { SameRemainder(p, current, n); }
    if Producing(s, p) { assert ThreadOk(s, s.producers[p]); }
    if Consuming(s, p) { assert ThreadOk(s, s.consumers[p]); }
  }

  /** What a thread learns by reading the sequence of the cell of a position. Comparing with `pos` is the
      test in `enqueue`, comparing with `pos + 1` the test in `dequeue`. */
  lemma SequenceTellsTicketState<T>(s: State<T>, pos: nat)
    requires Inv(s)
    ensures var sequence := s.CellAt(pos).sequence;
      && (sequence < pos <==> pos >= s.Size() && !Released(s, pos - s.Size()))
      && (sequence == pos <==> (pos >= s.Size() ==> Released(s, pos - s.Size())) && !Published(s, pos))
      && (sequence == pos + 1 <==> Published(s, pos) && !Released(s, pos))
      && (sequence > pos + 1 <==> Released(s, pos))
  {
    var i, n := pos % s.Size(), s.Size();
    assert CellOk(s, i);
    var current := if Free(s, i, s.cells[i].sequence) then s.cells[i].sequence else s.cells[i].sequence - 1;
    ReleasedBefore(s, i, pos);
    if pos >= n {
      AddModulus(pos - n, n);
      ReleasedBefore(s, i, pos - n);
    }
    if current < pos { SameRemainder(current, pos, n); }
    if pos < current { SameRemainder(pos, current, n); }
  }

  /** No thread other than t is between its claim and its release. */
  ghost predicate OthersIdle<T>(s: State<T>, t: Tid) {
    forall u :: u in s.threads && u != t ==> !Holds(s.threads[u])
  }

  lemma NobodyHolds<T>(s: State<T>, t: Tid, p: nat)
    requires OthersIdle(s, t) && (t in s.threads ==> !Holds(s.threads[t]))
    ensures !Producing(s, p) && !Consuming(s, p)
  {
  }

  lemma EnqueueReads<T>(s: State<T>, t: Tid)
    requires s.Size() > 0 && t in s.threads && s.threads[t].EnqReadSeq?
    ensures t in AdvanceEnqueue(s, t, false).threads
    ensures AdvanceEnqueue(s, t, false).threads[t].EnqDone?
      <==> s.CellAt(s.threads[t].pos).sequence < s.threads[t].pos
  {
  }

  lemma FullWhenIdle<T>(s: State<T>, t: Tid)
    requires Inv(s) && t in s.threads && s.threads[t].EnqReadSeq? && OthersIdle(s, t)
    ensures var pos := s.threads[t].pos;
      (pos >= s.Size() && !Released(s, pos - s.Size())) <==> pos == s.enqueuePos == s.dequeuePos + s.Size()
  {
    assert ThreadOk(s, t);
    var pos := s.threads[t].pos;
    if pos >= s.Size() { NobodyHolds(s, t, pos - s.Size()); }
  }

  /** Every run, the read that decides whether `enqueue` gives up: it does exactly when the ticket one
      ring earlier is not yet released, which without other operations in flight is a full queue. */
  lemma EnqueueFailsExactlyWhenFull<T>(size: nat, steps: seq<Step<T>>, t: Tid)
    requires size >= 2 && Exec(size, steps).Some?
    requires var s := Exec(size, steps).value; t in s.threads && s.threads[t].EnqReadSeq?
    ensures var s := Exec(size, steps).value;
      var pos, fails := s.threads[t].pos, AdvanceEnqueue(s, t, false).threads[t].EnqDone?;
      && (fails <==> pos >= size && !Released(s, pos - size))
      && (OthersIdle(s, t) ==> (fails <==> pos == s.enqueuePos == s.dequeuePos + size))
  {
    hide Inv, Released, Published, OthersIdle, AdvanceEnqueue, Exec;
    RunKeepsInv(size, steps);
    var s := Exec(size, steps).value;
    EnqueueReads(s, t);
    SequenceTellsTicketState(s, s.threads[t].pos);
    if OthersIdle(s, t) { FullWhenIdle(s, t); }
  }

  /** Every run, the same for `dequeue`: it gives up exactly when the item of its position is not yet
      published, which without other operations in flight is an empty queue. */
  lemma DequeueFailsExactlyWhenEmpty<T>(size: nat, steps: seq<Step<T>>, t: Tid)
    requires size >= 2 && Exec(size, steps).Some?
    requires var s := Exec(size, steps).value; t in s.threads && s.threads[t].DeqReadSeq?
    ensures var s := Exec(size, steps).value;
      var pos, fails := s.threads[t].pos, AdvanceDequeue(s, t, false).threads[t].DeqDone?;
      && (fails <==> !Published(s, pos))
      && (OthersIdle(s, t) ==> (fails <==> pos == s.dequeuePos == s.enqueuePos))
  {
    RunKeepsInv(size, steps);
    var s := Exec(size, steps).value;
    var pos := s.threads[t].pos;
    assert ThreadOk(s, t);
    SequenceTellsTicketState(s, pos);
    if OthersIdle(s, t) {
      NobodyHolds(s, t, pos);
    }
  }

  lemma {:induction false} CountBelow(keys: set<nat>, n: nat)
    requires forall p :: p in keys <==> 0 <= p < n
    ensures |keys| == n
  {
    if n == 0 {
      assert keys == {};
    } else {
      CountBelow(keys - {n - 1}, n - 1);
    }
  }

  /** Every run that ends with no thread between claim and release: the items taken out, in the order of
      their tickets, followed by the items in the ring, are the items brought in. */
  lemma NothingLostOrReordered<T>(size: nat, steps: seq<Step<T>>)
    requires size >= 2 && Exec(size, steps).Some?
    requires var s := Exec(size, steps).value; forall t :: t in s.threads ==> !Holds(s.threads[t])
    ensures var s := Exec(size, steps).value;
      && s.received == (map p: nat | p < s.dequeuePos && p < |s.pushed| :: Some(s.pushed[p]))
      && |s.received| == s.dequeuePos <= |s.pushed|
      && (forall p :: s.dequeuePos <= p < |s.pushed| ==> s.CellAt(p) == Cell(p + 1, Some(s.pushed[p])))
  {
    RunKeepsInv(size, steps);
    var s := Exec(size, steps).value;
    forall p | s.dequeuePos <= p < |s.pushed| ensures s.CellAt(p) == Cell(p + 1, Some(s.pushed[p])) {
      assert !Producing(s, p);
      SequenceTellsTicketState(s, p);
      SequencePastTicket(s, p);
    }
    CountBelow(s.received.Keys, s.dequeuePos);
  }

  lemma OnlyMorePushed<T>(s: State<T>, step: Step<T>)
    requires s.Size() > 0 && Enabled(s, step)
    ensures s.pushed <= Apply(s, step).pushed
  {
  }

  /** Tickets are given in the order of the claims: what was pushed before stays a prefix. */
  lemma {:induction false} TicketsKeepOrder<T>(size: nat, steps: seq<Step<T>>, early: nat)
    requires size >= 2 && Exec(size, steps).Some? && early <= |steps|
    ensures Exec(size, steps[..early]).Some?
    ensures Exec(size, steps[..early]).value.pushed <= Exec(size, steps).value.pushed
  {
    hide Apply, Enabled;
    if early == |steps| {
      assert steps[..early] == steps;
    } else {
      var last := |steps| - 1;
      assert steps[..last][..early] == steps[..early];
      TicketsKeepOrder(size, steps[..last], early);
      OnlyMorePushed(Exec(size, steps[..last]).value, steps[last]);
    }
  }

  // Progress

  /** The next access of the thread finds that its position has been overtaken, and starts again. */
  predicate IsRetry<T>(s: State<T>, t: Tid)
    requires s.Size() > 0
  {
    t in s.threads &&
    match s.threads[t]
    case EnqReadSeq(_, pos) => s.CellAt(pos).sequence > pos
    case EnqCas(_, pos) => s.enqueuePos != pos
    case DeqReadSeq(pos) => s.CellAt(pos).sequence > pos + 1
    case DeqCas(pos) => s.dequeuePos != pos
    case _ => false
  }

  /** The position that calls of this kind claim tickets from. */
  function Front<T>(s: State<T>, pc: Pc<T>): nat {
    if IsEnqueue(pc) then s.enqueuePos else s.dequeuePos
  }

  predicate IsLoading<T>(pc: Pc<T>) {
    pc.EnqLoad? || pc.DeqLoad?
  }

  /** A thread starts again only if others have claimed its position since it was loaded. */
  lemma RetryMeansOvertaken<T>(s: State<T>, t: Tid)
    requires Inv(s) && IsRetry(s, t)
    ensures s.threads[t].pos < Front(s, s.threads[t])
  {
    hide CellOk, Relies;
    assert ThreadOk(s, t);
    if s.threads[t].EnqReadSeq? || s.threads[t].DeqReadSeq? {
      SequenceTellsTicketState(s, s.threads[t].pos);
    }
  }

  /** The retries so far are made up for by claims after the position was at `start`. */
  predicate Overtaken<T>(s: State<T>, t: Tid, retries: nat, start: nat) {
    && t in s.threads
    && var pc := s.threads[t];
    if IsLoading(pc) then start + retries <= Front(s, pc) else start + retries <= pc.pos <= Front(s, pc)
  }

  lemma InvSize<T>(s: State<T>)
    requires Inv(s)
    ensures s.Size() >= 2
  {
  }

  /** The step belongs to the call that the thread is in, or to another thread. */
  predicate WithinCall<T>(step: Step<T>, t: Tid) {
    step.Advance? || step.tid != t
  }

  function Retries<T>(s: State<T>, step: Step<T>, t: Tid): nat
    requires s.Size() > 0
  {
    if step.Advance? && step.tid == t && IsRetry(s, t) then 1 else 0
  }

  lemma EnqueueOvertakes<T>(s: State<T>, t: Tid, spurious: bool, retries: nat, start: nat)
    requires s.Size() > 0 && t in s.threads && !Finished(s.threads[t]) && IsEnqueue(s.threads[t])
    requires Overtaken(s, t, retries, start) && (IsRetry(s, t) ==> s.threads[t].pos < s.enqueuePos)
    ensures var s' := AdvanceEnqueue(s, t, spurious);
      Overtaken(s', t, retries + if IsRetry(s, t) then 1 else 0, start) && IsEnqueue(s'.threads[t])
  {
  }

  lemma DequeueOvertakes<T>(s: State<T>, t: Tid, spurious: bool, retries: nat, start: nat)
    requires s.Size() > 0 && t in s.threads && !Finished(s.threads[t]) && !IsEnqueue(s.threads[t])
    requires Overtaken(s, t, retries, start) && (IsRetry(s, t) ==> s.threads[t].pos < s.dequeuePos)
    ensures var s' := AdvanceDequeue(s, t, spurious);
      Overtaken(s', t, retries + if IsRetry(s, t) then 1 else 0, start) && !IsEnqueue(s'.threads[t])
  {
  }

  lemma OwnStepOvertakes<T>(s: State<T>, t: Tid, spurious: bool, retries: nat, start: nat)
    requires Inv(s) && Enabled(s, Advance(t, spurious)) && Overtaken(s, t, retries, start)
    ensures Overtaken(Apply(s, Advance(t, spurious)), t, retries + Retries(s, Advance(t, spurious), t), start)
    ensures IsEnqueue(Apply(s, Advance(t, spurious)).threads[t]) <==> IsEnqueue(s.threads[t])
  {
    hide Inv, AdvanceEnqueue, AdvanceDequeue, IsRetry, Overtaken;
    InvSize(s);
    if IsRetry(s, t) { RetryMeansOvertaken(s, t); }
    if IsEnqueue(s.threads[t]) {
      EnqueueOvertakes(s, t, spurious, retries, start);
    } else {
      DequeueOvertakes(s, t, spurious, retries, start);
    }
  }

  predicate FrontsGrow<T>(s: State<T>, s': State<T>) {
    s.enqueuePos <= s'.enqueuePos && s.dequeuePos <= s'.dequeuePos
  }

  lemma EnqueueStepLeavesOthers<T>(s: State<T>, u: Tid, spurious: bool, t: Tid)
    requires s.Size() > 0 && u in s.threads && !Finished(s.threads[u]) && IsEnqueue(s.threads[u]) && t in s.threads
    requires u != t
    ensures var s' := AdvanceEnqueue(s, u, spurious);
      t in s'.threads && s'.threads[t] == s.threads[t] && FrontsGrow(s, s')
  {
  }

  lemma DequeueStepLeavesOthers<T>(s: State<T>, u: Tid, spurious: bool, t: Tid)
    requires s.Size() > 0 && u in s.threads && !Finished(s.threads[u]) && !IsEnqueue(s.threads[u]) && t in s.threads
    requires u != t
    ensures var s' := AdvanceDequeue(s, u, spurious);
      t in s'.threads && s'.threads[t] == s.threads[t] && FrontsGrow(s, s')
  {
  }

  lemma StepLeavesOthers<T>(s: State<T>, step: Step<T>, t: Tid)
    requires s.Size() > 0 && Enabled(s, step) && step.tid != t && t in s.threads
    ensures var s' := Apply(s, step); t in s'.threads && s'.threads[t] == s.threads[t] && FrontsGrow(s, s')
  {
    hide AdvanceEnqueue, AdvanceDequeue;
    match step {
      case Advance(u, spurious) =>
        if IsEnqueue(s.threads[u]) {
          EnqueueStepLeavesOthers(s, u, spurious, t);
        } else {
          DequeueStepLeavesOthers(s, u, spurious, t);
        }
      case _ =>
    }
  }

  lemma OtherStepOvertakes<T>(s: State<T>, step: Step<T>, t: Tid, retries: nat, start: nat)
    requires s.Size() > 0 && Enabled(s, step) && step.tid != t && Overtaken(s, t, retries, start)
    ensures Overtaken(Apply(s, step), t, retries, start) && Apply(s, step).threads[t] == s.threads[t]
  {
    hide Apply, Enabled;
    StepLeavesOthers(s, step, t);
  }

  /** How often the thread started again in the steps from `from` on. */
  function RetriesFrom<T>(size: nat, steps: seq<Step<T>>, t: Tid, from: nat): nat
    requires size > 0 && Exec(size, steps).Some? && from <= |steps|
    decreases |steps|
  {
    if from == |steps| then 0 else
      var last := |steps| - 1;
      assert Exec(size, steps[..last]).Some?;
      RetriesFrom(size, steps[..last], t, from) + Retries(Exec(size, steps[..last]).value, steps[last], t)
  }

  lemma StepOvertakes<T>(s: State<T>, step: Step<T>, t: Tid, retries: nat, start: nat)
    requires Inv(s) && Enabled(s, step) && WithinCall(step, t) && Overtaken(s, t, retries, start)
    ensures var s' := Apply(s, step);
      Overtaken(s', t, retries + Retries(s, step, t), start) && (IsEnqueue(s'.threads[t]) <==> IsEnqueue(s.threads[t]))
  {
    hide Overtaken, Apply, IsRetry;
    if step.tid == t {
      OwnStepOvertakes(s, t, step.spurious, retries, start);
    } else {
      InvSize(s);
      OtherStepOvertakes(s, step, t, retries, start);
    }
  }

  /** Every run: while a thread is in one call of `enqueue` or `dequeue`, it starts again at most as often as
      calls of the same kind have claimed a ticket since it began. So it is kept from its end for ever only
      by others that come to theirs, and by compare-and-swaps that fail for no reason. */
  lemma {:induction false} RetriesMeanProgress<T>(size: nat, steps: seq<Step<T>>, t: Tid, from: nat)
    requires size >= 2 && Exec(size, steps).Some? && from <= |steps| && Exec(size, steps[..from]).Some?
    requires t in Exec(size, steps[..from]).value.threads && IsLoading(Exec(size, steps[..from]).value.threads[t])
    requires forall i :: from <= i < |steps| ==> WithinCall(steps[i], t)
    ensures var (first, end) := (Exec(size, steps[..from]).value, Exec(size, steps).value);
      && t in end.threads && (IsEnqueue(end.threads[t]) <==> IsEnqueue(first.threads[t]))
      && Overtaken(end, t, RetriesFrom(size, steps, t, from), Front(first, first.threads[t]))
      && RetriesFrom(size, steps, t, from) <= Front(end, end.threads[t]) - Front(first, first.threads[t])
    decreases |steps|
  {
    hide Apply, Enabled, Retries, WithinCall, Inv;
    if from == |steps| {
      assert steps[..from] == steps;
    } else {
      var last := |steps| - 1;
      assert steps[..last][..from] == steps[..from];
      RetriesMeanProgress(size, steps[..last], t, from);
      RunKeepsInv(size, steps[..last]);
      var s, first := Exec(size, steps[..last]).value, Exec(size, steps[..from]).value;
      StepOvertakes(s, steps[last], t, RetriesFrom(size, steps[..last], t, from), Front(first, first.threads[t]));
    }
  }

  // What a call comes back with

  /** The call of `enqueue` has won its ticket. */
  predicate WonEnqueue<T>(pc: Pc<T>) {
    pc.EnqMove? || pc.EnqPublish? || (pc.EnqDone? && pc.ok)
  }

  predicate WonDequeue<T>(pc: Pc<T>) {
    pc.DeqMove? || pc.DeqRelease? || (pc.DeqDone? && pc.ok)
  }

  /** The tickets from `from` on that the thread has won. */
  function TicketsOf(winners: seq<Tid>, t: Tid, from: nat): set<nat> {
    set p | from <= p < |winners| && winners[p] == t
  }

  /** Since the tickets were at `from` the call has won none, or the one it now has and works on, and it still
      carries the item it was given. */
  ghost predicate EnqueueSoFar<T>(s: State<T>, t: Tid, item: T, from: nat) {
    && t in s.threads && IsEnqueue(s.threads[t]) && s.threads[t].item == item && from <= |s.producers|
    && TicketsOf(s.producers, t, from) == (if WonEnqueue(s.threads[t]) then {s.threads[t].pos} else {})
  }

  ghost predicate DequeueSoFar<T>(s: State<T>, t: Tid, from: nat) {
    && t in s.threads && !IsEnqueue(s.threads[t]) && from <= |s.consumers|
    && TicketsOf(s.consumers, t, from) == (if WonDequeue(s.threads[t]) then {s.threads[t].pos} else {})
    && (s.threads[t].DeqDone? && !s.threads[t].ok ==> s.threads[t].moved == None)
  }

  lemma OneMoreTicket(winners: seq<Tid>, u: Tid, t: Tid, from: nat)
    requires from <= |winners|
    ensures TicketsOf(winners + [u], t, from)
      == TicketsOf(winners, t, from) + if u == t then {|winners|} else {}
  {
    var more := winners + [u];
    assert forall p :: 0 <= p < |winners| ==> more[p] == winners[p];
  }

  lemma NoTicketYet(winners: seq<Tid>, t: Tid)
    ensures TicketsOf(winners, t, |winners|) == {}
  {
  }

  lemma EnqueueStepSoFar<T>(s: State<T>, t: Tid, spurious: bool, item: T, from: nat)
    requires s.Size() > 0 && |s.producers| == s.enqueuePos && EnqueueSoFar(s, t, item, from)
    requires !Finished(s.threads[t])
    ensures EnqueueSoFar(AdvanceEnqueue(s, t, spurious), t, item, from)
  {
    hide TicketsOf;
    OneMoreTicket(s.producers, t, t, from);
  }

  lemma DequeueStepSoFar<T>(s: State<T>, t: Tid, spurious: bool, from: nat)
    requires s.Size() > 0 && |s.consumers| == s.dequeuePos && DequeueSoFar(s, t, from)
    requires !Finished(s.threads[t])
    ensures DequeueSoFar(AdvanceDequeue(s, t, spurious), t, from)
  {
    hide TicketsOf;
    OneMoreTicket(s.consumers, t, t, from);
  }

  /** Whoever else takes a step wins tickets only in its own name. */
  lemma OthersWinTheirOwn<T>(s: State<T>, step: Step<T>, t: Tid, from: nat)
    requires s.Size() > 0 && Enabled(s, step) && step.tid != t
    ensures var s' := Apply(s, step);
      && |s.producers| <= |s'.producers| && |s.consumers| <= |s'.consumers|
      && (from <= |s.producers| ==> TicketsOf(s'.producers, t, from) == TicketsOf(s.producers, t, from))
      && (from <= |s.consumers| ==> TicketsOf(s'.consumers, t, from) == TicketsOf(s.consumers, t, from))
  {
    hide TicketsOf;
    if from <= |s.producers| { OneMoreTicket(s.producers, step.tid, t, from); }
    if from <= |s.consumers| { OneMoreTicket(s.consumers, step.tid, t, from); }
  }

  lemma EnqueueStaysSoFar<T>(s: State<T>, step: Step<T>, t: Tid, item: T, from: nat)
    requires Inv(s) && Enabled(s, step) && WithinCall(step, t) && EnqueueSoFar(s, t, item, from)
    ensures EnqueueSoFar(Apply(s, step), t, item, from)
  {
    hide TicketsOf, AdvanceEnqueue, AdvanceDequeue, CellOk, ThreadOk;
    if step.tid == t {
      EnqueueStepSoFar(s, t, step.spurious, item, from);
    } else {
      OthersWinTheirOwn(s, step, t, from);
      StepLeavesOthers(s, step, t);
    }
  }

  lemma DequeueStaysSoFar<T>(s: State<T>, step: Step<T>, t: Tid, from: nat)
    requires Inv(s) && Enabled(s, step) && WithinCall(step, t) && DequeueSoFar(s, t, from)
    ensures DequeueSoFar(Apply(s, step), t, from)
  {
    hide TicketsOf, AdvanceEnqueue, AdvanceDequeue, CellOk, ThreadOk;
    if step.tid == t {
      DequeueStepSoFar(s, t, step.spurious, from);
    } else {
      OthersWinTheirOwn(s, step, t, from);
      StepLeavesOthers(s, step, t);
    }
  }

  lemma {:induction false} RunHasPrefix<T>(size: nat, steps: seq<Step<T>>, early: nat)
    requires size > 0 && Exec(size, steps).Some? && early <= |steps|
    ensures Exec(size, steps[..early]).Some?
    ensures early < |steps| ==>
      Enabled(Exec(size, steps[..early]).value, steps[early])
        && Exec(size, steps[..early + 1]) == Some(Apply(Exec(size, steps[..early]).value, steps[early]))
    decreases |steps|
  {
    if early == |steps| {
      assert steps[..early] == steps;
    } else {
      var last := |steps| - 1;
      assert steps[..last][..early] == steps[..early];
      if early < last {
        assert steps[..last][..early + 1] == steps[..early + 1];
        RunHasPrefix(size, steps[..last], early);
      } else {
        assert steps[..early + 1] == steps;
      }
    }
  }

  /** What came before the last step, for induction over the steps of a call. */
  lemma CallHasPrefix<T>(size: nat, steps: seq<Step<T>>, from: nat)
    requires size > 0 && Exec(size, steps).Some? && from + 1 < |steps|
    ensures var front := steps[..|steps| - 1];
      && Exec(size, front).Some? && front[..from] == steps[..from] && front[from] == steps[from]
      && Enabled(Exec(size, front).value, steps[|steps| - 1])
      && Exec(size, steps).value == Apply(Exec(size, front).value, steps[|steps| - 1])
  {
    hide Apply, Enabled;
  }

  lemma EnqueueBegins<T>(s: State<T>, t: Tid, item: T)
    requires s.Size() > 0 && t !in s.threads
    ensures EnqueueSoFar(Apply(s, StartEnqueue(t, item)), t, item, |s.producers|)
  {
    NoTicketYet(s.producers, t);
  }

  lemma DequeueBegins<T>(s: State<T>, t: Tid)
    requires s.Size() > 0 && t !in s.threads
    ensures DequeueSoFar(Apply(s, StartDequeue(t)), t, |s.consumers|)
  {
    NoTicketYet(s.consumers, t);
  }

  lemma StartsOutside<T>(s: State<T>, step: Step<T>)
    requires Enabled(s, step) && (step.StartEnqueue? || step.StartDequeue?)
    ensures step.tid !in s.threads
  {
  }

  lemma AdvancesUnfinished<T>(s: State<T>, step: Step<T>)
    requires Enabled(s, step) && step.Advance?
    ensures step.tid in s.threads && !Finished(s.threads[step.tid])
  {
  }

  /** Every run: the thread that has called `enqueue` in step `from` and not come back since. */
  lemma {:induction false} EnqueueGoesOn<T>(size: nat, steps: seq<Step<T>>, t: Tid, item: T, from: nat)
    requires size >= 2 && Exec(size, steps).Some? && from < |steps| && steps[from] == StartEnqueue(t, item)
    requires forall i :: from < i < |steps| ==> WithinCall(steps[i], t)
    ensures Exec(size, steps[..from]).Some?
    ensures EnqueueSoFar(Exec(size, steps).value, t, item, |Exec(size, steps[..from]).value.producers|)
    decreases |steps|
  {
    hide Inv, EnqueueSoFar, DequeueSoFar, Enabled, WithinCall, Apply;
    RunHasPrefix(size, steps, from);
    var last, first := |steps| - 1, Exec(size, steps[..from]).value;
    if from == last {
      assert steps[..from + 1] == steps;
      assert t !in first.threads by { StartsOutside(first, steps[from]); }
      EnqueueBegins(first, t, item);
    } else {
      CallHasPrefix(size, steps, from);
      EnqueueGoesOn(size, steps[..last], t, item, from);
      RunKeepsInv(size, steps[..last]);
      EnqueueStaysSoFar(Exec(size, steps[..last]).value, steps[last], t, item, |first.producers|);
    }
  }

  lemma {:induction false} DequeueGoesOn<T>(size: nat, steps: seq<Step<T>>, t: Tid, from: nat)
    requires size >= 2 && Exec(size, steps).Some? && from < |steps| && steps[from] == StartDequeue(t)
    requires forall i :: from < i < |steps| ==> WithinCall(steps[i], t)
    ensures Exec(size, steps[..from]).Some?
    ensures DequeueSoFar(Exec(size, steps).value, t, |Exec(size, steps[..from]).value.consumers|)
    decreases |steps|
  {
    hide Inv, EnqueueSoFar, DequeueSoFar, Enabled, WithinCall, Apply;
    RunHasPrefix(size, steps, from);
    var last, first := |steps| - 1, Exec(size, steps[..from]).value;
    if from == last {
      assert steps[..from + 1] == steps;
      assert t !in first.threads by { StartsOutside(first, steps[from]); }
      DequeueBegins(first, t);
    } else {
      CallHasPrefix(size, steps, from);
      DequeueGoesOn(size, steps[..last], t, from);
      RunKeepsInv(size, steps[..last]);
      DequeueStaysSoFar(Exec(size, steps[..last]).value, steps[last], t, |first.consumers|);
    }
  }

  /** The state after the first j steps is one in which the next step of the thread gives up. */
  ghost predicate FoundFull<T>(size: nat, steps: seq<Step<T>>, t: Tid, j: nat)
    requires size > 0
  {
    && j < |steps| && Exec(size, steps[..j]).Some?
    && var s := Exec(size, steps[..j]).value;
    && steps[j].Advance? && steps[j].tid == t && t in s.threads && s.threads[t].EnqReadSeq?
    && s.threads[t].pos >= size && !Released(s, s.threads[t].pos - size)
  }

  ghost predicate FoundEmpty<T>(size: nat, steps: seq<Step<T>>, t: Tid, j: nat)
    requires size > 0
  {
    && j < |steps| && Exec(size, steps[..j]).Some?
    && var s := Exec(size, steps[..j]).value;
    && steps[j].Advance? && steps[j].tid == t && t in s.threads && s.threads[t].DeqReadSeq?
    && !Published(s, s.threads[t].pos)
  }

  lemma GivesUpWhenFull<T>(s: State<T>, t: Tid, spurious: bool)
    requires Inv(s) && t in s.threads && !Finished(s.threads[t]) && IsEnqueue(s.threads[t])
    requires var pc := AdvanceEnqueue(s, t, spurious).threads[t]; pc.EnqDone? && !pc.ok
    ensures s.threads[t].EnqReadSeq?
    ensures s.threads[t].pos >= s.Size() && !Released(s, s.threads[t].pos - s.Size())
  {
    hide CellOk, ThreadOk, Released, Published;
    SequenceTellsTicketState(s, s.threads[t].pos);
  }

  lemma GivesUpWhenEmpty<T>(s: State<T>, t: Tid, spurious: bool)
    requires Inv(s) && t in s.threads && !Finished(s.threads[t]) && !IsEnqueue(s.threads[t])
    requires var pc := AdvanceDequeue(s, t, spurious).threads[t]; pc.DeqDone? && !pc.ok
    ensures s.threads[t].DeqReadSeq? && !Published(s, s.threads[t].pos)
  {
    hide CellOk, ThreadOk, Released, Published;
    SequenceTellsTicketState(s, s.threads[t].pos);
  }

  lemma FoundFullBefore<T>(size: nat, steps: seq<Step<T>>, n: nat, t: Tid, j: nat)
    requires size > 0 && n <= |steps| && FoundFull(size, steps[..n], t, j)
    ensures FoundFull(size, steps, t, j)
  {
    assert steps[..n][..j] == steps[..j];
  }

  /** A call that is about to come back without a ticket found the ring full in one of its steps. */
  lemma {:induction false} FailureFoundFull<T>(size: nat, steps: seq<Step<T>>, t: Tid, item: T, from: nat)
    returns (j: nat)
    requires size >= 2 && Exec(size, steps).Some? && from < |steps| && steps[from] == StartEnqueue(t, item)
    requires forall i :: from < i < |steps| ==> WithinCall(steps[i], t)
    requires var s := Exec(size, steps).value; t in s.threads && s.threads[t].EnqDone? && !s.threads[t].ok
    ensures from < j && FoundFull(size, steps, t, j)
    decreases |steps|
  {
    hide Inv, Enabled, Released, AdvanceEnqueue, AdvanceDequeue;
    RunHasPrefix(size, steps, from);
    var last := |steps| - 1;
    if from == last {
      assert false;
    } else {
      CallHasPrefix(size, steps, from);
      EnqueueGoesOn(size, steps[..last], t, item, from);
      RunKeepsInv(size, steps[..last]);
      var s := Exec(size, steps[..last]).value;
      if steps[last].tid == t {
        assert Enabled(s, steps[last]);
        assert !Finished(s.threads[t]) by { AdvancesUnfinished(s, steps[last]); }
        GivesUpWhenFull(s, t, steps[last].spurious);
        j := last;
      } else {
        InvSize(s);
        StepLeavesOthers(s, steps[last], t);
        j := FailureFoundFull(size, steps[..last], t, item, from);
        FoundFullBefore(size, steps, last, t, j);
      }
    }
  }

  lemma {:induction false} FailureFoundEmpty<T>(size: nat, steps: seq<Step<T>>, t: Tid, from: nat) returns (j: nat)
    requires size >= 2 && Exec(size, steps).Some? && from < |steps| && steps[from] == StartDequeue(t)
    requires forall i :: from < i < |steps| ==> WithinCall(steps[i], t)
    requires var s := Exec(size, steps).value; t in s.threads && s.threads[t].DeqDone? && !s.threads[t].ok
    ensures from < j && FoundEmpty(size, steps, t, j)
    decreases |steps|
  {
    hide Inv, Enabled, Published, AdvanceEnqueue, AdvanceDequeue;
    RunHasPrefix(size, steps, from);
    var last := |steps| - 1;
    if from == last {
      assert false;
    } else {
      CallHasPrefix(size, steps, from);
      DequeueGoesOn(size, steps[..last], t, from);
      RunKeepsInv(size, steps[..last]);
      var s := Exec(size, steps[..last]).value;
      if steps[last].tid == t {
        assert !Finished(s.threads[t]) by { AdvancesUnfinished(s, steps[last]); }
        GivesUpWhenEmpty(s, t, steps[last].spurious);
        j := last;
      } else {
        InvSize(s);
        StepLeavesOthers(s, steps[last], t);
        j := FailureFoundEmpty(size, steps[..last], t, from);
        assert steps[..last][..j] == steps[..j];
      }
    }
  }

  lemma PublishedWhenDone<T>(s: State<T>, t: Tid)
    requires Inv(s) && t in s.threads && s.threads[t].EnqDone? && s.threads[t].ok
    ensures var pos := s.threads[t].pos; Published(s, pos) && pos < |s.pushed| && s.pushed[pos] == s.threads[t].item
  {
    hide CellOk;
    assert ThreadOk(s, t);
  }

  lemma ReleasedWhenDone<T>(s: State<T>, t: Tid)
    requires Inv(s) && t in s.threads && s.threads[t].DeqDone? && s.threads[t].ok
    ensures var pos := s.threads[t].pos;
      Released(s, pos) && pos < |s.pushed| && s.threads[t].moved == Some(s.pushed[pos])
  {
    hide CellOk;
    assert ThreadOk(s, t);
  }

  /** Every run, a call of `enqueue` that is about to come back: it won a ticket since it was made exactly if it
      comes back true, and then one ticket, which is published with its item; and if it comes back false, it
      found the ring full in one of its own steps. */
  lemma EnqueueTellsTheTruth<T>(size: nat, steps: seq<Step<T>>, t: Tid, item: T, from: nat)
    requires size >= 2 && Exec(size, steps).Some? && from < |steps| && steps[from] == StartEnqueue(t, item)
    requires forall i :: from < i < |steps| ==> WithinCall(steps[i], t)
    requires var s := Exec(size, steps).value; t in s.threads && Finished(s.threads[t])
    ensures Exec(size, steps[..from]).Some?
    ensures var (first, s) := (Exec(size, steps[..from]).value, Exec(size, steps).value);
      var tickets := TicketsOf(s.producers, t, |first.producers|);
      && s.threads[t].EnqDone?
      && (s.threads[t].ok <==> tickets != {})
      && (s.threads[t].ok ==> exists p :: tickets == {p} && Published(s, p) && p < |s.pushed| && s.pushed[p] == item)
      && (!s.threads[t].ok ==> exists j :: from < j && FoundFull(size, steps, t, j))
  {
    hide Inv, Published, FoundFull, TicketsOf;
    EnqueueGoesOn(size, steps, t, item, from);
    RunKeepsInv(size, steps);
    var s := Exec(size, steps).value;
    if s.threads[t].ok {
      PublishedWhenDone(s, t);
      assert {s.threads[t].pos} != {} by { assert s.threads[t].pos in {s.threads[t].pos}; }
    } else {
      var j := FailureFoundFull(size, steps, t, item, from);
    }
  }

  /** Every run, a call of `dequeue` that is about to come back: it won a ticket since it was made exactly if it
      comes back true, and then one ticket, whose item it brings and whose cell it has given back; and if it
      comes back false, it brings nothing and found the item of its position missing in one of its steps. */
  lemma DequeueTellsTheTruth<T>(size: nat, steps: seq<Step<T>>, t: Tid, from: nat)
    requires size >= 2 && Exec(size, steps).Some? && from < |steps| && steps[from] == StartDequeue(t)
    requires forall i :: from < i < |steps| ==> WithinCall(steps[i], t)
    requires var s := Exec(size, steps).value; t in s.threads && Finished(s.threads[t])
    ensures Exec(size, steps[..from]).Some?
    ensures var (first, s) := (Exec(size, steps[..from]).value, Exec(size, steps).value);
      var tickets := TicketsOf(s.consumers, t, |first.consumers|);
      && s.threads[t].DeqDone?
      && (s.threads[t].ok <==> tickets != {})
      && (s.threads[t].ok ==>
            exists p :: tickets == {p} && Released(s, p) && p < |s.pushed| && s.threads[t].moved == Some(s.pushed[p]))
      && (!s.threads[t].ok ==> s.threads[t].moved == None && exists j :: from < j && FoundEmpty(size, steps, t, j))
  {
    hide Inv, Released, FoundEmpty, TicketsOf;
    DequeueGoesOn(size, steps, t, from);
    RunKeepsInv(size, steps);
    var s := Exec(size, steps).value;
    if s.threads[t].ok {
      ReleasedWhenDone(s, t);
      assert {s.threads[t].pos} != {} by { assert s.threads[t].pos in {s.threads[t].pos}; }
    } else {
      var j := FailureFoundEmpty(size, steps, t, from);
    }
  }
}
