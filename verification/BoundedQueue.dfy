/** The same ring as one object, called by one thread at a time: its methods run their retry loops
    without interference and behave as a FIFO queue of fixed capacity. */
module BoundedQueueObject {
  import opened Arithmetic
  import opened Bits
  import opened Wrappers
  import opened MpmcQueue

  class BoundedQueue<T> {
    const size: nat
    const mask: nat
    const buffer: array<Cell<T>>
    var enqueuePos: nat
    var dequeuePos: nat
    ghost var contents: seq<T>

    ghost predicate Valid()
      reads this, buffer
    {
      && size >= 2 && IsPowerOfTwo(size) && mask == size - 1 && buffer.Length == size
      && dequeuePos <= enqueuePos <= dequeuePos + size
      && |contents| == enqueuePos - dequeuePos
      && (forall p :: dequeuePos <= p < enqueuePos ==> buffer[p % size] == Cell(p + 1, Some(contents[p - dequeuePos])))
      && (forall p :: enqueuePos <= p < dequeuePos + size ==> buffer[p % size].sequence == p)
    }

    constructor (size: nat)
      requires size >= 2 && And(size, size - 1) == 0
      ensures Valid() && contents == [] && this.size == size && fresh(buffer)
    {
      PowerOfTwoTest(size);
      this.size := size;
      this.mask := size - 1;
      this.buffer := new Cell<T>[size](i requires 0 <= i => Cell(i, None));
      this.enqueuePos, this.dequeuePos, this.contents := 0, 0, [];
      new;
      forall p | 0 <= p < size ensures p % size == p { ModUnique(p, size, 0, p); }
    }

    /** Null stands for the exception thrown for a size that is not a power of two. */
    static method Create(size: nat) returns (q: BoundedQueue?<T>)
      ensures q != null <==> size >= 2 && IsPowerOfTwo(size)
      ensures q != null ==> fresh(q) && q.Valid() && q.contents == [] && q.size == size
    {
      if size > 0 { PowerOfTwoTest(size); }
      if size >= 2 && And(size, size - 1) == 0 {
        q := new BoundedQueue(size);
      } else {
        q := null;
      }
    }

    lemma MaskedIndex(pos: nat)
      requires size > 0 && IsPowerOfTwo(size) && mask == size - 1
      ensures And(pos, mask) == pos % size
    {
      var k: nat :| size == Pow2(k);
      MaskIsMod(pos, k);
    }

    lemma DistinctCells(p: nat, q: nat)
      requires size > 0 && p < q < p + size
      ensures p % size != q % size
    {
      if p % size == q % size { SameRemainder(p, q, size); }
    }

    /** `spurious` is how many times the weak compare-and-swap fails although nothing changed. */
    method Enqueue(item: T, spurious: nat) returns (ok: bool)
      requires Valid()
      modifies this`enqueuePos, this`contents, buffer
      ensures Valid()
      ensures ok <==> |old(contents)| < size
      ensures contents == if ok then old(contents) + [item] else old(contents)
    {
      var pos, failures := enqueuePos, spurious;
      while true
        invariant pos == enqueuePos
        invariant unchanged(this) && unchanged(buffer)
        decreases failures
      {
        MaskedIndex(pos);
        AddModulus(dequeuePos, size);
        var sequence := buffer[And(pos, mask)].sequence;
        if sequence == pos {
          if failures == 0 { break; }
          failures := failures - 1;
        } else if sequence < pos {
          return false;
        } else {
          assert false;
          pos := enqueuePos;
        }
      }
      MaskedIndex(pos);
      forall p | dequeuePos <= p < dequeuePos + size && p != pos ensures p % size != pos % size {
        if p < pos { DistinctCells(p, pos); } else { DistinctCells(pos, p); }
      }
      enqueuePos := pos + 1;
      buffer[And(pos, mask)] := buffer[And(pos, mask)].(data := Some(item));
      buffer[And(pos, mask)] := buffer[And(pos, mask)].(sequence := pos + 1);
      contents := contents + [item];
      return true;
    }

    method Dequeue(spurious: nat) returns (r: Option<T>)
      requires Valid()
      modifies this`dequeuePos, this`contents, buffer
      ensures Valid()
      ensures r == if old(contents) == [] then None else Some(old(contents)[0])
      ensures contents == if old(contents) == [] then [] else old(contents)[1..]
    {
      var pos, failures := dequeuePos, spurious;
      while true
        invariant pos == dequeuePos
        invariant unchanged(this) && unchanged(buffer)
        decreases failures
      {
        MaskedIndex(pos);
        var sequence := buffer[And(pos, mask)].sequence;
        if sequence == pos + 1 {
          if failures == 0 { break; }
          failures := failures - 1;
        } else if sequence < pos + 1 {
          return None;
        } else {
          assert false;
          pos := dequeuePos;
        }
      }
      MaskedIndex(pos);
      forall p | dequeuePos <= p < dequeuePos + size && p != pos ensures p % size != pos % size {
        DistinctCells(pos, p);
      }
      AddModulus(pos, size);
      dequeuePos := pos + 1;
      r := buffer[And(pos, mask)].data;
      buffer[And(pos, mask)] := buffer[And(pos, mask)].(data := None);
      buffer[And(pos, mask)] := buffer[And(pos, mask)].(sequence := pos + mask + 1);
      contents := contents[1..];
    }

    method ApproxSize() returns (n: nat)
      requires Valid()
      ensures n == |contents|
    {
      var first, last := dequeuePos, enqueuePos;
      if last <= first {
        return 0;
      }
      var count := last - first;
      n := if count < size then count else size;
    }
  }

  lemma QuietCells<T>(s: State<T>)
    requires Inv(s) && s.threads == map[]
    ensures forall p: nat :: s.dequeuePos <= p < s.dequeuePos + s.Size() ==>
      if p < s.enqueuePos then s.CellAt(p) == Cell(p + 1, Some(s.pushed[p])) else s.CellAt(p).sequence == p
  {
    forall p: nat | s.dequeuePos <= p < s.dequeuePos + s.Size()
      ensures if p < s.enqueuePos then s.CellAt(p) == Cell(p + 1, Some(s.pushed[p])) else s.CellAt(p).sequence == p
    {
      SequenceTellsTicketState(s, p);
      if p < s.enqueuePos { SequencePastTicket(s, p); }
    }
  }

  /** The ring after any run that left no thread inside a call is one this object accepts, holding exactly
      the items that were brought in and not yet taken out. */
  lemma QuietRunIsValidObject<T>(steps: seq<Step<T>>, s: State<T>, q: BoundedQueue<T>)
    requires q.size >= 2 && IsPowerOfTwo(q.size) && Exec(q.size, steps) == Some(s) && s.threads == map[]
    requires q.buffer[..] == s.cells && q.mask == q.size - 1
    requires q.enqueuePos == s.enqueuePos && q.dequeuePos == s.dequeuePos
    requires s.dequeuePos <= |s.pushed| && q.contents == s.pushed[s.dequeuePos..]
    ensures q.Valid()
  {
    RunKeepsInv(q.size, steps);
    QuietCells(s);
    forall p: nat | s.dequeuePos <= p < s.dequeuePos + q.size
      ensures q.buffer[p % q.size] == s.CellAt(p)
    {
      assert q.buffer[p % q.size] == q.buffer[..][p % q.size];
    }
  }
}
