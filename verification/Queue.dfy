/** `lab6/queue.c`: a queue of linked cells. A cell is linked to the next by `tail`, but a removal
    goes on to the cell's `head`, which nothing ever sets. */
module Queue {

  /** What a removal leaves and yields; -1 for an empty queue. */
  function Dequeued(s: seq<int>): (int, seq<int>) {
    if s == [] then (-1, []) else (s[0], [])
  }

  /** What a first-in first-out queue would do. */
  function FifoDequeued(s: seq<int>): (int, seq<int>) {
    if s == [] then (-1, []) else (s[0], s[1..])
  }

  /** The removal is that of a queue if and only if at most one element is waiting. */
  lemma DequeueIsFifoIff(s: seq<int>)
    ensures Dequeued(s) == FifoDequeued(s) <==> |s| <= 1
  {
    if |s| > 1 {
      assert s[1..][0] == s[1];
    }
  }

  /** `struct queue`, which serves as the queue and as a cell of it. */
  class Cell {
    var head: Cell?
    var tail: Cell?
    var elem: int
    ghost var spine: seq<Cell>

    ghost predicate Valid()
      reads this, spine
    {
      && this !in spine
      && head == (if spine == [] then null else spine[0])
      && tail == (if spine == [] then null else spine[|spine| - 1])
      && (forall k :: 0 <= k < |spine| ==> spine[k].head == null)
      && (forall k :: 0 <= k < |spine| - 1 ==> spine[k].tail == spine[k + 1])
      && (forall j, k :: 0 <= j < k < |spine| ==> spine[j] != spine[k])
    }

    ghost function Contents(): (s: seq<int>)
      reads this, spine
      ensures |s| == |spine|
    {
      seq(|spine|, k requires 0 <= k < |spine| reads this, spine => spine[k].elem)
    }

    /** `queue_init`. */
    constructor ()
      ensures Valid() && Contents() == [] && head == null && tail == null && spine == []
    {
      head, tail, elem := null, null, 0;
      spine := [];
    }

    /** `queue_enqueue`. */
    method Enqueue(e: int)
      requires Valid()
      modifies this, spine
      ensures Valid() && Contents() == old(Contents()) + [e]
      ensures forall c :: c in spine && c !in old(spine) ==> fresh(c)
    {
      if tail == null {
        var first := new Cell();
        tail, head := first, first;
        tail.elem := e;
        spine := [first];
        return;
      }
      var last := new Cell();
      assert spine != [] && tail == spine[|spine| - 1];
      tail.tail := last;
      tail.tail.elem := e;
      tail := tail.tail;
      spine := spine + [last];
    }

    /** `queue_dequeue`: yields the first element and drops the others. */
    method Dequeue() returns (e: int)
      requires Valid()
      modifies this
      ensures Valid() && (e, Contents()) == Dequeued(old(Contents()))
    {
      if head == null {
        return -1;
      }
      assert spine != [] && head == spine[0];
      e := head.elem;
      var newHead := head.head;
      head := newHead;
      if head == null {
        tail := null;
      }
      spine := [];
    }
  }
}
