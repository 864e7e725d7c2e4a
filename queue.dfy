/**
 * The fixed-capacity ring buffer of mbb/queue.h. The C macros work on a
 * struct { int first; int last; size_t count; TYPE data[LENGTH]; }; here it
 * is a class over an array. Contents is the public view: the elements still
 * queued, oldest first.
 */
module Queues {

  class Queue<T(0)> {
    var first: int
    var last: int
    var count: nat
    const data: array<T>
    ghost var Contents: seq<T>

    /** The ring-buffer invariant that MQUE_INITIALISE establishes and every macro keeps. */
    ghost predicate Valid()
      reads this, data
    {
      && 0 < data.Length
      && 0 <= first < data.Length
      && -1 <= last < data.Length
      && count <= data.Length
      // last + 1 and first + count are congruent modulo the capacity
      && (last + 1 == first + count || last + 1 == first + count - data.Length
          || last + 1 == first + count + data.Length)
      && |Contents| == count
      && forall k :: 0 <= k < count ==> Contents[k] == data[Slot(first, k, data.Length)]
    }

    /**
     * MQUE_DEFINE_STRUCT(TYPE, LENGTH): storage for `capacity` elements. The
     * indices are not initialised yet: MQUE_INITIALISE does that.
     */
    constructor (capacity: nat)
      requires 0 < capacity
      ensures fresh(data) && data.Length == capacity
    {
      data := new T[capacity];
    }

    /** MQUE_INITIALISE: first = 0, last = -1, count = 0; the storage is not touched. */
    method Initialise()
      requires 0 < data.Length
      modifies this
      ensures Valid() && Contents == []
      ensures first == 0 && last == -1 && count == 0
    {
      first, last, count := 0, -1, 0;
      Contents := [];
    }

    /** MQUE_CAPACITY: the number of elements the array holds. */
    function Capacity(): (r: nat)
      reads this
      ensures r == data.Length
    {
      data.Length
    }

    /** MQUE_LENGTH. */
    function Length(): (r: nat)
      reads this, data
      requires Valid()
      ensures r == |Contents| <= Capacity()
    {
      count
    }

    /** MQUE_IS_FULL. */
    predicate IsFull()
      reads this, data
      requires Valid()
      ensures IsFull() <==> |Contents| == Capacity()
    {
      count == data.Length
    }

    /** MQUE_IS_EMPTY. */
    predicate IsEmpty()
      reads this, data
      requires Valid()
      ensures IsEmpty() <==> Contents == []
    {
      count == 0
    }

    /**
     * MQUE_HEAD: the slot at `first`. On a non-empty queue that is the oldest
     * element; on an empty one it is whatever the slot holds.
     */
    function Head(): (r: T)
      reads this, data
      requires Valid()
      ensures Contents != [] ==> r == Contents[0]
    {
      data[first]
    }

    /**
     * MQUE_ENQUEUE: on a full queue nothing changes; otherwise the element is
     * written at (last + 1) % capacity, the one slot that changes, and it
     * becomes the newest element.
     */
    method Enqueue(x: T)
      requires Valid()
      modifies this, data
      ensures Valid()
      ensures old(|Contents|) == data.Length ==>
        Contents == old(Contents) && data[..] == old(data[..]) && first == old(first) && last == old(last)
      ensures old(|Contents|) < data.Length ==>
        && Contents == old(Contents) + [x]
        && last == (old(last) + 1) % data.Length
        && data[..] == old(data[..])[last := x]
        && first == old(first)
    {
      if count == data.Length {
        return;
      }
      ModSmall(last + 1, data.Length);
      last := (last + 1) % data.Length;
      data[last] := x;
      count := count + 1;
      Contents := Contents + [x];
      forall k | 0 <= k < count
        ensures Contents[k] == data[Slot(first, k, data.Length)]
      {
      }
    }

    /**
     * MQUE_DEQUEUE: on an empty queue nothing changes; otherwise `first`
     * advances modulo the capacity and the oldest element leaves. No slot of
     * the array is written.
     */
    method Dequeue()
      requires Valid()
      modifies this
      ensures Valid() && last == old(last)
      ensures old(Contents) == [] ==> Contents == [] && first == old(first)
      ensures old(Contents) != [] ==>
        Contents == old(Contents)[1..] && first == (old(first) + 1) % data.Length
    {
      if count == 0 {
        return;
      }
      ModSmall(first + 1, data.Length);
      first := (first + 1) % data.Length;
      count := count - 1;
      Contents := Contents[1..];
      forall k | 0 <= k < count
        ensures Contents[k] == data[Slot(first, k, data.Length)]
      {
        assert Contents[k] == old(Contents)[k + 1];
      }
    }
  }

  /** The array index of the element `k` places after `first`, wrapping once. */
  function Slot(first: int, k: int, n: int): (r: int)
    requires 0 <= first < n && 0 <= k < n
    ensures 0 <= r < n
  {
    if first + k < n then first + k else first + k - n
  }

  /** x % n for 0 <= x < 2n: one subtraction at most. */
  lemma ModSmall(x: int, n: int)
    requires 0 < n && 0 <= x < 2 * n
    ensures x % n == if x < n then x else x - n
  {
    if x >= n {
      assert x - n == x - 1 * n;
    }
  }

  /** Counting up: 1 .. n followed by n + 1 is 1 .. n + 1. */
  lemma CountUp(n: nat)
    ensures seq(n, k => k + 1) + [n + 1] == seq(n + 1, k => k + 1)
  {
  }

  /** Counting on from i: the head is i and the rest counts on from i + 1. */
  lemma CountOn(m: nat, i: int)
    requires 0 < m
    ensures seq(m, k => k + i)[0] == i && seq(m, k => k + i)[1..] == seq(m - 1, k => k + i + 1)
  {
  }

  /** The first loop of the test: enqueue 1 .. 5 into an empty queue of capacity five. */
  method EnqueueOneToFive(q: Queue<int>)
    requires q.Valid() && q.data.Length == 5 && q.Contents == []
    modifies q, q.data
    ensures q.Valid() && q.Contents == [1, 2, 3, 4, 5]
  {
    var i := 1;
    while i <= 5
      invariant 1 <= i <= 6
      invariant q.Valid() && q.data.Length == 5
      invariant q.Contents == seq(i - 1, k => k + 1)
    {
      q.Enqueue(i);
      CountUp(i - 1);
      i := i + 1;
    }
  }

  /** The second loop of the test: five times, read the head and dequeue it. */
  method DequeueFive(q: Queue<int>) returns (heads: seq<int>)
    requires q.Valid() && q.Contents == [1, 2, 3, 4, 5]
    modifies q
    ensures q.Valid() && q.Contents == [] && heads == [1, 2, 3, 4, 5]
  {
    heads := [];
    var i := 1;
    while i <= 5
      invariant 1 <= i <= 6
      invariant q.Valid()
      invariant q.Contents == seq(6 - i, k => k + i)
      invariant heads == seq(i - 1, k => k + 1)
    {
      CountOn(6 - i, i);
      heads := heads + [q.Head()];
      q.Dequeue();
      CountUp(i - 1);
      i := i + 1;
    }
  }

  /**
   * tests/test_queue.c: a queue of capacity five starts empty, is full after
   * five enqueues, and five dequeues return the elements in the order they
   * were enqueued, leaving it empty.
   */
  method FifoExample() returns (emptyAtStart: bool, fullAfterFive: bool, heads: seq<int>, emptyAtEnd: bool)
    ensures emptyAtStart && fullAfterFive && emptyAtEnd
    ensures heads == [1, 2, 3, 4, 5]
  {
    var q := new Queue<int>(5);
    q.Initialise();
    emptyAtStart := q.IsEmpty();
    EnqueueOneToFive(q);
    fullAfterFive := q.IsFull();
    heads := DequeueFive(q);
    emptyAtEnd := q.IsEmpty();
  }
}
