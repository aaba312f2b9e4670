/** The bounded queue: a ring of elements under a lock (spop/scheduler.go). */
module Queues {
  import opened Common

  /** The queue's fields at one moment. */
  datatype Ring<T> = Ring(elems: seq<T>, head: nat, tail: nat, size: nat) {
    predicate Valid() {
      && size <= |elems|
      && (elems == [] ==> head == tail == 0)
      && (elems != [] ==> head < |elems| && tail == (head + size) % |elems|)
    }

    predicate Full() {
      size == |elems|
    }

    /** The elements in the order they went in. */
    function Contents(): (s: seq<T>)
      requires Valid()
      ensures |s| == size
    {
      seq(size, k requires 0 <= k < size => elems[(head + k) % |elems|])
    }

    function Put(x: T): Ring<T>
      requires Valid() && !Full()
    {
      Ring(elems[tail := x], head, (tail + 1) % |elems|, size + 1)
    }

    function First(): T
      requires Valid() && size > 0
    {
      elems[head]
    }

    function Get(): Ring<T>
      requires Valid() && size > 0
    {
      Ring(elems, (head + 1) % |elems|, tail, size - 1)
    }
  }

  lemma Wrap(a: nat, n: nat)
    requires a < 2 * n
    ensures a % n == if a < n then a else a - n
  {
  }

  /** An element put in comes out last, whatever the ring's position. */
  lemma PutContents<T>(r: Ring<T>, x: T)
    requires r.Valid() && !r.Full()
    ensures r.Put(x).Valid() && r.Put(x).Contents() == r.Contents() + [x]
  {
    var n := |r.elems|;
    Wrap(r.head + r.size, n);
    Wrap(r.tail + 1, n);
    Wrap(r.head + (r.size + 1), n);
    forall k | 0 <= k <= r.size
      ensures r.Put(x).elems[(r.head + k) % n] == (r.Contents() + [x])[k]
    {
      Wrap(r.head + k, n);
    }
  }

  /** What is taken out is the oldest element, and the others keep their order. */
  lemma GetContents<T>(r: Ring<T>)
    requires r.Valid() && r.size > 0
    ensures r.Get().Valid() && r.Contents() == [r.First()] + r.Get().Contents()
  {
    var n := |r.elems|;
    Wrap(r.head, n);
    Wrap(r.head + 1, n);
    Wrap(r.head + r.size, n);
    Wrap(r.Get().head + (r.size - 1), n);
    forall k | 0 <= k < r.size
      ensures r.Contents()[k] == ([r.First()] + r.Get().Contents())[k]
    {
      Wrap(r.head + k, n);
      if k > 0 {
        Wrap(r.Get().head + (k - 1), n);
      }
    }
  }

  class Queue<T> {
    const elems: array<T>
    var head: nat
    var tail: nat
    var size: nat

    constructor (cap: nat, nothing: T)
      ensures Valid() && View().Contents() == [] && elems.Length == cap && fresh(elems)
    {
      elems := new T[cap](_ => nothing);
      head, tail, size := 0, 0, 0;
    }

    ghost function View(): Ring<T>
      reads this, elems
    {
      Ring(elems[..], head, tail, size)
    }

    ghost predicate Valid()
      reads this, elems
    {
      View().Valid()
    }

    predicate IsFull()
      reads this
    {
      size == elems.Length
    }

    predicate IsEmpty()
      reads this
    {
      size <= 0
    }

    /** Put under the lock: false where the source waits to be signalled and looks again. */
    method Put(x: T) returns (done: bool)
      requires Valid()
      modifies this`tail, this`size, elems
      ensures Valid() && done == (old(size) < elems.Length)
      ensures View().Contents() == old(View().Contents()) + if done then [x] else []
      ensures done ==> View() == old(View()).Put(x)
    {
      ghost var before := View();
      if IsFull() {
        assert before.Contents() + [] == before.Contents();
        return false;
      }
      elems[tail] := x;
      tail := (tail + 1) % elems.Length;
      size := size + 1;
      assert View() == before.Put(x);
      PutContents(before, x);
      return true;
    }

    /** Get under the lock: None where the source waits to be signalled and looks again. */
    method Get() returns (r: Option<T>)
      requires Valid()
      modifies this`head, this`size
      ensures Valid() && r.Some? == (old(size) > 0)
      ensures old(View().Contents()) == (if r.Some? then [r.value] else []) + View().Contents()
      ensures r.Some? ==> View() == old(View()).Get() && r.value == old(View()).First()
    {
      ghost var before := View();
      if IsEmpty() {
        assert [] + before.Contents() == before.Contents();
        return None;
      }
      var item := elems[head];
      head := (head + 1) % elems.Length;
      size := size - 1;
      assert View() == before.Get();
      GetContents(before);
      return Some(item);
    }
  }
}
