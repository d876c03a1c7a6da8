/**
 The ring of in-flight operations between the two camera worker threads: a fixed array with a
 head and a tail index. `Ring` specifies it on values, for any size of at least 2; `InFlightRing`
 is the same ring in place.
 */
module InFlightRing {

  datatype Slot<+T> = Empty | Full(op: T)

  datatype Ring<T> = Ring(slots: seq<Slot<T>>, head: nat, tail: nat) {

    /** How many operations wait between head and tail. */
    function Used(): int {
      if head <= tail then tail - head else tail - head + |slots|
    }

    /** The array index k places after head. */
    function Index(k: int): int {
      if head + k < |slots| then head + k else head + k - |slots|
    }

    ghost predicate Valid() {
      && |slots| >= 2 && head < |slots| && tail < |slots|
      && forall k :: 0 <= k < Used() ==> slots[Index(k)].Full?
    }

    /** The waiting operations, oldest first. */
    ghost function Contents(): (ops: seq<T>)
      requires Valid()
      ensures |ops| == Used()
    {
      seq(Used(), k requires 0 <= k < Used() => slots[Index(k)].op)
    }

    predicate Ready()
      requires |slots| >= 2
    {
      (tail + 1) % |slots| != head
    }

    function Push(op: T): Ring<T>
      requires |slots| >= 2 && tail < |slots|
    {
      Ring(slots[tail := Full(op)], head, (tail + 1) % |slots|)
    }

    function Pop(): Ring<T>
      requires |slots| >= 2 && head < |slots|
    {
      Ring(slots[head := Empty], (head + 1) % |slots|, tail)
    }

    lemma Wraps(i: nat)
      requires i < |slots|
      ensures (i + 1) % |slots| == if i + 1 == |slots| then 0 else i + 1
    {
    }

    /** The readiness test says exactly that the ring holds fewer than size - 1 operations. */
    lemma ReadyMeansRoom()
      requires Valid()
      ensures Ready() <==> |Contents()| < |slots| - 1
    {
      Wraps(tail);
    }

    /** A push on a ready ring appends one operation and overwrites none that waits. */
    lemma PushAppends(op: T)
      requires Valid() && Ready()
      ensures Push(op).Valid() && Push(op).Contents() == Contents() + [op]
    {
      Wraps(tail);
      var r := Push(op);
      assert r.Used() == Used() + 1;
      assert forall k :: 0 <= k < Used() ==> r.slots[r.Index(k)] == slots[Index(k)];
      assert r.Index(Used()) == tail;
    }

    /** A pop takes the oldest operation and leaves the others in order. */
    lemma PopTakesOldest()
      requires Valid() && head != tail
      ensures slots[head].Full? && Contents() != [] && slots[head].op == Contents()[0]
      ensures Pop().Valid() && Pop().Contents() == Contents()[1..]
    {
      Wraps(head);
      var r := Pop();
      assert Index(0) == head;
      assert r.Used() == Used() - 1;
      assert forall k :: 0 <= k < r.Used() ==> r.Index(k) == Index(k + 1) && r.slots[r.Index(k)] == slots[Index(k + 1)];
    }
  }

  function NewRing<T>(size: nat): (r: Ring<T>)
    requires size >= 2
    ensures r.Valid() && r.Contents() == []
  {
    Ring(seq(size, _ => Empty), 0, 0)
  }

  class InFlightQueue<T> {
    const slots: array<Slot<T>>
    var head: nat
    var tail: nat

    ghost function View(): Ring<T>
      reads this, slots
    {
      Ring(slots[..], head, tail)
    }

    ghost predicate Valid()
      reads this, slots
    {
      View().Valid()
    }

    constructor (size: nat)
      requires size >= 2
      ensures Valid() && fresh(slots) && View().Contents() == [] && slots.Length == size
    {
      slots := new Slot<T>[size](_ => Empty);
      head, tail := 0, 0;
    }

    /** Queues an operation, or reports that the queue is full and keeps it as it is. */
    method SetNextOperation(op: T) returns (accepted: bool)
      requires Valid()
      modifies `tail, slots
      ensures Valid()
      ensures accepted <==> |old(View().Contents())| < slots.Length - 1
      ensures View().Contents() == old(View().Contents()) + if accepted then [op] else []
      ensures View() == if accepted then old(View()).Push(op) else old(View())
    {
      View().ReadyMeansRoom();
      if (tail + 1) % slots.Length == head { return false; }
      View().PushAppends(op);
      slots[tail] := Full(op);
      tail := (tail + 1) % slots.Length;
      accepted := true;
    }

    /** Takes the oldest operation, if there is one. */
    method TakeOldest() returns (op: Slot<T>)
      requires Valid()
      modifies `head, slots
      ensures Valid()
      ensures op == if old(View().Contents()) == [] then Empty else Full(old(View().Contents())[0])
      ensures View().Contents() == if op.Full? then old(View().Contents())[1..] else []
      ensures View() == if op.Full? then old(View()).Pop() else old(View())
    {
      if head == tail { return Empty; }
      View().PopTakesOldest();
      op := slots[head];
      slots[head] := Empty;
      head := (head + 1) % slots.Length;
    }

    /** Walks from head to tail, as the search for a stream in use does. */
    method Exists(p: T -> bool) returns (found: bool)
      requires Valid()
      ensures found <==> exists op :: op in View().Contents() && p(op)
    {
      ghost var r, n := View(), 0;
      var i := head;
      while i != tail
        invariant 0 <= n <= r.Used() && i == (if n < r.Used() then r.Index(n) else tail)
        invariant forall k :: 0 <= k < n ==> !p(r.Contents()[k])
        decreases r.Used() - n
      {
        assert slots[i] == r.slots[r.Index(n)];
        if p(slots[i].op) {
          assert r.Contents()[n] == slots[i].op;
          return true;
        }
        r.Wraps(i);
        i := (i + 1) % slots.Length;
        n := n + 1;
      }
      return false;
    }
  }
}
