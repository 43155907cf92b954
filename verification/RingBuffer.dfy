/** The circular error buffer: an array written in place, as a bounded sequence
    that drops its oldest element when it overflows. */
module RingBuffer {
  import opened Common

  /** What adding does to the sequence. */
  function Added<T>(s: seq<T>, capacity: nat, x: T): seq<T> {
    if |s| < capacity then s + [x] else (s + [x])[1..]
  }

  /** The sequence after adding all of xs to s. */
  function AddedAll<T>(s: seq<T>, capacity: nat, xs: seq<T>): seq<T> {
    if xs == [] then s else Added(AddedAll(s, capacity, xs[..|xs| - 1]), capacity, xs[|xs| - 1])
  }

  /** After any run of additions the buffer holds the last min(n, capacity) elements, in order. */
  lemma {:induction false} KeepsTheLast<T>(capacity: nat, xs: seq<T>)
    requires capacity > 0
    ensures AddedAll([], capacity, xs) == if |xs| <= capacity then xs else xs[|xs| - capacity..]
  {
    if xs != [] {
      var before := xs[..|xs| - 1];
      KeepsTheLast(capacity, before);
      assert xs == before + [xs[|xs| - 1]];
    }
  }

  class CircularErrorBuffer<T> {
    var buffer: array<Option<T>>
    const capacity: nat
    var size: nat
    var head: nat
    var tail: nat
    /** The errors in the buffer, oldest first. */
    ghost var contents: seq<T>

    /** The array index of the i-th live slot. */
    ghost function Slot(i: nat): nat
      reads this`tail
    {
      if tail + i < capacity then tail + i else tail + i - capacity
    }

    ghost predicate Valid()
      reads this, buffer
    {
      && buffer.Length == capacity > 0
      && tail < capacity && size <= capacity
      && head == (if size == capacity then tail else Slot(size))
      && |contents| == size
      && (forall i :: 0 <= i < size ==> buffer[Slot(i)] == Some(contents[i]))
      && (forall i :: size <= i < capacity ==> buffer[Slot(i)] == None)
    }

    /** head is the slot after the live window, by the program's own formula. */
    lemma HeadFormula()
      requires Valid()
      ensures head == (tail + size) % capacity
      ensures forall i :: 0 <= i < capacity ==> Slot(i) == (tail + i) % capacity
    {
      forall i | 0 <= i <= capacity ensures (tail + i) % capacity == (if i == capacity then tail else Slot(i)) {
        Wrap(tail + i, capacity);
      }
    }

    static lemma Wrap(x: nat, n: nat)
      requires n > 0 && x < 2 * n
      ensures x % n == if x < n then x else x - n
    {
    }

    constructor (capacity: nat)
      requires capacity > 0
      ensures Valid() && fresh(buffer) && this.capacity == capacity && contents == []
    {
      this.capacity := capacity;
      buffer := new Option<T>[capacity](_ => None);
      size, head, tail := 0, 0, 0;
      contents := [];
    }

    method Add(err: Option<T>) returns (ok: bool)
      requires Valid()
      modifies this, buffer
      ensures Valid() && buffer == old(buffer)
      ensures ok == err.Some?
      ensures contents == if err.Some? then Added(old(contents), capacity, err.value) else old(contents)
    {
      if err.None? {
        return false;
      }
      Wrap(head + 1, capacity);
      Wrap(tail + 1, capacity);
      buffer[head] := err;
      head := (head + 1) % capacity;
      if size < capacity {
        size := size + 1;
      } else {
        tail := (tail + 1) % capacity;
      }
      contents := Added(contents, capacity, err.value);
      forall i | 0 <= i < capacity ensures buffer[Slot(i)] == if i < size then Some(contents[i]) else None {
        if old(size) < capacity {
          assert Slot(i) == old(Slot(i));
          assert i != old(size) ==> Slot(i) != old(head);
        } else if i + 1 < capacity {
          assert Slot(i) == old(Slot(i + 1)) != old(head);
          assert contents[i] == old(contents)[i + 1];
        } else {
          assert Slot(i) == old(head);
        }
      }
      return true;
    }

    /** Everything, oldest first; nothing is removed. */
    method GetAll() returns (result: array<Option<T>>)
      requires Valid()
      ensures fresh(result) && result.Length == |contents|
      ensures forall i :: 0 <= i < |contents| ==> result[i] == Some(contents[i])
    {
      HeadFormula();
      result := new Option<T>[size](_ => None);
      for i := 0 to size
        invariant forall j :: 0 <= j < i ==> result[j] == Some(contents[j])
      {
        result[i] := buffer[(tail + i) % capacity];
      }
    }

    /** Removes and returns the oldest elements, as many as asked for and present. */
    method GetBatch(count: int) returns (result: array<Option<T>>)
      requires Valid()
      modifies this, buffer
      ensures Valid() && buffer == old(buffer) && fresh(result)
      ensures var n := if count <= 0 then 0 else if count > old(size) then old(size) else count;
              && result.Length == n
              && (forall i :: 0 <= i < n ==> result[i] == Some(old(contents)[i]))
              && contents == old(contents)[n..]
    {
      if count <= 0 || size == 0 {
        result := new Option<T>[0];
        return;
      }
      var n := if count > size then size else count;
      result := TakeOut(n);
      Advance(n);
    }

    /** The loop of GetBatch: reads and empties the first n slots. */
    method TakeOut(n: nat) returns (result: array<Option<T>>)
      requires Valid() && n <= size
      modifies buffer
      ensures fresh(result) && result.Length == n
      ensures forall j :: 0 <= j < n ==> result[j] == Some(contents[j])
      ensures EmptiedUpTo(n)
    {
      result := new Option<T>[n](_ => None);
      for i := 0 to n
        modifies result, buffer
        invariant forall j :: 0 <= j < i ==> result[j] == Some(contents[j])
        invariant EmptiedUpTo(i)
      {
        Wrap(tail + i, capacity);
        var pos := (tail + i) % capacity;
        assert pos == Slot(i);
        result[i] := buffer[pos];
        buffer[pos] := None;
      }
    }

    /** The first n live slots have been emptied. */
    ghost predicate EmptiedUpTo(n: nat)
      requires buffer.Length == capacity && tail < capacity && n <= size <= |contents|
      reads this`buffer, this`size, this`tail, this`contents, buffer
    {
      forall j :: 0 <= j < capacity ==> buffer[Slot(j)] == if n <= j < size then Some(contents[j]) else None
    }

    /** The end of GetBatch: the first n slots have been emptied. */
    method Advance(n: nat)
      requires buffer.Length == capacity > 0 && tail < capacity && n <= size <= capacity && |contents| == size
      requires head == (if size == capacity then tail else Slot(size)) && n > 0
      requires EmptiedUpTo(n)
      modifies this`tail, this`size, this`contents
      ensures Valid() && contents == old(contents)[n..]
    {
      Wrap(tail + n, capacity);
      tail := (tail + n) % capacity;
      size := size - n;
      contents := contents[n..];
      forall i | 0 <= i < capacity ensures buffer[Slot(i)] == if i < size then Some(contents[i]) else None {
        var j := if i + n < capacity then i + n else i + n - capacity;
        assert Slot(i) == old(Slot(j));
      }
    }

    method Clear()
      requires Valid()
      modifies this, buffer
      ensures Valid() && buffer == old(buffer) && contents == []
    {
      for i := 0 to capacity
        invariant buffer == old(buffer)
        invariant forall j :: 0 <= j < i ==> buffer[j] == None
      {
        buffer[i] := None;
      }
      size, head, tail := 0, 0, 0;
      contents := [];
    }

    method GetOldest() returns (r: Option<T>)
      requires Valid()
      ensures r == if contents == [] then None else Some(contents[0])
    {
      if size == 0 {
        return None;
      }
      assert Slot(0) == tail;
      return buffer[tail];
    }

    method GetNewest() returns (r: Option<T>)
      requires Valid()
      ensures r == if contents == [] then None else Some(contents[|contents| - 1])
    {
      if size == 0 {
        return None;
      }
      Wrap(head - 1 + capacity, capacity);
      assert (head - 1 + capacity) % capacity == Slot(size - 1);
      return buffer[(head - 1 + capacity) % capacity];
    }

    /** An independent buffer with the same contents. */
    method Clone() returns (c: CircularErrorBuffer<T>)
      requires Valid()
      ensures c.Valid() && fresh(c) && fresh(c.buffer) && c.capacity == capacity && c.contents == contents
    {
      c := new CircularErrorBuffer<T>(capacity);
      c.size, c.head, c.tail, c.contents := size, head, tail, contents;
      for i := 0 to capacity
        invariant fresh(c.buffer) && c.buffer.Length == capacity
        invariant c.size == size && c.head == head && c.tail == tail && c.contents == contents
        invariant forall j :: 0 <= j < i ==> c.buffer[j] == buffer[j]
      {
        c.buffer[i] := buffer[i];
      }
      assert forall i :: 0 <= i < capacity ==> c.Slot(i) == Slot(i);
    }
  }

  /** A capacity of zero or less gives no buffer. */
  method NewCircularErrorBuffer<T>(capacity: int) returns (b: CircularErrorBuffer?<T>)
    ensures b == null <==> capacity <= 0
    ensures b != null ==> b.Valid() && fresh(b) && fresh(b.buffer) && b.capacity == capacity && b.contents == []
  {
    if capacity <= 0 {
      return null;
    }
    b := new CircularErrorBuffer<T>(capacity);
  }
}
