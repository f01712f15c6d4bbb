/** The ring container template: an array, a front and an end index that are equal when the ring is
    empty, so that one slot always stays free. */
module CircularBuffer {

  /** Outcome of an access: a value, an exception, or an index beyond the array. */
  datatype Access<T> = Value(value: T) | Throws | BeyondArray

  /** Index arithmetic on the ring, for an index less than one turn too large. */
  function Wrapped(index: nat, size: nat): nat {
    if index < size then index else index - size
  }

  lemma WrapsOnce(index: nat, size: nat)
    requires index < 2 * size
    ensures index % size == Wrapped(index, size)
  {
    if index >= size {
      assert index == 1 * size + (index - size);
      assert (index - size) % size == index - size;
    }
  }

  /** Pushing on a bounded sequence drops the oldest element when there is no room. */
  function Push<T>(s: seq<T>, value: T, capacity: nat): seq<T> {
    if |s| < capacity then s + [value] else (s + [value])[1..]
  }

  function PushAll<T>(s: seq<T>, values: seq<T>, capacity: nat): seq<T> {
    if values == [] then s else Push(PushAll(s, values[..|values| - 1], capacity), values[|values| - 1], capacity)
  }

  /** Pushing many keeps the latest. */
  lemma {:induction false} KeepsLatest<T>(values: seq<T>, capacity: nat)
    ensures PushAll([], values, capacity) == if |values| <= capacity then values else values[|values| - capacity..]
  {
    if values != [] {
      var n := |values|;
      var before, last := values[..n - 1], values[n - 1];
      KeepsLatest(before, capacity);
      assert values == before + [last];
      if n - 1 > capacity {
        assert before[n - 1 - capacity..] + [last] == values[n - 1 - capacity..];
      }
    }
  }

  lemma Pushed<T>(before: seq<T>, after: seq<T>, value: T, dropped: nat)
    requires dropped <= 1 && |after| == |before| + 1 - dropped
    requires forall k | 0 <= k < |after| :: after[k] == if k + dropped < |before| then before[k + dropped] else value
    ensures after == (before + [value])[dropped..]
  {
  }

  class Ring<T> {
    const size: nat
    const blank: T
    const slots: array<T>
    var front: nat
    var end: nat

    ghost predicate Valid()
      reads this
    {
      0 < size && slots.Length == size && front < size && end < size
    }

    /** Number of elements. */
    function Count(): (n: nat)
      requires Valid()
      reads this
      ensures n < size
      ensures end == Wrapped(front + n, size)
    {
      if end < front then end + size - front else end - front
    }

    function Element(k: nat): T
      requires Valid() && k < size
      reads this, slots
    {
      slots[Wrapped(front + k, size)]
    }

    ghost function Contents(): (s: seq<T>)
      requires Valid()
      reads this, slots
      ensures |s| == Count()
    {
      seq(Count(), k requires Valid() && 0 <= k < Count() reads this, slots => Element(k))
    }

    constructor (size: nat, blank: T, init: seq<T>)
      requires size > 0
      ensures Valid() && fresh(slots) && this.size == size && this.blank == blank
      ensures Contents() == PushAll([], init, size - 1)
    {
      this.size := size;
      this.blank := blank;
      slots := new T[size](_ => blank);
      front, end := 0, 0;
      new;
      assert Contents() == [];
      for i := 0 to |init|
        invariant Valid() && fresh(slots) && this.size == size && this.blank == blank
        invariant Contents() == PushAll([], init[..i], size - 1)
      {
        assert init[..i + 1][..i] == init[..i];
        PushBack(init[i]);
      }
      assert init[..|init|] == init;
    }

    method Clear()
      requires Valid()
      modifies this
      ensures Valid() && Contents() == []
    {
      front := 0;
      end := 0;
    }

    method Following(index: nat) returns (next: nat)
      requires Valid() && index < size
      ensures next == Wrapped(index + 1, size)
    {
      WrapsOnce(index + 1, size);
      next := (index + 1) % size;
    }

    method PushBack(value: T)
      requires Valid()
      modifies this, slots
      ensures Valid() && Contents() == Push(old(Contents()), value, size - 1)
    {
      ghost var before, n := Contents(), Count();
      slots[end] := value;
      end := Following(end);
      if end == front {
        front := Following(front);
      }
      ghost var dropped := if n < size - 1 then 0 else 1;
      assert Count() == n + 1 - dropped;
      assert front == Wrapped(old(front) + dropped, size);
      forall k | 0 <= k < Count()
        ensures Element(k) == if k + dropped < n then before[k + dropped] else value
      {
        assert Wrapped(front + k, size) == Wrapped(old(front) + (k + dropped), size);
        if k + dropped < n {
          assert before[k + dropped] == old(Element(k + dropped));
        }
      }
      Pushed(before, Contents(), value, dropped);
    }

    method PopFront()
      requires Valid()
      modifies this, slots
      ensures Valid() && Contents() == if old(Contents()) == [] then [] else old(Contents())[1..]
    {
      if front != end {
        ghost var before := Contents();
        slots[front] := blank;
        front := Following(front);
        forall k | 0 <= k < |Contents()|
          ensures Contents()[k] == before[k + 1]
        {
        }
      }
    }

    method Front() returns (r: Access<T>)
      requires Valid()
      ensures r == if Contents() == [] then Throws else Value(Contents()[0])
    {
      if front == end {
        r := Throws;
      } else {
        r := Value(slots[front]);
      }
    }

    /** The position of an element: the remainder is taken of the offset, not of the sum. */
    function Position(offset: nat): nat
      requires Valid()
      reads this
    {
      front + offset % size
    }

    method Fetch(offset: nat) returns (r: Access<T>)
      requires Valid()
      ensures r == if Position(offset) < size then Value(slots[Position(offset)]) else BeyondArray
    {
      r := if Position(offset) < size then Value(slots[Position(offset)]) else BeyondArray;
    }

    /** Indexed access agrees with the sequence exactly while front and offset stay inside the array;
        the position just past the last element is let through. */
    method At(pos: nat) returns (r: Access<T>)
      requires Valid()
      ensures r == Throws <==> pos > |Contents()|
      ensures pos < |Contents()| ==> (r == Value(Contents()[pos]) <==> front + pos < size)
      ensures pos < |Contents()| && front + pos >= size ==> r == BeyondArray
    {
      if pos > Count() {
        return Throws;
      }
      WrapsOnce(pos, size);
      r := Fetch(pos);
    }

    /** The last element, under the same condition. */
    method Back() returns (r: Access<T>)
      requires Valid()
      ensures r == Throws <==> Contents() == []
      ensures Contents() != [] ==>
                (r == Value(Contents()[|Contents()| - 1]) <==> front + (|Contents()| - 1) < size)
    {
      if front == end {
        return Throws;
      }
      WrapsOnce(Count() - 1, size);
      r := Fetch(Count() - 1);
    }
  }
}
