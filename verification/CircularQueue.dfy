/** The ring buffer under spdlog's asynchronous queue, and the blocking queue around it. */
module CircularQueue {

  /** A bounded FIFO that drops its oldest item when an item is pushed into a full one. */
  function Pushed<T>(s: seq<T>, item: T, capacity: nat): (r: seq<T>)
    requires |s| <= capacity
    ensures |r| <= capacity
  {
    if |s| < capacity then s + [item] else (s + [item])[1..]
  }

  /** An index less than one turn ahead, modulo the number of slots. */
  function Turn(x: nat, slots: nat): (r: nat)
    requires x < 2 * slots
    ensures r == if x < slots then x else x - slots
  {
    if x < slots then Below(x, slots); x % slots
    else OneTurn(x - slots, slots); x % slots
  }

  lemma Below(x: nat, slots: nat)
    requires x < slots
    ensures x % slots == x
  {
  }

  lemma OneTurn(x: nat, slots: nat)
    requires x < slots
    ensures (x + slots) % slots == x
  {
    assert (x + slots) / slots == 1;
  }

  /** The stored stretch of the ring. */
  function Window<T>(v: seq<T>, head: nat, tail: nat): (w: seq<T>)
    requires head <= |v| && tail <= |v|
    ensures |w| == if head <= tail then tail - head else |v| - head + tail
  {
    if head <= tail then v[head..tail] else v[head..] + v[..tail]
  }

  lemma PushWindow<T>(v: seq<T>, head: nat, tail: nat, item: T)
    requires head < |v| && tail < |v|
    ensures var next := Turn(tail + 1, |v|);
            next != head ==>
              && |Window(v, head, tail)| + 1 < |v|
              && Window(v[tail := item], head, next) == Window(v, head, tail) + [item]
    ensures Turn(tail + 1, |v|) == head ==> |Window(v, head, tail)| + 1 == |v|
  {
  }

  lemma OverrunWindow<T>(v: seq<T>, head: nat, tail: nat, item: T)
    requires head < |v| && tail < |v| && Turn(tail + 1, |v|) == head
    ensures Window(v[tail := item], Turn(head + 1, |v|), head) == (Window(v, head, tail) + [item])[1..]
  {
    var w := v[tail := item];
    if |v| == 1 {
    } else if head == 0 {
      assert w[1..] + w[..0] == (v[..tail] + [item])[1..];
    } else if head + 1 == |v| {
      assert w[..head] == (v[head..] + v[..tail] + [item])[1..];
    } else {
      assert w[head + 1..] + w[..head] == (v[head..] + v[..tail] + [item])[1..];
    }
  }

  class CircularQ<T(0)> {
    var maxItems: nat
    var head: nat
    var tail: nat
    var overrunCounter: nat
    var v: array<T>

    /** How many items were ever pushed and popped. */
    ghost var pushes: nat
    ghost var pops: nat

    ghost predicate Valid()
      reads this, v
    {
      && v.Length == maxItems
      && (maxItems == 0 ==> head == tail == 0)
      && (maxItems > 0 ==> head < maxItems && tail < maxItems)
      && (maxItems > 0 ==> pushes == |Window(v[..], head, tail)| + pops + overrunCounter)
    }

    ghost function Contents(): seq<T>
      requires Valid()
      reads this, v
    {
      Window(v[..], head, tail)
    }

    /** One slot of the vector stays free; a disabled queue has none at all. */
    ghost function Capacity(): nat
      reads this
    {
      if maxItems == 0 then 0 else maxItems - 1
    }

    constructor Disabled()
      ensures Valid() && fresh(v) && maxItems == 0 && Contents() == []
    {
      maxItems, head, tail, overrunCounter := 0, 0, 0, 0;
      v := new T[0];
      pushes, pops := 0, 0;
    }

    constructor (maxItems: nat)
      ensures Valid() && fresh(v) && this.maxItems == maxItems + 1 && Capacity() == maxItems
      ensures Contents() == [] && overrunCounter == 0 && pushes == 0 && pops == 0
    {
      this.maxItems := maxItems + 1;
      head, tail, overrunCounter := 0, 0, 0;
      v := new T[maxItems + 1];
      pushes, pops := 0, 0;
    }

    method PushBack(item: T)
      requires Valid()
      modifies this, v
      ensures Valid() && v == old(v) && maxItems == old(maxItems)
      ensures |old(Contents())| <= Capacity()
      ensures maxItems == 0 ==> Contents() == [] && overrunCounter == old(overrunCounter)
      ensures maxItems > 0 ==>
                && Contents() == Pushed(old(Contents()), item, Capacity())
                && overrunCounter == old(overrunCounter) + (if |old(Contents())| < Capacity() then 0 else 1)
      ensures pushes == old(pushes) + (if maxItems > 0 then 1 else 0) && pops == old(pops)
    {
      hide Window;
      if maxItems > 0 {
        ghost var slots, h, t := v[..], head, tail;
        PushWindow(slots, h, t, item);
        v[tail] := item;
        tail := Turn(tail + 1, maxItems);
        pushes := pushes + 1;
        if tail == head {
          head := Turn(head + 1, maxItems);
          overrunCounter := overrunCounter + 1;
          OverrunWindow(slots, h, t, item);
        }
        assert v[..] == slots[t := item];
      }
    }

    method Front() returns (item: T)
      requires Valid() && Contents() != []
      ensures item == Contents()[0]
    {
      item := v[head];
    }

    method PopFront()
      requires Valid() && Contents() != []
      modifies this
      ensures Valid() && v == old(v) && maxItems == old(maxItems)
      ensures Contents() == old(Contents())[1..]
      ensures overrunCounter == old(overrunCounter) && pushes == old(pushes) && pops == old(pops) + 1
    {
      head := Turn(head + 1, maxItems);
      pops := pops + 1;
    }

    method Size() returns (n: nat)
      requires Valid()
      ensures n == |Contents()|
    {
      if tail >= head {
        n := tail - head;
      } else {
        n := maxItems - (head - tail);
      }
    }

    method At(i: nat) returns (item: T)
      requires Valid() && i < |Contents()|
      ensures item == Contents()[i]
    {
      item := v[Turn(head + i, maxItems)];
    }

    method Empty() returns (b: bool)
      requires Valid()
      ensures b <==> Contents() == []
    {
      b := tail == head;
    }

    method Full() returns (b: bool)
      requires Valid()
      ensures b <==> maxItems > 0 && |Contents()| == Capacity()
    {
      b := false;
      if maxItems > 0 {
        b := Turn(tail + 1, maxItems) == head;
      }
    }
  }

  /** The queue under its mutex: each method is one critical section, entered when its wait condition holds. */
  class MpmcBlockingQueue<T(0)> {
    const q: CircularQ<T>

    ghost predicate Valid()
      reads this, q, q.v
    {
      q.Valid() && q.maxItems > 0
    }

    constructor (maxItems: nat)
      ensures Valid() && fresh(q) && fresh(q.v)
      ensures q.Capacity() == maxItems && q.Contents() == []
    {
      q := new CircularQ<T>(maxItems);
    }

    /** Waits until the queue is not full. */
    method Enqueue(item: T)
      requires Valid() && |q.Contents()| != q.Capacity()
      modifies q, q.v
      ensures Valid() && q.v == old(q.v) && q.Capacity() == old(q.Capacity())
      ensures q.Contents() == old(q.Contents()) + [item] && q.overrunCounter == old(q.overrunCounter)
    {
      q.PushBack(item);
    }

    /** Never waits; a full queue loses its oldest item. */
    method EnqueueNowait(item: T)
      requires Valid()
      modifies q, q.v
      ensures Valid() && q.v == old(q.v) && q.Capacity() == old(q.Capacity()) && |old(q.Contents())| <= q.Capacity()
      ensures q.Contents() == Pushed(old(q.Contents()), item, q.Capacity())
      ensures q.overrunCounter == old(q.overrunCounter) + (if |old(q.Contents())| < q.Capacity() then 0 else 1)
    {
      q.PushBack(item);
    }

    /** Waits until the queue is not empty. */
    method Dequeue() returns (item: T)
      requires Valid() && q.Contents() != []
      modifies q
      ensures Valid() && q.v == old(q.v) && q.Capacity() == old(q.Capacity())
      ensures old(q.Contents()) == [item] + q.Contents()
    {
      item := q.Front();
      q.PopFront();
    }
  }
}
