/** The ring buffer (a vector with wrap-around indices) and the "keep the last n" sequence it stands for. */
module CircularQueue {

  // ---------------------------------------------------------------- specification

  /** Appending to a bounded sequence drops the oldest element when there is no room left. */
  function Push<T>(items: seq<T>, capacity: nat, item: T): (r: seq<T>)
    requires |items| <= capacity
    ensures |r| <= capacity
  {
    if |items| < capacity then items + [item] else (items + [item])[1..]
  }

  function PushAll<T>(items: seq<T>, capacity: nat, added: seq<T>): (r: seq<T>)
    requires |items| <= capacity
    ensures |r| <= capacity
    decreases |added|
  {
    if added == [] then items else PushAll(Push(items, capacity, added[0]), capacity, added[1..])
  }

  function LastN<T>(s: seq<T>, n: nat): seq<T> {
    if |s| <= n then s else s[|s| - n..]
  }

  /** Pushing any number of elements one at a time keeps exactly the last `capacity` of them all. */
  lemma {:induction false} PushAllKeepsLast<T>(items: seq<T>, capacity: nat, added: seq<T>)
    requires |items| <= capacity
    ensures PushAll(items, capacity, added) == LastN(items + added, capacity)
    decreases |added|
  {
    if added != [] {
      PushAllKeepsLast(Push(items, capacity, added[0]), capacity, added[1..]);
      assert items + added == (items + [added[0]]) + added[1..];
      LastOfPush(items, capacity, added[0], added[1..]);
    }
  }

  lemma LastOfPush<T>(items: seq<T>, capacity: nat, item: T, rest: seq<T>)
    requires |items| <= capacity
    ensures LastN(Push(items, capacity, item) + rest, capacity) == LastN((items + [item]) + rest, capacity)
  {
    if |items| == capacity {
      assert (items + [item])[1..] + rest == ((items + [item]) + rest)[1..];
    }
  }

  // ---------------------------------------------------------------- the ring

  function Next(i: nat, m: nat): nat {
    if i + 1 == m then 0 else i + 1
  }

  /** Wrapping an index that is at most one turn too far. */
  lemma Wrap(i: nat, m: nat)
    requires i < 2 * m
    ensures i % m == if i < m then i else i - m
  {
    if i < m {
      assert i == 0 * m + i;
    } else {
      assert i == 1 * m + (i - m);
    }
  }

  lemma WrapNext(i: nat, m: nat)
    requires i < m
    ensures (i + 1) % m == Next(i, m)
  {
    Wrap(i + 1, m);
  }

  /** What the cells hold, oldest first, between the head and the tail index. */
  function View<T>(cells: seq<T>, head: nat, tail: nat): (s: seq<T>)
    requires head < |cells| && tail < |cells|
    ensures |s| < |cells|
  {
    if head <= tail then cells[head..tail] else cells[head..] + cells[..tail]
  }

  lemma ViewAt<T>(cells: seq<T>, head: nat, tail: nat, i: nat)
    requires head < |cells| && tail < |cells| && i < |View(cells, head, tail)|
    ensures (head + i) % |cells| < |cells| && View(cells, head, tail)[i] == cells[(head + i) % |cells|]
  {
    Wrap(head + i, |cells|);
  }

  /** Storing at the tail, and dropping the head when the two indices meet, is a bounded push. */
  lemma ViewPush<T>(cells: seq<T>, head: nat, tail: nat, item: T)
    requires head < |cells| && tail < |cells|
    ensures var next := Next(tail, |cells|);
            View(cells[tail := item], if next == head then Next(head, |cells|) else head, next)
            == Push(View(cells, head, tail), |cells| - 1, item)
  {
    var next := Next(tail, |cells|);
    var after := cells[tail := item];
    if next != head {
      assert View(after, head, next) == View(cells, head, tail) + [item];
    } else if next == 0 {
      assert View(cells, head, tail) == cells[..tail];
      assert View(after, Next(head, |cells|), next) == (cells[..tail] + [item])[1..];
    } else {
      assert View(cells, head, tail) == cells[head..] + cells[..tail];
      assert View(after, Next(head, |cells|), next) == (cells[head..] + cells[..tail] + [item])[1..];
    }
  }

  /** The buffer is full exactly when the next tail would meet the head. */
  lemma ViewIsFull<T>(cells: seq<T>, head: nat, tail: nat)
    requires head < |cells| && tail < |cells|
    ensures |View(cells, head, tail)| == |cells| - 1 <==> Next(tail, |cells|) == head
  {
  }

  lemma ViewPop<T>(cells: seq<T>, head: nat, tail: nat)
    requires head < |cells| && tail < |cells| && head != tail
    ensures View(cells, Next(head, |cells|), tail) == View(cells, head, tail)[1..]
  {
  }

  class CircularQ<T(0)> {
    var maxItems: nat
    var head: nat
    var tail: nat
    var overrunCounter: nat
    var v: array<T>

    ghost predicate Valid()
      reads this
    {
      && (maxItems == 0 ==> head == 0 && tail == 0)
      && (maxItems > 0 ==> v.Length == maxItems && head < maxItems && tail < maxItems)
    }

    /** A ring built with capacity n has n + 1 cells; the default ring has none and stores nothing. */
    ghost function Capacity(): nat
      reads this
    {
      if maxItems == 0 then 0 else maxItems - 1
    }

    ghost function Contents(): (s: seq<T>)
      reads this, v
      requires Valid()
      ensures |s| <= Capacity()
    {
      if maxItems == 0 then [] else View(v[..], head, tail)
    }

    /** The default constructor: a disabled ring. */
    constructor Disabled()
      ensures Valid() && maxItems == 0 && Contents() == [] && overrunCounter == 0 && fresh(v)
    {
      maxItems, head, tail, overrunCounter := 0, 0, 0, 0;
      v := new T[0];
    }

    constructor (capacity: nat)
      ensures Valid() && maxItems == capacity + 1 && Contents() == [] && overrunCounter == 0 && fresh(v)
    {
      maxItems, head, tail, overrunCounter := capacity + 1, 0, 0, 0;
      v := new T[capacity + 1];
    }

    method PushBack(item: T)
      requires Valid()
      modifies this`head, this`tail, this`overrunCounter, v
      ensures Valid()
      ensures Contents() == if maxItems == 0 then old(Contents()) else Push(old(Contents()), Capacity(), item)
      ensures overrunCounter ==
              old(overrunCounter) + if maxItems > 0 && |old(Contents())| == Capacity() then 1 else 0
    {
      if maxItems > 0 {
        WrapNext(tail, maxItems);
        WrapNext(head, maxItems);
        ViewPush(v[..], head, tail, item);
        ViewIsFull(v[..], head, tail);
        ghost var stored := v[..][tail := item];
        v[tail] := item;
        assert v[..] == stored;
        tail := (tail + 1) % maxItems;
        if tail == head { // overrun the oldest item
          head := (head + 1) % maxItems;
          overrunCounter := overrunCounter + 1;
        }
      }
    }

    method Front() returns (item: T)
      requires Valid() && Contents() != []
      ensures item == Contents()[0]
    {
      item := v[head];
    }

    method Size() returns (n: nat)
      requires Valid()
      ensures n == |Contents()|
    {
      if tail >= head {
        n := tail - head;
      } else {
        n := maxItems - (head - tail);
      }
    }

    method At(i: nat) returns (item: T)
      requires Valid() && i < |Contents()|
      ensures item == Contents()[i]
    {
      ViewAt(v[..], head, tail, i);
      item := v[(head + i) % maxItems];
    }

    method PopFront()
      requires Valid() && Contents() != []
      modifies this`head
      ensures Valid() && Contents() == old(Contents())[1..]
    {
      Wrap(head + 1, maxItems);
      ViewPop(v[..], head, tail);
      head := (head + 1) % maxItems;
    }

    method Empty() returns (b: bool)
      requires Valid()
      ensures b <==> Contents() == []
    {
      b := tail == head;
    }

    method Full() returns (b: bool)
      requires Valid()
      ensures b <==> maxItems > 0 && |Contents()| == Capacity()
    {
      if maxItems > 0 {
        Wrap(tail + 1, maxItems);
        b := (tail + 1) % maxItems == head;
      } else {
        b := false;
      }
    }

    method ResetOverrunCounter()
      modifies this`overrunCounter
      ensures overrunCounter == 0
    {
      overrunCounter := 0;
    }

    /** Move assignment: takes the other ring's storage and leaves that ring disabled. */
    method CopyMoveable(other: CircularQ<T>)
      requires other != this && other.Valid()
      modifies this, other
      ensures Valid() && Contents() == old(other.Contents()) && maxItems == old(other.maxItems)
      ensures overrunCounter == old(other.overrunCounter) && v == old(other.v)
      ensures other.Valid() && other.maxItems == 0 && other.Contents() == [] && other.overrunCounter == 0
      ensures fresh(other.v)
    {
      maxItems := other.maxItems;
      head := other.head;
      tail := other.tail;
      overrunCounter := other.overrunCounter;
      v := other.v;
      other.v := new T[0];
      other.maxItems := 0;
      other.head, other.tail := 0, 0;
      other.overrunCounter := 0;
    }
  }
}
