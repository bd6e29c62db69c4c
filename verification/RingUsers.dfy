/** The two owners of a message ring: the backtracer and the ring-buffer sink. */
module RingUsers {
  import opened CircularQueue

  /** The messages returned for a limit, where 0 stands for "all of them". */
  function LastRawSpec<T>(stored: seq<T>, lim: nat): seq<T> {
    if lim == 0 then stored else LastN(stored, lim)
  }

  class Backtracer<T(0)> {
    var enabled: bool
    var messages: CircularQ<T>

    ghost predicate Valid()
      reads this, messages
    {
      messages.Valid()
    }

    ghost function Stored(): seq<T>
      reads this, messages, messages.v
      requires Valid()
    {
      messages.Contents()
    }

    constructor ()
      ensures Valid() && !enabled && messages.maxItems == 0 && Stored() == []
      ensures fresh(messages) && fresh(messages.v)
    {
      enabled := false;
      messages := new CircularQ<T>.Disabled();
    }

    /** Starts a new, empty ring; whatever was stored before is forgotten. */
    method Enable(size: nat)
      requires Valid()
      modifies this, messages
      ensures Valid() && messages == old(messages) && fresh(messages.v)
      ensures enabled && messages.maxItems == size + 1 && Stored() == []
    {
      enabled := true;
      var ring := new CircularQ<T>(size);
      messages.CopyMoveable(ring);
    }

    /** Disabling keeps the stored messages. */
    method Disable()
      requires Valid()
      modifies this`enabled
      ensures Valid() && !enabled && Stored() == old(Stored())
    {
      enabled := false;
    }

    method PushBack(msg: T)
      requires Valid()
      modifies messages, messages.v
      ensures Valid() && messages.maxItems == old(messages.maxItems) && messages.v == old(messages.v)
      ensures Stored() == if messages.maxItems == 0 then old(Stored())
                          else Push(old(Stored()), messages.maxItems - 1, msg)
    {
      messages.PushBack(msg);
    }

    /** Applies the callback to each stored message; `delivered` lists its arguments in call order. */
    method ForeachPop() returns (delivered: seq<T>)
      requires Valid()
      modifies messages`head
      ensures Valid() && messages.maxItems == old(messages.maxItems)
      ensures delivered == old(Stored()) && Stored() == []
    {
      delivered := [];
      var isEmpty := messages.Empty();
      while !isEmpty
        invariant messages.Valid()
        invariant isEmpty <==> messages.Contents() == []
        invariant delivered + messages.Contents() == old(Stored())
        decreases |messages.Contents()|
      {
        var frontMsg := messages.Front();
        delivered := delivered + [frontMsg];
        messages.PopFront();
        isEmpty := messages.Empty();
      }
    }
  }

  class RingbufferSink<T(0)> {
    var q: CircularQ<T>

    ghost predicate Valid()
      reads this, q
    {
      q.Valid() && q.maxItems > 0
    }

    constructor (nItems: nat)
      ensures Valid() && q.maxItems == nItems + 1 && q.Contents() == [] && fresh(q) && fresh(q.v)
    {
      q := new CircularQ<T>(nItems);
    }

    method SinkIt(msg: T)
      requires Valid()
      modifies q, q.v
      ensures Valid() && q.maxItems == old(q.maxItems) && q.v == old(q.v)
      ensures q.Contents() == Push(old(q.Contents()), q.maxItems - 1, msg)
    {
      q.PushBack(msg);
    }

    method LastRaw(lim: nat) returns (ret: seq<T>)
      requires Valid()
      ensures ret == LastRawSpec(q.Contents(), lim)
    {
      var itemsAvailable := q.Size();
      var nItems := if lim > 0 then if lim < itemsAvailable then lim else itemsAvailable else itemsAvailable;
      ret := [];
      var i := itemsAvailable - nItems;
      while i < itemsAvailable
        invariant itemsAvailable - nItems <= i <= itemsAvailable
        invariant ret == q.Contents()[itemsAvailable - nItems..i]
      {
        var item := q.At(i);
        ret := ret + [item];
        i := i + 1;
      }
    }
  }

  /** A dump after `Enable(n)` and any pushes delivers exactly the last min(n, m) of the m messages, in order. */
  lemma BacktraceDeliversLast<T>(n: nat, pushed: seq<T>)
    ensures var delivered := PushAll([], n, pushed);
            && delivered == LastN(pushed, n)
            && |delivered| == (if n < |pushed| then n else |pushed|)
            && pushed[|pushed| - |delivered|..] == delivered
  {
    PushAllKeepsLast([], n, pushed);
    assert [] + pushed == pushed;
  }

  /** Enabling a backtracer, storing messages and dumping them, on the object: whatever it held before, the dump delivers
      the last n of the messages stored since, and leaves nothing. */
  method EnableStoreDump<T(0)>(tracer: Backtracer<T>, n: nat, pushed: seq<T>) returns (delivered: seq<T>)
    requires tracer.Valid()
    modifies tracer, tracer.messages, tracer.messages.v
    ensures tracer.Valid() && delivered == LastN(pushed, n) && tracer.Stored() == []
  {
    tracer.Enable(n);
    ghost var cells := tracer.messages.v;
    for i := 0 to |pushed|
      invariant tracer.Valid() && tracer.messages == old(tracer.messages)
      invariant tracer.messages.v == cells && fresh(cells) && tracer.messages.maxItems == n + 1
      invariant tracer.Stored() == PushAll([], n, pushed[..i])
    {
      tracer.PushBack(pushed[i]);
      PushAllSnoc([], n, pushed[..i], pushed[i]);
      assert pushed[..i + 1] == pushed[..i] + [pushed[i]];
    }
    assert pushed[..|pushed|] == pushed;
    BacktraceDeliversLast(n, pushed);
    delivered := tracer.ForeachPop();
  }

  lemma {:induction false} PushAllSnoc<T>(items: seq<T>, capacity: nat, added: seq<T>, item: T)
    requires |items| <= capacity
    ensures PushAll(items, capacity, added + [item]) == Push(PushAll(items, capacity, added), capacity, item)
    decreases |added|
  {
    if added == [] {
      assert added + [item] == [item] && [item][1..] == [];
    } else {
      assert (added + [item])[1..] == added[1..] + [item];
      PushAllSnoc(Push(items, capacity, added[0]), capacity, added[1..], item);
    }
  }

  /** Logging to a new ring sink and reading it, on the object: the last messages up to the limit and the size of the
      ring. */
  method LogAndRead<T(0)>(n: nat, received: seq<T>, lim: nat) returns (sink: RingbufferSink<T>, ret: seq<T>)
    ensures fresh(sink) && sink.Valid() && sink.q.Contents() == LastN(received, n)
    ensures ret == LastN(received, if lim == 0 || n < lim then n else lim)
  {
    sink := new RingbufferSink(n);
    for i := 0 to |received|
      invariant fresh(sink) && sink.Valid() && fresh(sink.q) && fresh(sink.q.v) && sink.q.maxItems == n + 1
      invariant sink.q.Contents() == PushAll([], n, received[..i])
    {
      sink.SinkIt(received[i]);
      PushAllSnoc([], n, received[..i], received[i]);
      assert received[..i + 1] == received[..i] + [received[i]];
    }
    assert received[..|received|] == received;
    BacktraceDeliversLast(n, received);
    RingSinkReturnsLast(n, received, lim);
    ret := sink.LastRaw(lim);
  }

  /** The limited read of a ring sink, stated over everything the sink ever received. */
  lemma RingSinkReturnsLast<T>(n: nat, received: seq<T>, lim: nat)
    ensures var ret := LastRawSpec(PushAll([], n, received), lim);
            ret == LastN(received, if lim == 0 || n < lim then n else lim)
  {
    PushAllKeepsLast([], n, received);
    assert [] + received == received;
  }
}
