/** The bounded drop-oldest queue (include/Utils/LockFreeQueue.hpp), each call atomic. */
module LockFreeQueues {
  import opened Basics

  /** The last n items. */
  function Newest<T>(items: seq<T>, n: nat): (kept: seq<T>)
    ensures |kept| <= n && |kept| <= |items|
  {
    if |items| <= n then items else items[|items| - n..]
  }

  /** (index + 1) % capacity. */
  function Advance(index: nat, capacity: nat): (next: nat)
    requires index < capacity
    ensures next == if index + 1 == capacity then 0 else index + 1
  {
    (index + 1) % capacity
  }

  /** The items from head up to, not including, tail. */
  function Window<T>(slots: seq<T>, head: nat, tail: nat): (items: seq<T>)
    requires head < |slots| && tail < |slots|
    ensures |items| < |slots|
  {
    if head <= tail then slots[head..tail] else slots[head..] + slots[..tail]
  }

  lemma PushIntoRoom<T>(slots: seq<T>, head: nat, tail: nat, item: T)
    requires head < |slots| && tail < |slots| && Advance(tail, |slots|) != head
    ensures Window(slots[tail := item], head, Advance(tail, |slots|)) == Window(slots, head, tail) + [item]
  {
    var slots' := slots[tail := item];
    if head <= tail {
      assert slots'[head..tail + 1] == slots[head..tail] + [item];
      assert slots'[..0] == [];
    } else {
      assert slots'[head..] == slots[head..] && slots'[..tail + 1] == slots[..tail] + [item];
    }
  }

  /** The window of a full queue is everything but the slot at the tail. */
  lemma PushOntoFull<T>(slots: seq<T>, head: nat, tail: nat, item: T)
    requires head < |slots| && tail < |slots| && Advance(tail, |slots|) == head
    ensures |Window(slots, head, tail)| == |slots| - 1
    ensures Window(slots[tail := item], Advance(head, |slots|), head) == (Window(slots, head, tail) + [item])[1..]
  {
    var slots' := slots[tail := item];
    if head == 0 && |slots| > 1 {
      assert slots'[1..] + slots'[..0] == slots'[1..] == slots[1..tail] + [item];
    } else if head > 0 {
      assert slots'[..head] == slots[..tail] + [item] && slots'[head..] == slots[head..];
      assert (slots[head..] + (slots[..tail] + [item]))[1..] == slots[head + 1..] + (slots[..tail] + [item]);
    }
  }

  lemma PopWindow<T>(slots: seq<T>, head: nat, tail: nat)
    requires head < |slots| && tail < |slots| && head != tail
    ensures var items := Window(slots, head, tail);
            items != [] && items[0] == slots[head] && Window(slots, Advance(head, |slots|), tail) == items[1..]
  {}

  class LockFreeQueue<T(0)> {
    const buffer: array<T>
    var head: nat
    var tail: nat

    ghost predicate Valid()
      reads this, buffer
    {
      head < buffer.Length && tail < buffer.Length
    }

    ghost function Contents(): (items: seq<T>)
      requires Valid()
      reads this, buffer
      ensures |items| < buffer.Length
    {
      Window(buffer[..], head, tail)
    }

    constructor (capacity: nat)
      requires capacity > 0
      ensures Valid() && fresh(buffer) && buffer.Length == capacity && Contents() == []
    {
      buffer := new T[capacity];
      head, tail := 0, 0;
    }

    /** The item goes in; of what is then queued the newest capacity - 1 stay. */
    method ForcePush(item: T)
      requires Valid()
      modifies this, buffer
      ensures Valid() && Contents() == Newest(old(Contents()) + [item], buffer.Length - 1)
    {
      var currentTail := tail;
      var nextTail := Advance(currentTail, buffer.Length);
      if nextTail == head {
        PushOntoFull(buffer[..], head, tail, item);
      } else {
        PushIntoRoom(buffer[..], head, tail, item);
      }
      buffer[currentTail] := item;
      assert buffer[..] == old(buffer[..])[currentTail := item];
      tail := nextTail;
      var currentHead := head;
      if nextTail == currentHead {
        head := Advance(currentHead, buffer.Length);
      }
    }

    method Pop() returns (outItem: Option<T>)
      requires Valid()
      modifies this`head
      ensures Valid()
      ensures old(Contents()) == [] ==> outItem == None && Contents() == []
      ensures old(Contents()) != [] ==>
                outItem == Some(old(Contents())[0]) && Contents() == old(Contents())[1..]
    {
      var currentHead := head;
      if currentHead == tail {
        return None;
      }
      PopWindow(buffer[..], head, tail);
      outItem := Some(buffer[currentHead]);
      head := Advance(currentHead, buffer.Length);
    }

    method IsEmpty() returns (empty: bool)
      requires Valid()
      ensures empty <==> Contents() == []
    {
      empty := head == tail;
    }
  }
}

/** Runs of calls on the queue. */
module QueueRuns {
  import opened LockFreeQueues

  datatype Op<T> = Push(item: T) | Pop

  /** How an item left the queue. */
  datatype Exit<T> = Popped(item: T) | Dropped(item: T)

  datatype History<T> = History(contents: seq<T>, exits: seq<Exit<T>>)

  function Next<T>(h: History<T>, op: Op<T>, capacity: nat): History<T>
    requires capacity > 0
  {
    match op
    case Push(item) =>
      if |h.contents| + 1 < capacity then h.(contents := h.contents + [item])
      else History((h.contents + [item])[1..], h.exits + [Dropped((h.contents + [item])[0])])
    case Pop =>
      if h.contents == [] then h
      else History(h.contents[1..], h.exits + [Popped(h.contents[0])])
  }

  function Run<T>(ops: seq<Op<T>>, capacity: nat): History<T>
    requires capacity > 0
  {
    if ops == [] then History([], []) else Next(Run(ops[..|ops| - 1], capacity), ops[|ops| - 1], capacity)
  }

  function Pushes<T>(ops: seq<Op<T>>): seq<T> {
    if ops == [] then []
    else Pushes(ops[..|ops| - 1]) + (if ops[|ops| - 1].Push? then [ops[|ops| - 1].item] else [])
  }

  function Items<T>(exits: seq<Exit<T>>): seq<T> {
    if exits == [] then [] else Items(exits[..|exits| - 1]) + [exits[|exits| - 1].item]
  }

  lemma {:induction false} ItemsSnoc<T>(exits: seq<Exit<T>>, e: Exit<T>)
    ensures Items(exits + [e]) == Items(exits) + [e.item]
  {
    assert (exits + [e])[..|exits|] == exits;
  }

  /** One step keeps exactly the newest capacity - 1 items, which is what forcePush and
      pop are proved to do on the ring. */
  lemma StepKeepsNewest<T>(h: History<T>, op: Op<T>, capacity: nat)
    requires capacity > 0 && |h.contents| < capacity
    ensures op.Push? ==> Next(h, op, capacity).contents == Newest(h.contents + [op.item], capacity - 1)
    ensures op.Pop? && h.contents != [] ==>
              Next(h, op, capacity) == History(h.contents[1..], h.exits + [Popped(h.contents[0])])
  {}

  /** Conservation and order: the items that left, in the order they left, followed by the
      items still held, are exactly the items pushed, in push order. So each pushed item is
      popped, dropped as oldest, or still held, exactly once, and nothing overtakes. */
  lemma {:induction false} EveryItemAccountedFor<T>(ops: seq<Op<T>>, capacity: nat)
    requires capacity > 0
    ensures var h := Run(ops, capacity);
            Items(h.exits) + h.contents == Pushes(ops) && |h.contents| < capacity
  {
    if ops != [] {
      EveryItemAccountedFor(ops[..|ops| - 1], capacity);
      StepConserves(Run(ops[..|ops| - 1], capacity), ops[|ops| - 1], capacity);
    }
  }

  lemma StepConserves<T>(h: History<T>, op: Op<T>, capacity: nat)
    requires capacity > 0 && |h.contents| < capacity
    ensures var h' := Next(h, op, capacity);
            && Items(h'.exits) + h'.contents == Items(h.exits) + h.contents + (if op.Push? then [op.item] else [])
            && |h'.contents| < capacity
  {
    var h' := Next(h, op, capacity);
    var all := h.contents + (if op.Push? then [op.item] else []);
    assert Items(h.exits) + h.contents + (if op.Push? then [op.item] else []) == Items(h.exits) + all;
    if h'.exits != h.exits {
      ItemsSnoc(h.exits, if op.Push? then Dropped(all[0]) else Popped(all[0]));
      assert h'.contents == all[1..];
    }
  }

  /** An item is dropped only when capacity - 1 items are held and another arrives. */
  lemma DropsOnlyWhenFull<T>(ops: seq<Op<T>>, op: Op<T>, capacity: nat)
    requires capacity > 0
    ensures var h := Run(ops, capacity);
            var h' := Run(ops + [op], capacity);
            (|h'.exits| > |h.exits| && h'.exits[|h.exits|].Dropped?) <==> (op.Push? && |h.contents| == capacity - 1)
  {
    assert (ops + [op])[..|ops|] == ops;
    EveryItemAccountedFor(ops, capacity);
  }
}
