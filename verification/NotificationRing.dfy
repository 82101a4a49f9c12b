/** A client's notification queue: a ring buffer filled under the client's lock by
    whoever has news for it and drained by the client's notification thread. */
module NotificationRing {
  import opened Matching

  // ---------- The ring as a value, and the queue it stands for ----------

  /** The slot after slot i of n. */
  function NextIndex(i: nat, n: nat): (r: nat)
    requires i < n
    ensures r == if i + 1 == n then 0 else i + 1
  {
    (i + 1) % n
  }

  datatype Ring = Ring(slots: seq<Message>, head: nat, tail: nat) {
    predicate Valid() {
      head < |slots| && tail < |slots|
    }

    function Length(): (n: nat)
      requires Valid()
      ensures n < |slots|
    {
      if tail <= head then head - tail else head + |slots| - tail
    }

    /** The queued messages, oldest first: from tail up to head, around the end. */
    function Queue(): (q: seq<Message>)
      requires Valid()
      ensures |q| == Length()
    {
      if tail <= head then slots[tail..head] else slots[tail..] + slots[..head]
    }

    predicate Full()
      requires Valid()
    {
      NextIndex(head, |slots|) == tail
    }

    function Enqueue(m: Message): (r: Ring)
      requires Valid()
      ensures r.Valid() && |r.slots| == |slots|
    {
      if Full() then this else Ring(slots[head := m], NextIndex(head, |slots|), tail)
    }

    function Dequeue(): (r: Ring)
      requires Valid()
      ensures r.Valid() && |r.slots| == |slots|
    {
      Ring(slots, head, NextIndex(tail, |slots|))
    }
  }

  /** The ring is a bounded queue holding one message less than it has slots: a
      message is dropped exactly when that many are queued. */
  lemma {:induction false} EnqueueAppends(r: Ring, m: Message)
    requires r.Valid()
    ensures r.Full() <==> |r.Queue()| == |r.slots| - 1
    ensures r.Enqueue(m).Queue() == if |r.Queue()| == |r.slots| - 1 then r.Queue() else r.Queue() + [m]
  {
    var q := r.Enqueue(m);
    if q != r {
      var last := r.slots[r.head := m];
      if r.tail <= r.head {
        assert last[r.tail..r.head + 1] == r.slots[r.tail..r.head] + [m];
        if q.head == 0 {
          assert last[r.tail..] == last[r.tail..r.head + 1];
        }
      } else {
        assert last[r.tail..] == r.slots[r.tail..];
        assert last[..r.head + 1] == r.slots[..r.head] + [m];
      }
    }
  }

  lemma {:induction false} DequeueTakesOldest(r: Ring)
    requires r.Valid() && r.head != r.tail
    ensures r.Queue() != [] && r.Queue()[0] == r.slots[r.tail]
    ensures r.Queue()[1..] == r.Dequeue().Queue()
  {
    if r.tail < r.head {
      assert r.slots[r.tail..r.head] == [r.slots[r.tail]] + r.slots[r.tail + 1..r.head];
    } else {
      assert r.slots[r.tail..] == [r.slots[r.tail]] + r.slots[r.tail + 1..];
    }
  }

  lemma {:induction false} EmptyExactlyWhenIndicesMeet(r: Ring)
    requires r.Valid()
    ensures r.head == r.tail <==> r.Queue() == []
  {
  }

  // ---------- Any interleaving of producers and the consumer ----------

  datatype Action = Put(message: Message) | Take

  /** What an action hands to the consumer, and what it leaves. */
  function RingStep(r: Ring, action: Action): (o: (seq<Message>, Ring))
    requires r.Valid()
    ensures o.1.Valid()
  {
    match action
    case Put(m) => ([], r.Enqueue(m))
    case Take => if r.head == r.tail then ([], r) else ([r.slots[r.tail]], r.Dequeue())
  }

  function RunRing(r: Ring, actions: seq<Action>): (seq<Message>, Ring)
    requires r.Valid()
    decreases |actions|
  {
    if actions == [] then ([], r)
    else
      var (out, r') := RingStep(r, actions[0]);
      var (more, last) := RunRing(r', actions[1..]);
      (out + more, last)
  }

  /** The same on a first-in first-out queue that refuses beyond a capacity. */
  function FifoStep(q: seq<Message>, capacity: int, action: Action): (seq<Message>, seq<Message>) {
    match action
    case Put(m) => ([], if |q| == capacity then q else q + [m])
    case Take => if q == [] then ([], q) else ([q[0]], q[1..])
  }

  function RunFifo(q: seq<Message>, capacity: int, actions: seq<Action>): (seq<Message>, seq<Message>)
    decreases |actions|
  {
    if actions == [] then ([], q)
    else
      var (out, q') := FifoStep(q, capacity, actions[0]);
      var (more, last) := RunFifo(q', capacity, actions[1..]);
      (out + more, last)
  }

  lemma {:induction false} StepRefinesFifo(r: Ring, action: Action)
    requires r.Valid()
    ensures var o := RingStep(r, action);
            FifoStep(r.Queue(), |r.slots| - 1, action) == (o.0, o.1.Queue()) && |o.1.slots| == |r.slots|
  {
    match action
    case Put(m) => EnqueueAppends(r, m);
    case Take =>
      EmptyExactlyWhenIndicesMeet(r);
      if r.head != r.tail {
        DequeueTakesOldest(r);
      }
  }

  /** Under any interleaving of producers with the consumer, the consumer receives
      the same messages as from the bounded queue, and the same ones stay queued. */
  lemma {:induction false} RingRefinesFifo(r: Ring, actions: seq<Action>)
    requires r.Valid()
    ensures var o := RunRing(r, actions);
            o.1.Valid() && RunFifo(r.Queue(), |r.slots| - 1, actions) == (o.0, o.1.Queue())
    decreases |actions|
  {
    if actions != [] {
      StepRefinesFifo(r, actions[0]);
      RingRefinesFifo(RingStep(r, actions[0]).1, actions[1..]);
    }
  }

  // ---------- The queue in place ----------

  class NotificationQueue {
    const notifications: array<Message>
    var head: nat
    var tail: nat

    ghost predicate Valid()
      reads this, notifications
    {
      Value().Valid()
    }

    ghost function Value(): Ring
      reads this, notifications
    {
      Ring(notifications[..], head, tail)
    }

    constructor (size: nat)
      requires size > 0
      ensures Valid() && fresh(notifications) && notifications.Length == size
      ensures Value().Queue() == []
    {
      notifications := new Message[size](_ => Exhausted);
      head, tail := 0, 0;
    }

    /** Registration reuses the slot with an empty queue. */
    method Reset()
      requires Valid()
      modifies this
      ensures Valid() && Value().Queue() == [] && head == tail == 0
    {
      head, tail := 0, 0;
    }

    method Enqueue(m: Message)
      requires Valid()
      modifies this, notifications
      ensures Valid() && Value() == old(Value()).Enqueue(m)
      ensures Value().Queue() == if |old(Value().Queue())| == notifications.Length - 1
                                 then old(Value().Queue()) else old(Value().Queue()) + [m]
    {
      EnqueueAppends(Value(), m);
      var nextHead := NextIndex(head, notifications.Length);
      if nextHead == tail {
        // full: the message is dropped
      } else {
        notifications[head] := m;
        head := nextHead;
      }
    }

    /** One round of the notification thread's inner loop up to the unlock. */
    method TakeOldest() returns (m: Message)
      requires Valid() && Value().Queue() != []
      modifies this
      ensures Valid() && Value() == old(Value()).Dequeue()
      ensures m == old(Value().Queue())[0] && Value().Queue() == old(Value().Queue())[1..]
    {
      DequeueTakesOldest(Value());
      m := notifications[tail];
      tail := NextIndex(tail, notifications.Length);
    }

    /** The inner loop with no producer in between: everything queued, oldest first. */
    method Drain() returns (taken: seq<Message>)
      requires Valid()
      modifies this
      ensures Valid() && Value().Queue() == [] && taken == old(Value().Queue())
    {
      taken := [];
      ghost var whole := Value().Queue();
      while tail != head
        invariant Valid() && |taken| <= |whole|
        invariant taken == whole[..|taken|] && Value().Queue() == whole[|taken|..]
        decreases |whole| - |taken|
      {
        EmptyExactlyWhenIndicesMeet(Value());
        var m := TakeOldest();
        taken := taken + [m];
      }
      EmptyExactlyWhenIndicesMeet(Value());
    }
  }
}
