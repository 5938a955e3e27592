/** The fixed-capacity ring with its two overflow policies, and its locked wrapper. */
module Queues {
  import opened RelayTypes

  datatype OverflowPolicy = RejectWhenFull | DropOldest

  /** What a push makes of the queued elements. */
  function Pushed<T>(policy: OverflowPolicy, capacity: nat, q: seq<T>, x: T): seq<T> {
    if |q| < capacity then q + [x]
    else if policy.RejectWhenFull? || q == [] then q
    else q[1..] + [x]
  }

  /** The slot k places after the start of a ring; k is less than two turns. */
  function Slot(capacity: nat, k: nat): (s: nat)
    requires k < 2 * capacity
    ensures s < capacity
  {
    if k < capacity then k else k - capacity
  }

  function RingContents<T>(buf: seq<T>, head: nat, count: nat): (q: seq<T>)
    requires head < |buf| && count <= |buf|
    ensures |q| == count
  {
    seq(count, i requires 0 <= i < count => buf[Slot(|buf|, head + i)])
  }

  lemma NextIsSlot(capacity: nat, i: nat)
    requires i < capacity
    ensures (i + 1) % capacity == Slot(capacity, i + 1)
  {
    if i + 1 == capacity {
      assert capacity % capacity == 0;
    }
  }

  lemma RingPop<T>(buf: seq<T>, head: nat, count: nat)
    requires head < |buf| && 0 < count <= |buf|
    ensures RingContents(buf, head, count)[0] == buf[head]
    ensures RingContents(buf, Slot(|buf|, head + 1), count - 1) == RingContents(buf, head, count)[1..]
    ensures Slot(|buf|, Slot(|buf|, head + 1) + (count - 1)) == Slot(|buf|, head + count)
  {
    var next := Slot(|buf|, head + 1);
    var popped, q := RingContents(buf, next, count - 1), RingContents(buf, head, count);
    forall i | 0 <= i < count - 1 ensures popped[i] == q[1..][i] {
      assert Slot(|buf|, next + i) == Slot(|buf|, head + (i + 1));
    }
    assert popped == q[1..];
    assert q[0] == buf[Slot(|buf|, head + 0)];
  }

  lemma RingPush<T>(buf: seq<T>, head: nat, count: nat, x: T)
    requires head < |buf| && count < |buf|
    ensures var tail := Slot(|buf|, head + count);
            && RingContents(buf[tail := x], head, count) == RingContents(buf, head, count)
            && RingContents(buf[tail := x], head, count + 1) == RingContents(buf, head, count) + [x]
            && Slot(|buf|, tail + 1) == Slot(|buf|, head + (count + 1))
  {
    var tail := Slot(|buf|, head + count);
    var q, more := RingContents(buf, head, count), RingContents(buf[tail := x], head, count + 1);
    forall i | 0 <= i < count ensures more[i] == q[i] {
      assert Slot(|buf|, head + i) != tail;
    }
    assert RingContents(buf[tail := x], head, count) == more[..count];
  }

  class BoundedQueue<T(0)> {
    const buf: array<T>
    const policy: OverflowPolicy
    var head: nat
    var tail: nat
    var count: nat

    ghost predicate Valid()
      reads this
    {
      && head < buf.Length && count <= buf.Length
      && tail == Slot(buf.Length, head + count)
    }

    /** The queued elements, oldest first. */
    ghost function Contents(): (q: seq<T>)
      requires Valid()
      reads this, buf
      ensures |q| == count
    {
      RingContents(buf[..], head, count)
    }

    constructor (capacity: nat, policy: OverflowPolicy)
      requires capacity >= 1
      ensures Valid() && fresh(buf) && Contents() == []
      ensures buf.Length == capacity && this.policy == policy
    {
      buf := new T[capacity];
      this.policy := policy;
      head, tail, count := 0, 0, 0;
    }

    method Push(x: T) returns (stored: bool)
      requires Valid()
      modifies this, buf
      ensures Valid()
      ensures stored == (policy.DropOldest? || |old(Contents())| < buf.Length)
      ensures Contents() == Pushed(policy, buf.Length, old(Contents()), x)
    {
      if count == buf.Length {
        if policy == RejectWhenFull {
          return false;
        }
        PopInternal();
      }
      RingPush(buf[..], head, count, x);
      NextIsSlot(buf.Length, tail);
      ghost var ring := buf[..];
      buf[tail] := x;
      assert buf[..] == ring[tail := x];
      tail := (tail + 1) % buf.Length;
      count := count + 1;
      return true;
    }

    /** The oldest element, unless the queue is empty. */
    method Pop() returns (ok: bool, out: T)
      requires Valid()
      modifies this
      ensures Valid()
      ensures ok == (old(Contents()) != [])
      ensures ok ==> out == old(Contents())[0] && Contents() == old(Contents())[1..]
      ensures !ok ==> Contents() == []
    {
      out := buf[head];
      if count == 0 {
        return false, out;
      }
      RingPop(buf[..], head, count);
      PopInternal();
      return true, out;
    }

    method PopInternal()
      requires Valid() && count > 0
      modifies this
      ensures Valid()
      ensures Contents() == old(Contents())[1..]
    {
      NextIsSlot(buf.Length, head);
      RingPop(buf[..], head, count);
      head := (head + 1) % buf.Length;
      count := count - 1;
    }
  }

  /** The critical section: entered and left strictly in turn. */
  class CriticalSection {
    var inside: bool

    constructor ()
      ensures !inside
    {
      inside := false;
    }

    method Enter()
      requires !inside
      modifies this
      ensures inside
    {
      inside := true;
    }

    method Exit()
      requires inside
      modifies this
      ensures !inside
    {
      inside := false;
    }
  }

  /** The queue as two tasks share it: every access happens inside the critical section, which is left
      on every path. */
  class SyncQueue<T(0)> {
    const cs: CriticalSection
    const q: BoundedQueue<T>

    constructor (cs: CriticalSection, q: BoundedQueue<T>)
      ensures this.cs == cs && this.q == q
    {
      this.cs, this.q := cs, q;
    }

    method Push(x: T) returns (stored: bool)
      requires q.Valid() && !cs.inside
      modifies q, q.buf, cs
      ensures q.Valid() && !cs.inside
      ensures stored == (q.policy.DropOldest? || |old(q.Contents())| < q.buf.Length)
      ensures q.Contents() == Pushed(q.policy, q.buf.Length, old(q.Contents()), x)
    {
      cs.Enter();
      stored := q.Push(x);
      cs.Exit();
    }

    method Pop() returns (ok: bool, out: T)
      requires q.Valid() && !cs.inside
      modifies q, cs
      ensures q.Valid() && !cs.inside
      ensures ok == (old(q.Contents()) != [])
      ensures ok ==> out == old(q.Contents())[0] && q.Contents() == old(q.Contents())[1..]
      ensures !ok ==> q.Contents() == []
    {
      cs.Enter();
      ok, out := q.Pop();
      cs.Exit();
    }
  }

  /** The producers' end of the command queue: a command is taken or refused as busy. */
  class CommandQueuePort {
    const queue: SyncQueue<ControlCommand>

    constructor (queue: SyncQueue<ControlCommand>)
      ensures this.queue == queue
    {
      this.queue := queue;
    }

    method Submit(cmd: ControlCommand) returns (r: Status)
      requires queue.q.Valid() && !queue.cs.inside
      modifies queue.q, queue.q.buf, queue.cs
      ensures queue.q.Valid() && !queue.cs.inside
      ensures r == if queue.q.policy.DropOldest? || |old(queue.q.Contents())| < queue.q.buf.Length
                   then Success else Fail(Busy)
      ensures queue.q.Contents() == Pushed(queue.q.policy, queue.q.buf.Length, old(queue.q.Contents()), cmd)
    {
      var stored := queue.Push(cmd);
      r := if stored then Success else Fail(Busy);
    }
  }

  // ----- Drop-oldest keeps the newest -----

  function Newest<T>(xs: seq<T>, n: nat): seq<T> {
    if |xs| <= n then xs else xs[|xs| - n..]
  }

  /** The queue after pushing elements one by one onto an empty queue. */
  function AfterPushes<T>(policy: OverflowPolicy, capacity: nat, xs: seq<T>): seq<T> {
    if xs == [] then []
    else Pushed(policy, capacity, AfterPushes(policy, capacity, xs[..|xs| - 1]), xs[|xs| - 1])
  }

  /** A drop-oldest queue always holds exactly the newest elements that fit, in order. */
  lemma {:induction false} DropOldestKeepsNewest<T>(capacity: nat, xs: seq<T>)
    requires capacity >= 1
    ensures AfterPushes(DropOldest, capacity, xs) == Newest(xs, capacity)
  {
    if xs != [] {
      var ys := xs[..|xs| - 1];
      DropOldestKeepsNewest(capacity, ys);
      assert xs == ys + [xs[|xs| - 1]];
    }
  }

  /** A rejecting queue keeps the oldest instead. */
  lemma {:induction false} RejectKeepsOldest<T>(capacity: nat, xs: seq<T>)
    ensures AfterPushes(RejectWhenFull, capacity, xs) == if |xs| <= capacity then xs else xs[..capacity]
  {
    if xs != [] {
      RejectKeepsOldest(capacity, xs[..|xs| - 1]);
      assert xs == xs[..|xs| - 1] + [xs[|xs| - 1]];
    }
  }
}
