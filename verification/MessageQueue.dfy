/** The message ring between the node reports and the uplink task (queue.c). */
module MessageQueue {
  import opened Options

  const QUEUE_MAX_MSG_SIZE: nat := 127

  /** The ring as a value; each slot holds the text up to its terminator. */
  datatype Ring = Ring(front: nat, rear: int, size: nat, slots: seq<string>)

  /** `strncpy` into a slot of 127 bytes that was cleared first. */
  function Cut(item: string): (r: string)
    ensures r <= item && |r| == if |item| <= 126 then |item| else 126
  {
    if |item| < QUEUE_MAX_MSG_SIZE then item else item[..QUEUE_MAX_MSG_SIZE - 1]
  }

  function Enqueued(q: Ring, item: string): Ring
    requires RingOk(q)
  {
    if q.size == |q.slots| then q
    else
      var rear := (q.rear + 1) % |q.slots|;
      Ring(q.front, rear, q.size + 1, q.slots[rear := Cut(item)])
  }

  function Dequeued(q: Ring): Ring
    requires RingOk(q)
  {
    if q.size == 0 then q
    else Ring((q.front + 1) % |q.slots|, q.rear, q.size - 1, q.slots)
  }

  /** Position x of a ring of n slots, for x below 2 * n. */
  function Wrap(x: int, n: nat): int {
    if x < n then x else x - n
  }

  /** The newest entry; one before the front if there is none. */
  function Last(front: nat, size: nat, n: nat): int {
    if front + size == 0 then n - 1 else Wrap(front + size - 1, n)
  }

  predicate RingOk(q: Ring) {
    var n := |q.slots|;
    && q.size <= n
    && (n == 0 ==> q.front == 0)
    && (n > 0 ==> q.front < n && q.rear == Last(q.front, q.size, n))
  }

  function Contents(q: Ring): seq<string>
    requires RingOk(q)
  {
    seq(q.size, i requires 0 <= i < q.size => q.slots[Wrap(q.front + i, |q.slots|)])
  }

  lemma MulBounds(n: nat, d: int)
    ensures d >= 2 ==> n * d >= 2 * n
    ensures d <= 0 ==> n * d <= 0
    ensures d <= -2 ==> n * d <= -2 * n
  {
  }

  lemma ModIsWrap(x: nat, n: nat)
    requires n > 0 && x < 2 * n
    ensures x % n == Wrap(x, n)
  {
    assert x == n * (x / n) + x % n;
    MulBounds(n, x / n);
  }

  lemma RearIsFrontPlusSize(q: Ring)
    requires RingOk(q) && |q.slots| > 0
    ensures 0 <= q.rear < |q.slots| && q.rear == (q.front + q.size - 1) % |q.slots|
  {
    var n := |q.slots|;
    if q.front + q.size == 0 {
      assert -1 == n * (-1 / n) + (-1 % n);
      MulBounds(n, -1 / n);
    } else {
      ModIsWrap(q.front + q.size - 1, n);
    }
  }

  /** Where the next accepted message goes. */
  lemma NextSlot(q: Ring)
    requires RingOk(q) && q.size < |q.slots|
    ensures (q.rear + 1) % |q.slots| == Wrap(q.front + q.size, |q.slots|)
  {
    RearIsFrontPlusSize(q);
    ModIsWrap(q.rear + 1, |q.slots|);
  }

  lemma EnqueueRefines(q: Ring, item: string)
    requires RingOk(q)
    ensures var q' := Enqueued(q, item);
            && RingOk(q') && |q'.slots| == |q.slots|
            && Contents(q') == if q.size == |q.slots| then Contents(q) else Contents(q) + [Cut(item)]
  {
    if q.size < |q.slots| {
      NextSlot(q);
      var c, c' := Contents(q), Contents(Enqueued(q, item));
      forall i | 0 <= i < q.size + 1
        ensures c'[i] == (c + [Cut(item)])[i]
      {
        var n := |q.slots|;
        assert c'[i] == Enqueued(q, item).slots[Wrap(q.front + i, n)];
        assert i < q.size ==> Wrap(q.front + i, n) != Wrap(q.front + q.size, n);
      }
    }
  }

  lemma DequeueRefines(q: Ring)
    requires RingOk(q)
    ensures var q' := Dequeued(q);
            && RingOk(q') && q'.slots == q.slots
            && (if Contents(q) == [] then Contents(q') == []
                else Contents(q') == Contents(q)[1..] && q.slots[q.front] == Contents(q)[0])
  {
    if q.size > 0 {
      ModIsWrap(q.front + 1, |q.slots|);
      var c, c' := Contents(q), Contents(Dequeued(q));
      assert |c| == q.size && c[0] == q.slots[Wrap(q.front, |q.slots|)];
      forall i | 0 <= i < q.size - 1
        ensures c'[i] == c[1..][i]
      {
        var n := |q.slots|;
        assert c[1..][i] == c[i + 1] == q.slots[Wrap(q.front + (i + 1), n)];
        assert Wrap(Wrap(q.front + 1, n) + i, n) == Wrap(q.front + (i + 1), n);
      }
    }
  }

  // ----- whole runs

  datatype Op = Enqueue(item: string) | Dequeue

  /** The bounded FIFO that the ring stands for. */
  function FifoStep(cap: nat, c: seq<string>, op: Op): seq<string> {
    match op
    case Enqueue(item) => if |c| == cap then c else c + [Cut(item)]
    case Dequeue => if c == [] then c else c[1..]
  }

  function FifoRun(cap: nat, c: seq<string>, ops: seq<Op>): seq<string>
    decreases |ops|
  {
    if ops == [] then c else FifoRun(cap, FifoStep(cap, c, ops[0]), ops[1..])
  }

  /** What the dequeues of a run return. */
  function FifoOutputs(cap: nat, c: seq<string>, ops: seq<Op>): seq<Option<string>>
    decreases |ops|
  {
    if ops == [] then []
    else FifoOutput(c, ops[0]) + FifoOutputs(cap, FifoStep(cap, c, ops[0]), ops[1..])
  }

  function FifoOutput(c: seq<string>, op: Op): seq<Option<string>> {
    if op.Enqueue? then [] else if c == [] then [None] else [Some(c[0])]
  }

  function RingStep(q: Ring, op: Op): (q': Ring)
    requires RingOk(q)
    ensures RingOk(q') && |q'.slots| == |q.slots|
  {
    EnqueueRefines(q, if op.Enqueue? then op.item else "");
    DequeueRefines(q);
    match op
    case Enqueue(item) => Enqueued(q, item)
    case Dequeue => Dequeued(q)
  }

  function RingRun(q: Ring, ops: seq<Op>): (q': Ring)
    requires RingOk(q)
    ensures RingOk(q') && |q'.slots| == |q.slots|
    decreases |ops|
  {
    if ops == [] then q else RingRun(RingStep(q, ops[0]), ops[1..])
  }

  function RingOutputs(q: Ring, ops: seq<Op>): seq<Option<string>>
    requires RingOk(q)
    decreases |ops|
  {
    if ops == [] then []
    else RingOutput(q, ops[0]) + RingOutputs(RingStep(q, ops[0]), ops[1..])
  }

  function RingOutput(q: Ring, op: Op): seq<Option<string>>
    requires RingOk(q)
  {
    if op.Enqueue? then [] else if q.size == 0 then [None] else [Some(q.slots[q.front])]
  }

  lemma StepRefines(q: Ring, op: Op)
    requires RingOk(q)
    ensures Contents(RingStep(q, op)) == FifoStep(|q.slots|, Contents(q), op)
    ensures RingOutput(q, op) == FifoOutput(Contents(q), op)
  {
    EnqueueRefines(q, if op.Enqueue? then op.item else "");
    DequeueRefines(q);
  }

  /** Every run of the ring is a run of the bounded FIFO, with the same results. */
  lemma {:induction false} RingRefinesFifo(q: Ring, ops: seq<Op>)
    requires RingOk(q)
    ensures Contents(RingRun(q, ops)) == FifoRun(|q.slots|, Contents(q), ops)
    ensures RingOutputs(q, ops) == FifoOutputs(|q.slots|, Contents(q), ops)
    decreases |ops|
  {
    if ops != [] {
      StepRefines(q, ops[0]);
      RingRefinesFifo(RingStep(q, ops[0]), ops[1..]);
    }
  }

  /** The enqueued messages that did not meet a full queue, as stored. */
  function AcceptedItems(cap: nat, c: seq<string>, ops: seq<Op>): seq<string>
    decreases |ops|
  {
    if ops == [] then []
    else AcceptedItem(cap, c, ops[0]) + AcceptedItems(cap, FifoStep(cap, c, ops[0]), ops[1..])
  }

  function AcceptedItem(cap: nat, c: seq<string>, op: Op): seq<string> {
    if op.Enqueue? && |c| != cap then [Cut(op.item)] else []
  }

  function Delivered(outs: seq<Option<string>>): seq<string> {
    if outs == [] then []
    else (if outs[0].Some? then [outs[0].value] else []) + Delivered(outs[1..])
  }

  lemma {:induction false} DeliveredAppend(a: seq<Option<string>>, b: seq<Option<string>>)
    ensures Delivered(a + b) == Delivered(a) + Delivered(b)
  {
    if a == [] {
      assert a + b == b;
    } else {
      assert (a + b)[1..] == a[1..] + b;
      DeliveredAppend(a[1..], b);
    }
  }

  lemma StepConservation(cap: nat, c: seq<string>, op: Op)
    ensures Delivered(FifoOutput(c, op)) + FifoStep(cap, c, op) == c + AcceptedItem(cap, c, op)
  {
  }

  /** Nothing is lost, duplicated or reordered after it was accepted. */
  lemma {:induction false} Conservation(cap: nat, c: seq<string>, ops: seq<Op>)
    ensures Delivered(FifoOutputs(cap, c, ops)) + FifoRun(cap, c, ops) == c + AcceptedItems(cap, c, ops)
    decreases |ops|
  {
    if ops != [] {
      var c', rest := FifoStep(cap, c, ops[0]), ops[1..];
      var out, outs := FifoOutput(c, ops[0]), FifoOutputs(cap, c', rest);
      var item, items := AcceptedItem(cap, c, ops[0]), AcceptedItems(cap, c', rest);
      DeliveredAppend(out, outs);
      Conservation(cap, c', rest);
      StepConservation(cap, c, ops[0]);
      Splice(Delivered(out), Delivered(outs), FifoRun(cap, c', rest), c, c', item, items);
    }
  }

  lemma Splice<T>(d: seq<T>, ds: seq<T>, final: seq<T>, c: seq<T>, c': seq<T>, item: seq<T>, items: seq<T>)
    requires d + c' == c + item && ds + final == c' + items
    ensures d + ds + final == c + (item + items)
  {
    assert d + ds + final == d + (ds + final);
    assert d + (c' + items) == (d + c') + items;
    assert (c + item) + items == c + (item + items);
  }

  // ----- how long a returned slot stays as it is

  function AcceptedCount(q: Ring, ops: seq<Op>): nat
    requires RingOk(q)
    decreases |ops|
  {
    if ops == [] then 0
    else (if ops[0].Enqueue? && q.size != |q.slots| then 1 else 0) + AcceptedCount(RingStep(q, ops[0]), ops[1..])
  }

  /** The ring has accepted `a` messages since slot k was returned by a dequeue that saw
      `s` messages; the writes since then went to the slots after the newest one. */
  ghost predicate SinceDequeue(q: Ring, k: nat, s: nat, a: nat, text: string) {
    && RingOk(q) && k < |q.slots| && 0 < s && s + a <= |q.slots|
    && q.rear == Wrap(k + s + a - 1, |q.slots|)
    && q.slots[k] == text
  }

  lemma StepSinceDequeue(q: Ring, op: Op, k: nat, s: nat, a: nat, text: string)
    requires SinceDequeue(q, k, s, a, text)
    ensures var q' := RingStep(q, op);
            var n := |q.slots|;
            if op.Enqueue? && q.size != n then
              if s + a < n then SinceDequeue(q', k, s, a + 1, text) else q'.slots[k] == Cut(op.item)
            else SinceDequeue(q', k, s, a, text)
  {
    RearIsFrontPlusSize(q);
    ModIsWrap(q.rear + 1, |q.slots|);
  }

  lemma {:induction false} RunSinceDequeue(q: Ring, ops: seq<Op>, k: nat, s: nat, a: nat, text: string)
    requires SinceDequeue(q, k, s, a, text) && s + a + AcceptedCount(q, ops) <= |q.slots|
    ensures SinceDequeue(RingRun(q, ops), k, s, a + AcceptedCount(q, ops), text)
    decreases |ops|
  {
    if ops != [] {
      StepSinceDequeue(q, ops[0], k, s, a, text);
      var one := if ops[0].Enqueue? && q.size != |q.slots| then 1 else 0;
      RunSinceDequeue(RingStep(q, ops[0]), ops[1..], k, s, a + one, text);
    }
  }

  /** The text that a dequeue returned stays in its slot through capacity - s further
      accepted messages, whatever else is dequeued, and the next one replaces it. */
  lemma SlotLifetime(q: Ring, ops: seq<Op>, item: string)
    requires RingOk(q) && q.size > 0
    ensures var n, k, q1 := |q.slots|, q.front, Dequeued(q);
            && RingOk(q1)
            && (AcceptedCount(q1, ops) <= n - q.size ==> RingRun(q1, ops).slots[k] == q.slots[k])
            && (AcceptedCount(q1, ops) == n - q.size && RingRun(q1, ops).size < n ==>
                  RingRun(q1, ops + [Enqueue(item)]).slots[k] == Cut(item))
  {
    var q1 := Dequeued(q);
    DequeueRefines(q);
    assert SinceDequeue(q1, q.front, q.size, 0, q.slots[q.front]);
    if AcceptedCount(q1, ops) <= |q.slots| - q.size {
      RunSinceDequeue(q1, ops, q.front, q.size, 0, q.slots[q.front]);
      RingRunAppend(q1, ops, Enqueue(item));
      StepSinceDequeue(RingRun(q1, ops), Enqueue(item), q.front, q.size, AcceptedCount(q1, ops), q.slots[q.front]);
    }
  }

  lemma {:induction false} RingRunAppend(q: Ring, ops: seq<Op>, op: Op)
    requires RingOk(q)
    ensures RingRun(q, ops + [op]) == RingStep(RingRun(q, ops), op)
    decreases |ops|
  {
    if ops == [] {
      assert ([op])[1..] == [];
      assert [] + [op] == [op];
    } else {
      assert (ops + [op])[1..] == ops[1..] + [op];
      RingRunAppend(RingStep(q, ops[0]), ops[1..], op);
    }
  }

  // ----- the ring in place

  class MsgQueue {
    var front: nat
    var rear: int
    var size: nat
    var slots: array<string>

    /** `createQueue`. */
    constructor (capacity: nat)
      ensures Valid() && fresh(slots) && slots.Length == capacity
      ensures Contents(Abs()) == []
    {
      front, size := 0, 0;
      rear := capacity - 1;
      slots := new string[capacity];
    }

    ghost function Abs(): Ring
      reads this, slots
    {
      Ring(front, rear, size, slots[..])
    }

    ghost predicate Valid()
      reads this, slots
    {
      RingOk(Abs())
    }

    predicate IsFull()
      reads this
    {
      size == slots.Length
    }

    predicate IsEmpty()
      reads this
    {
      size == 0
    }

    method EnqueueMsg(item: string)
      requires Valid()
      modifies this`rear, this`size, slots
      ensures Valid() && Abs() == Enqueued(old(Abs()), item)
      ensures Contents(Abs()) ==
              if old(IsFull()) then old(Contents(Abs())) else old(Contents(Abs())) + [Cut(item)]
    {
      EnqueueRefines(Abs(), item);
      if IsFull() {
        return;
      }
      rear := (rear + 1) % slots.Length;
      slots[rear] := Cut(item);
      size := size + 1;
    }

    /** Returns the slot, as the source returns its address, or nothing. */
    method DequeueMsg() returns (item: Option<nat>)
      requires Valid()
      modifies this`front, this`size
      ensures Valid() && Abs() == Dequeued(old(Abs()))
      ensures item.None? <==> old(IsEmpty())
      ensures item.Some? ==> item.value < slots.Length && [slots[item.value]] + Contents(Abs()) == old(Contents(Abs()))
    {
      DequeueRefines(Abs());
      if IsEmpty() {
        return None;
      }
      item := Some(front);
      front := (front + 1) % slots.Length;
      size := size - 1;
    }

    method FrontMsg() returns (item: Option<string>)
      requires Valid()
      ensures item == if Contents(Abs()) == [] then None else Some(Contents(Abs())[0])
    {
      if IsEmpty() {
        return None;
      }
      item := Some(slots[front]);
      assert Contents(Abs())[0] == Abs().slots[Wrap(front, slots.Length)];
    }

    method RearMsg() returns (item: Option<string>)
      requires Valid()
      ensures item == if Contents(Abs()) == [] then None else Some(Contents(Abs())[|Contents(Abs())| - 1])
    {
      assert |Contents(Abs())| == size;
      if IsEmpty() {
        return None;
      }
      item := Some(slots[rear]);
    }
  }
}
