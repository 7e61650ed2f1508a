/** The abstract behaviour of the PS/2 receive ring buffer (src/ps2kbd.c:59-102).
    The buffer has 32 byte slots and uses 0 as the "empty slot" mark, so a zero
    byte can never be queued. Seen from outside it is a bounded FIFO queue of
    non-zero bytes; this module states that queue and proves, for any
    interleaving of puts and gets, that nothing is lost or reordered unless the
    overflow flag was raised. The class Ps2Kbd.RxRing implements it on an array. */
module RxQueue {
  import opened Common

  const Capacity: nat := 32

  /** What `ps2RxPut` does to the queue: the new contents and whether it raised
      `g_rxOverflow`. A full queue (the write slot is still occupied) rejects the
      byte and flags overflow; a zero byte is silently ignored. */
  function Enqueue(q: seq<byte>, data: byte): (r: (seq<byte>, bool))
    requires |q| <= Capacity
    ensures |r.0| <= Capacity
    ensures r.1 <==> |q| == Capacity
  {
    if |q| == Capacity then (q, true)
    else if data == 0 then (q, false)
    else (q + [data], false)
  }

  /** What `ps2RxGet` does to the queue: the byte returned (0 when empty) and the
      remaining contents. */
  function Dequeue(q: seq<byte>): (r: (byte, seq<byte>))
    ensures r.0 == 0 <==> q == [] || q[0] == 0
  {
    if q == [] then (0, []) else (q[0], q[1..])
  }

  /** One call made on the buffer: the receiver's put or the poller's get. */
  datatype RxOp = Put(data: byte) | Get

  /** The effect of a run of calls: the final contents, the non-empty results the
      gets returned, and whether any put raised the overflow flag. */
  datatype Trace = Trace(queue: seq<byte>, out: seq<byte>, overflow: bool)

  function Run(q: seq<byte>, ops: seq<RxOp>): (t: Trace)
    requires |q| <= Capacity
    ensures |t.queue| <= Capacity
    decreases |ops|
  {
    if ops == [] then Trace(q, [], false)
    else match ops[0]
      case Put(d) =>
        var (q1, flagged) := Enqueue(q, d);
        var t := Run(q1, ops[1..]);
        Trace(t.queue, t.out, flagged || t.overflow)
      case Get =>
        var (v, q1) := Dequeue(q);
        var t := Run(q1, ops[1..]);
        Trace(t.queue, (if q == [] then [] else [v]) + t.out, t.overflow)
  }

  /** The non-zero bytes handed to the puts, in order: what the buffer is meant to carry. */
  function PutBytes(ops: seq<RxOp>): (r: seq<byte>)
    ensures forall i :: 0 <= i < |r| ==> r[i] != 0
    decreases |ops|
  {
    if ops == [] then []
    else match ops[0]
      case Put(d) => (if d != 0 then [d] else []) + PutBytes(ops[1..])
      case Get => PutBytes(ops[1..])
  }

  /** FIFO with no loss: if no put raised the overflow flag, the bytes that came out
      followed by the bytes still queued are exactly the bytes that were queued at the
      start followed by every non-zero byte put, in the order they were put. */
  lemma {:induction false} RunIsLosslessFifo(q: seq<byte>, ops: seq<RxOp>)
    requires |q| <= Capacity
    ensures !Run(q, ops).overflow ==> q + PutBytes(ops) == Run(q, ops).out + Run(q, ops).queue
    decreases |ops|
  {
    if ops != [] {
      match ops[0]
      case Put(d) =>
        var (q1, flagged) := Enqueue(q, d);
        RunIsLosslessFifo(q1, ops[1..]);
        if d != 0 && !flagged {
          assert q + PutBytes(ops) == q1 + PutBytes(ops[1..]);
        }
      case Get =>
        var (v, q1) := Dequeue(q);
        RunIsLosslessFifo(q1, ops[1..]);
        var t := Run(q1, ops[1..]);
        assert PutBytes(ops) == PutBytes(ops[1..]);
        if q != [] && !t.overflow {
          calc {
            q + PutBytes(ops);
            [v] + (q1 + PutBytes(ops[1..]));
            [v] + (t.out + t.queue);
            ([v] + t.out) + t.queue;
          }
        }
    }
  }

  /** The overflow flag is raised only by a put that finds the queue full: a run whose
      puts never exceed the free space never flags overflow. */
  lemma {:induction false} NoOverflowWithinCapacity(q: seq<byte>, ops: seq<RxOp>)
    requires |q| <= Capacity
    requires forall i :: 0 <= i < |ops| ==> ops[i].Put?
    requires |q| + |ops| <= Capacity
    ensures !Run(q, ops).overflow
    ensures Run(q, ops).queue == q + PutBytes(ops)
    decreases |ops|
  {
    if ops != [] {
      var (q1, _) := Enqueue(q, ops[0].data);
      NoOverflowWithinCapacity(q1, ops[1..]);
    }
  }
}
