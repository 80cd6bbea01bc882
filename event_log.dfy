/**
 * The asynchronous logger: producers put entries into a bounded queue without
 * ever waiting, a single consumer takes them out in arrival order and writes
 * them, and stopping waits until the queue has been written out.
 *
 * The consumer goroutine is modelled by ConsumeOne, one turn of its loop,
 * which may run between any two producer calls; Stop runs the remaining turns
 * itself. What the consumer writes is recorded in the ghost sequence
 * `emitted`, and the "queue full" fallback lines in the ghost count
 * `fallbackLines`.
 */
module EventLog {

  /** One message: an action tag and free text. */
  datatype LogEntry = LogEntry(action: string, message: string)

  /** Created: not yet started; Running: the consumer runs; Stopped: drained and closed. */
  datatype Phase = Created | Running | Stopped

  class Logger {
    /** Entries sent but not yet written by the consumer, oldest first. */
    var queue: seq<LogEntry>
    /** The buffer size given at creation. */
    const capacity: nat
    var phase: Phase

    /** Every entry the consumer has written, in order. */
    ghost var emitted: seq<LogEntry>
    /** Every entry ever accepted into the queue, in order. */
    ghost var accepted: seq<LogEntry>
    /** How many "queue full" fallback lines were printed. */
    ghost var fallbackLines: nat

    /**
     * The queue never holds more than the capacity; what was accepted is
     * exactly what was written followed by what is still queued (first in,
     * first out); nothing is written before the start, and nothing is left
     * queued once stopped.
     */
    ghost predicate Valid()
      reads this
    {
      && |queue| <= capacity
      && accepted == emitted + queue
      && (phase == Created ==> emitted == [])
      && (phase == Stopped ==> queue == [])
    }

    /** A new logger: empty queue of the given size, nothing written, not started. */
    constructor NewLogger(bufferSize: nat)
      ensures Valid()
      ensures capacity == bufferSize && phase == Created
      ensures queue == [] && emitted == [] && accepted == [] && fallbackLines == 0
    {
      capacity := bufferSize;
      phase := Created;
      queue := [];
      emitted := [];
      accepted := [];
      fallbackLines := 0;
    }

    /** Launches the consumer; nothing else changes. */
    method Start()
      requires Valid() && phase == Created
      modifies this
      ensures Valid() && phase == Running
      ensures queue == old(queue) && emitted == old(emitted) && accepted == old(accepted)
      ensures fallbackLines == old(fallbackLines)
    {
      phase := Running;
    }

    /**
     * Sends an entry without waiting: it joins the back of the queue when
     * there is room, and otherwise is dropped and one fallback line is
     * printed instead.
     */
    method Log(action: string, message: string)
      requires Valid() && phase != Stopped
      modifies this
      ensures Valid() && phase == old(phase) && emitted == old(emitted)
      ensures |old(queue)| < capacity ==>
        && queue == old(queue) + [LogEntry(action, message)]
        && accepted == old(accepted) + [LogEntry(action, message)]
        && fallbackLines == old(fallbackLines)
      ensures |old(queue)| >= capacity ==>
        && queue == old(queue)
        && accepted == old(accepted)
        && fallbackLines == old(fallbackLines) + 1
    {
      var entry := LogEntry(action, message);
      if |queue| < capacity {
        queue := queue + [entry];
        accepted := accepted + [entry];
      } else {
        fallbackLines := fallbackLines + 1;
      }
    }

    /** One turn of the consumer loop: the oldest queued entry is taken out and written. */
    method ConsumeOne() returns (entry: LogEntry)
      requires Valid() && phase == Running && queue != []
      modifies this
      ensures Valid() && phase == old(phase)
      ensures entry == old(queue)[0]
      ensures queue == old(queue)[1..] && emitted == old(emitted) + [entry]
      ensures accepted == old(accepted) && fallbackLines == old(fallbackLines)
    {
      entry := queue[0];
      queue := queue[1..];
      emitted := emitted + [entry];
    }

    /**
     * Closes the queue and waits until the consumer has written everything
     * still in it, in order.
     */
    method Stop()
      requires Valid() && phase == Running
      modifies this
      ensures Valid() && phase == Stopped
      ensures queue == [] && emitted == old(emitted) + old(queue)
      ensures accepted == old(accepted) && fallbackLines == old(fallbackLines)
    {
      while queue != []
        invariant Valid() && phase == Running
        invariant emitted + queue == old(emitted) + old(queue)
        invariant accepted == old(accepted) && fallbackLines == old(fallbackLines)
        decreases |queue|
      {
        var _ := ConsumeOne();
      }
      phase := Stopped;
    }
  }

  /** The number of entries that fit into a queue of size `capacity` when nothing is taken out. */
  function Kept(count: nat, capacity: nat): (n: nat)
    ensures n <= count && n <= capacity
    ensures n == count || n == capacity
  {
    if count <= capacity then count else capacity
  }

  /**
   * Logging a batch of entries into a fresh started logger before the
   * consumer takes any, then stopping: the first `capacity` entries are
   * written in order and each of the others yields one fallback line.
   */
  method LogBatchThenStop(bufferSize: nat, entries: seq<LogEntry>) returns (l: Logger)
    ensures fresh(l) && l.Valid() && l.phase == Stopped
    ensures l.emitted == entries[..Kept(|entries|, bufferSize)]
    ensures l.fallbackLines == |entries| - Kept(|entries|, bufferSize)
    ensures |entries| <= bufferSize ==> l.emitted == entries
  {
    l := new Logger.NewLogger(bufferSize);
    l.Start();
    for n := 0 to |entries|
      invariant l.Valid() && l.phase == Running && l.capacity == bufferSize
      invariant l.emitted == []
      invariant l.queue == entries[..Kept(n, bufferSize)]
      invariant l.fallbackLines == n - Kept(n, bufferSize)
    {
      l.Log(entries[n].action, entries[n].message);
      assert entries[..n + 1] == entries[..n] + [entries[n]];
    }
    assert entries[..|entries|] == entries;
    l.Stop();
  }
}
