/**
 The queue between the drivers of a task and its cursor (`TaskQueue` in velox/exec/Cursor.cpp and
 Cursor.h) and the operator that feeds it (velox/exec/CallbackSink.h).

 `Queue` is the value of the lock-protected fields, and each critical section is a function on it;
 class `TaskQueue` performs the same sections in place.
 */
module TaskQueues {
  import opened Options

  /** A batch of rows; `bytes` is its retained size. */
  datatype Batch = Batch(rows: int, bytes: nat)

  /** Continue promises are numbered in the order they are made. */
  type Promise = nat

  datatype Queue = Queue(
    maxBytes: nat,
    queue: seq<Batch>,
    numProducers: Option<nat>,
    producersFinished: nat,
    totalBytes: int,
    unblockPromises: seq<Promise>,
    consumerBlocked: bool,
    consumerPromise: Promise,
    closed: bool,
    // Promises made so far, and the calls of setValue so far, in order.
    numPromises: nat,
    fulfilled: seq<Promise>)

  function NewQueue(maxBytes: nat): Queue {
    Queue(maxBytes, [], None, 0, 0, [], false, 0, false, 0, [])
  }

  // ----- critical sections -----

  function WakeConsumer(q: Queue): Queue {
    if q.consumerBlocked then q.(consumerBlocked := false, fulfilled := q.fulfilled + [q.consumerPromise]) else q
  }

  /** `enqueue(nullptr)`: one producer is at its end. */
  function EnqueueEnd(q: Queue): Queue {
    WakeConsumer(q.(producersFinished := q.producersFinished + 1))
  }

  datatype EnqueueResult = Closed | NotBlocked | WaitForConsumer(future: Promise)

  /** `enqueue` of a batch: throws when closed; asks the producer to wait when the queue is over its limit. */
  function EnqueueBatch(q: Queue, b: Batch): (Queue, EnqueueResult) {
    if q.closed then (q, Closed)
    else
      var q1 := WakeConsumer(q.(queue := q.queue + [b], totalBytes := q.totalBytes + b.bytes));
      if q1.totalBytes > q1.maxBytes then
        (q1.(unblockPromises := q1.unblockPromises + [q1.numPromises], numPromises := q1.numPromises + 1),
         WaitForConsumer(q1.numPromises))
      else
        (q1, NotBlocked)
  }

  datatype DequeueResult = Null | Got(batch: Batch, mayContinue: seq<Promise>) | Blocked(future: Promise)

  /** The locked part of one iteration of `dequeue`. */
  function DequeueSection(q: Queue): (Queue, DequeueResult) {
    if q.closed then (q, Null)
    else if q.queue != [] then
      var b := q.queue[0];
      var q1 := q.(queue := q.queue[1..], totalBytes := q.totalBytes - b.bytes);
      if q1.totalBytes < q1.maxBytes / 2 then (q1.(unblockPromises := []), Got(b, q1.unblockPromises))
      else (q1, Got(b, []))
    else if q.numProducers == Some(q.producersFinished) then (q, Null)
    else
      (q.(consumerBlocked := true, consumerPromise := q.numPromises, numPromises := q.numPromises + 1),
       Blocked(q.numPromises))
  }

  /** `promise.setValue()` outside of the lock. */
  function SetValue(q: Queue, p: Promise): Queue {
    q.(fulfilled := q.fulfilled + [p])
  }

  function CloseQueue(q: Queue): Queue {
    WakeConsumer(q.(closed := true, unblockPromises := [], fulfilled := q.fulfilled + q.unblockPromises))
  }

  // ----- the queue in place -----

  class TaskQueue {
    const maxBytes: nat
    var queue: seq<Batch>
    var numProducers: Option<nat>
    var producersFinished: nat
    var totalBytes: int
    var unblockPromises: seq<Promise>
    var consumerBlocked: bool
    var consumerPromise: Promise
    var closed: bool
    var numPromises: nat
    var fulfilled: seq<Promise>

    function View(): Queue
      reads this
    {
      Queue(maxBytes, queue, numProducers, producersFinished, totalBytes, unblockPromises, consumerBlocked,
            consumerPromise, closed, numPromises, fulfilled)
    }

    constructor (maxBytes: nat)
      ensures View() == NewQueue(maxBytes)
    {
      this.maxBytes := maxBytes;
      queue, numProducers, producersFinished, totalBytes := [], None, 0, 0;
      unblockPromises, consumerBlocked, consumerPromise := [], false, 0;
      closed, numPromises, fulfilled := false, 0, [];
    }

    method SetNumProducers(n: nat)
      modifies this
      ensures View() == old(View()).(numProducers := Some(n))
    {
      numProducers := Some(n);
    }

    /** Makes a promise contract: a promise nobody has seen before. */
    method MakePromise() returns (p: Promise)
      modifies this`numPromises
      ensures p == old(numPromises) && numPromises == p + 1
    {
      p := numPromises;
      numPromises := numPromises + 1;
    }

    method Fulfill(p: Promise)
      modifies this`fulfilled
      ensures View() == SetValue(old(View()), p)
    {
      fulfilled := fulfilled + [p];
    }

    method EnqueueNull()
      modifies this
      ensures View() == EnqueueEnd(old(View()))
    {
      producersFinished := producersFinished + 1;
      if consumerBlocked {
        consumerBlocked := false;
        Fulfill(consumerPromise);
      }
    }

    method Enqueue(b: Batch) returns (r: EnqueueResult)
      modifies this
      ensures (View(), r) == EnqueueBatch(old(View()), b)
    {
      if closed {
        return Closed;
      }
      queue := queue + [b];
      totalBytes := totalBytes + b.bytes;
      if consumerBlocked {
        consumerBlocked := false;
        Fulfill(consumerPromise);
      }
      if totalBytes > maxBytes {
        var promise := MakePromise();
        unblockPromises := unblockPromises + [promise];
        return WaitForConsumer(promise);
      }
      r := NotBlocked;
    }

    method DequeueLocked() returns (r: DequeueResult)
      modifies this
      ensures (View(), r) == DequeueSection(old(View()))
    {
      if closed {
        return Null;
      }
      if queue != [] {
        var result := queue[0];
        queue := queue[1..];
        totalBytes := totalBytes - result.bytes;
        var mayContinue := [];
        if totalBytes < maxBytes / 2 {
          mayContinue := unblockPromises;
          unblockPromises := [];
        }
        return Got(result, mayContinue);
      } else if numProducers == Some(producersFinished) {
        return Null;
      }
      consumerBlocked := true;
      consumerPromise := MakePromise();
      r := Blocked(consumerPromise);
    }

    method Close()
      modifies this
      ensures View() == CloseQueue(old(View()))
    {
      closed := true;
      for i := 0 to |unblockPromises|
        invariant unblockPromises == old(unblockPromises)
        invariant View() == old(View()).(closed := true, fulfilled := old(fulfilled) + unblockPromises[..i])
      {
        Fulfill(unblockPromises[i]);
      }
      assert unblockPromises[..|unblockPromises|] == unblockPromises;
      unblockPromises := [];
      if consumerBlocked {
        consumerBlocked := false;
        Fulfill(consumerPromise);
      }
    }
  }

  // ----- the producer's operator -----

  class CallbackSink {
    var callback: TaskQueue?
    var mustWait: bool
    var future: Option<Promise>

    ghost predicate Valid()
      reads this
    {
      mustWait ==> future.Some?
    }

    constructor (queue: TaskQueue)
      ensures Valid() && callback == queue && !mustWait
    {
      callback, mustWait, future := queue, false, None;
    }

    /** Hands a batch to the queue; fails when the consumer is gone. */
    method AddInput(b: Batch) returns (ok: bool)
      requires Valid() && callback != null
      modifies this`mustWait, this`future, callback
      ensures Valid()
      ensures callback.View() == EnqueueBatch(old(callback.View()), b).0
      ensures ok <==> !old(callback.closed)
      ensures ok ==> mustWait == EnqueueBatch(old(callback.View()), b).1.WaitForConsumer?
      ensures ok && mustWait ==> EnqueueBatch(old(callback.View()), b).1 == WaitForConsumer(future.value)
    {
      var r := callback.Enqueue(b);
      match r
      case Closed => ok := false;
      case NotBlocked => ok, mustWait := true, false;
      case WaitForConsumer(f) => ok, mustWait, future := true, true, Some(f);
    }

    /** Hands the future to the driver, once. */
    method IsBlocked() returns (wait: Option<Promise>)
      requires Valid()
      modifies this`mustWait, this`future
      ensures Valid() && !mustWait
      ensures wait == if old(mustWait) then old(future) else None
    {
      if mustWait {
        wait, future, mustWait := future, None, false;
      } else {
        wait := None;
      }
    }

    /** Signals the end of this producer, unless it has done so already. */
    method Close()
      modifies this`callback, callback
      ensures callback == null
      ensures old(callback) != null ==> old(callback).View() == EnqueueEnd(old(callback.View()))
    {
      if callback != null {
        callback.EnqueueNull();
        callback := null;
      }
    }
  }

  /** However often a producer is closed, the queue hears of its end exactly once. */
  method CloseRepeatedly(queue: TaskQueue, times: nat)
    modifies queue
    ensures queue.View() == if times == 0 then old(queue.View()) else EnqueueEnd(old(queue.View()))
  {
    var sink := new CallbackSink(queue);
    for i := 0 to times
      invariant sink.callback == if i == 0 then queue else null
      invariant queue.View() == if i == 0 then old(queue.View()) else EnqueueEnd(old(queue.View()))
      invariant fresh(sink)
    {
      sink.Close();
    }
  }
}
