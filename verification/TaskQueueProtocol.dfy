/**
 Every interleaving of the producers, the consumer and `close` on one `TaskQueue`.

 Each action is one critical section of the queue, one `setValue` outside the lock, or one local step of
 a driver or of the consumer.  The properties hold in the state after any run of enabled actions.
 */
module TaskQueueProtocol {
  import opened Options
  import opened TaskQueues

  /**
   A driver and its CallbackSink.  `Pending`: the sink was told to wait and has not been asked yet;
   `Waiting`: the driver waits for the future; `Failed`: `enqueue` threw.  `last` is the last future the
   producer was given, and `ends` counts its end-of-stream signals.
   */
  datatype Status = Running | Pending | Waiting | Failed | Finished
  datatype Producer = Producer(status: Status, last: Option<Promise>, ends: nat)

  /** `Returning`: a batch was taken, and promises are being fulfilled outside the lock before returning it. */
  datatype Consumer = Idle | Returning(batch: Batch, mayContinue: seq<Promise>) | Sleeping(future: Promise)

  /**
   The whole system.  `accepted` are the batches `enqueue` took, `returned` those `dequeue` returned, both
   in order; `atEnd` says that `dequeue` has returned null from an open queue.
   */
  datatype System = System(
    q: Queue,
    producers: seq<Producer>,
    consumer: Consumer,
    accepted: seq<Batch>,
    returned: seq<Batch>,
    atEnd: bool)

  /** `startFirst`: the cursor calls `start`, which sets the number of producers, before it dequeues. */
  datatype Config = Config(maxBytes: nat, numProducers: nat, startFirst: bool)

  datatype Action =
    | SetNumProducers
    | AddInput(i: nat, b: Batch)
    | CheckBlocked(i: nat)
    | Resume(i: nat)
    | Finish(i: nat)
    | Dequeue
    | FulfillNext
    | Return
    | Close

  function Init(cfg: Config): System {
    System(NewQueue(cfg.maxBytes), seq(cfg.numProducers, i => Producer(Running, None, 0)), Idle, [], [], false)
  }

  predicate Enabled(cfg: Config, s: System, a: Action) {
    match a
    case SetNumProducers => s.q.numProducers == None
    case AddInput(i, b) => i < |s.producers| && s.producers[i].status == Running
    case CheckBlocked(i) => i < |s.producers| && s.producers[i].status == Pending
    case Resume(i) =>
      && i < |s.producers| && s.producers[i].status == Waiting
      && s.producers[i].last.Some? && s.producers[i].last.value in s.q.fulfilled
    case Finish(i) => i < |s.producers| && s.producers[i].status != Finished
    case Dequeue =>
      (match s.consumer
       case Idle => cfg.startFirst ==> s.q.numProducers.Some?
       case Returning(_, _) => false
       case Sleeping(future) => future in s.q.fulfilled)
    case FulfillNext => s.consumer.Returning? && s.consumer.mayContinue != []
    case Return => s.consumer.Returning? && s.consumer.mayContinue == []
    case Close => true
  }

  function DoAddInput(s: System, i: nat, b: Batch): System
    requires i < |s.producers|
  {
    var (q, r) := EnqueueBatch(s.q, b);
    var p := s.producers[i];
    match r
    case Closed => s.(q := q, producers := s.producers[i := p.(status := Failed)])
    case NotBlocked => s.(q := q, accepted := s.accepted + [b])
    case WaitForConsumer(f) =>
      s.(q := q, accepted := s.accepted + [b], producers := s.producers[i := p.(status := Pending, last := Some(f))])
  }

  function DoDequeue(s: System): System {
    var (q, r) := DequeueSection(s.q);
    match r
    case Null => s.(q := q, consumer := Idle, atEnd := s.atEnd || !s.q.closed)
    case Got(b, mayContinue) => s.(q := q, consumer := Returning(b, mayContinue))
    case Blocked(future) => s.(q := q, consumer := Sleeping(future))
  }

  function Do(cfg: Config, s: System, a: Action): System
    requires Enabled(cfg, s, a)
  {
    match a
    case SetNumProducers => s.(q := s.q.(numProducers := Some(cfg.numProducers)))
    case AddInput(i, b) => DoAddInput(s, i, b)
    case CheckBlocked(i) => s.(producers := s.producers[i := s.producers[i].(status := Waiting)])
    case Resume(i) => s.(producers := s.producers[i := s.producers[i].(status := Running)])
    case Finish(i) =>
      s.(q := EnqueueEnd(s.q),
         producers := s.producers[i := s.producers[i].(status := Finished, ends := s.producers[i].ends + 1)])
    case Dequeue => DoDequeue(s)
    case FulfillNext =>
      s.(q := SetValue(s.q, s.consumer.mayContinue[0]),
         consumer := s.consumer.(mayContinue := s.consumer.mayContinue[1..]))
    case Return => s.(consumer := Idle, returned := s.returned + [s.consumer.batch])
    case Close => s.(q := CloseQueue(s.q))
  }

  /** The run `actions` is possible from the initial state. */
  predicate Possible(cfg: Config, actions: seq<Action>)
    decreases |actions|, 0
  {
    actions != [] ==>
      var before := actions[..|actions| - 1];
      Possible(cfg, before) && Enabled(cfg, After(cfg, before), actions[|actions| - 1])
  }

  /** The state after a possible run. */
  function After(cfg: Config, actions: seq<Action>): System
    requires Possible(cfg, actions)
    decreases |actions|, 1
  {
    if actions == [] then Init(cfg)
    else Do(cfg, After(cfg, actions[..|actions| - 1]), actions[|actions| - 1])
  }

  // ----- what every step keeps -----

  function TotalBytes(batches: seq<Batch>): nat {
    if batches == [] then 0 else batches[0].bytes + TotalBytes(batches[1..])
  }

  lemma {:induction false} TotalBytesAppend(batches: seq<Batch>, b: Batch)
    ensures TotalBytes(batches + [b]) == TotalBytes(batches) + b.bytes
  {
    if batches == [] {
      assert batches + [b] == [b];
    } else {
      assert (batches + [b])[1..] == batches[1..] + [b];
      TotalBytesAppend(batches[1..], b);
    }
  }

  /** The batch a `dequeue` in progress is about to return. */
  function InFlight(s: System): seq<Batch> {
    if s.consumer.Returning? then [s.consumer.batch] else []
  }

  /** No batch is lost, duplicated or reordered, and the byte count is exact. */
  ghost predicate History(s: System) {
    && s.accepted == s.returned + InFlight(s) + s.q.queue
    && s.q.totalBytes == TotalBytes(s.q.queue)
  }

  /** The promises somebody still has to fulfil, and those that have been fulfilled. */
  ghost function Promises(q: Queue, mayContinue: seq<Promise>): multiset<Promise> {
    multiset(q.unblockPromises) + multiset(q.fulfilled) + multiset(mayContinue)
    + (if q.consumerBlocked then multiset{q.consumerPromise} else multiset{})
  }

  function MayContinue(s: System): seq<Promise> {
    if s.consumer.Returning? then s.consumer.mayContinue else []
  }

  /** Every promise made so far is in exactly one place, once; in particular none is fulfilled twice. */
  ghost predicate Conserved(numPromises: nat, promises: multiset<Promise>) {
    forall p: Promise :: promises[p] == if p < numPromises then 1 else 0
  }

  ghost predicate PromisesConserved(s: System) {
    Conserved(s.q.numPromises, Promises(s.q, MayContinue(s)))
  }

  /** A producer signals its end once, waits only for a future it was given, and goes on once that is fulfilled. */
  ghost predicate ProducerConsistent(q: Queue, p: Producer) {
    && p.ends == (if p.status == Finished then 1 else 0)
    && (p.last.Some? ==> p.last.value < q.numPromises)
    && (p.status in {Pending, Waiting} ==> p.last.Some?)
    && (p.status == Running && p.last.Some? ==> p.last.value in q.fulfilled)
  }

  ghost predicate ProducersConsistent(cfg: Config, s: System) {
    && |s.producers| == cfg.numProducers
    && s.q.maxBytes == cfg.maxBytes
    && (s.q.numProducers.Some? ==> s.q.numProducers.value == cfg.numProducers)
    && s.q.producersFinished == |FinishedSet(s)|
    && (forall i :: 0 <= i < |s.producers| ==> ProducerConsistent(s.q, s.producers[i]))
  }

  ghost function FinishedSet(s: System): set<int> {
    set i | 0 <= i < |s.producers| && s.producers[i].status == Finished
  }

  /** The consumer sleeps only when there is nothing to take, and it is woken by whoever changes that. */
  ghost predicate ConsumerConsistent(cfg: Config, s: System) {
    && (s.q.consumerBlocked ==>
          && s.consumer == Sleeping(s.q.consumerPromise)
          && s.q.queue == [] && !s.q.closed
          && (cfg.startFirst ==> s.q.numProducers.Some? && s.q.producersFinished != cfg.numProducers))
    && (s.consumer.Sleeping? ==>
          || (s.q.consumerBlocked && s.q.consumerPromise == s.consumer.future)
          || s.consumer.future in s.q.fulfilled)
    && (cfg.startFirst && s.consumer != Idle ==> s.q.numProducers.Some?)
    && (s.q.closed ==> s.q.unblockPromises == [] && !s.q.consumerBlocked)
    && (s.atEnd ==> s.q.queue == [] && s.q.producersFinished == cfg.numProducers && !s.consumer.Returning?)
  }

  /** A producer promise left in the queue means that there is something to dequeue. */
  ghost predicate PromisesBacked(s: System) {
    s.q.maxBytes >= 2 && s.q.unblockPromises != [] ==> s.q.queue != []
  }

  /** The future a producer was given is always still held by the queue, about to be fulfilled, or fulfilled. */
  ghost predicate FuturesPlaced(s: System) {
    forall i :: 0 <= i < |s.producers| && s.producers[i].last.Some? ==>
      var p := s.producers[i].last.value;
      p in s.q.unblockPromises || p in MayContinue(s) || p in s.q.fulfilled
  }

  ghost predicate Inv(cfg: Config, s: System) {
    && History(s)
    && PromisesConserved(s)
    && ProducersConsistent(cfg, s)
    && ConsumerConsistent(cfg, s)
    && PromisesBacked(s)
    && FuturesPlaced(s)
  }

  lemma InitInv(cfg: Config)
    ensures Inv(cfg, Init(cfg))
  {
    assert FinishedSet(Init(cfg)) == {};
  }

  // Promises: no critical section loses or duplicates one.

  lemma WakePromises(q: Queue, mayContinue: seq<Promise>)
    ensures Promises(WakeConsumer(q), mayContinue) == Promises(q, mayContinue)
  {
  }

  lemma NewPromise(n: nat, promises: multiset<Promise>)
    requires Conserved(n, promises)
    ensures Conserved(n + 1, promises + multiset{n})
  {
  }

  lemma EnqueuePromises(q: Queue, b: Batch, mayContinue: seq<Promise>)
    requires Conserved(q.numPromises, Promises(q, mayContinue))
    ensures var q' := EnqueueBatch(q, b).0; Conserved(q'.numPromises, Promises(q', mayContinue))
  {
    var (q', r) := EnqueueBatch(q, b);
    var q1 := q.(queue := q.queue + [b], totalBytes := q.totalBytes + b.bytes);
    WakePromises(q1, mayContinue);
    if r.WaitForConsumer? {
      NewPromise(q.numPromises, Promises(q, mayContinue));
      assert Promises(q', mayContinue) == Promises(q1, mayContinue) + multiset{q.numPromises};
    }
  }

  lemma DequeuePromises(q: Queue)
    requires Conserved(q.numPromises, Promises(q, [])) && !q.consumerBlocked
    ensures var (q', r) := DequeueSection(q);
            Conserved(q'.numPromises, Promises(q', if r.Got? then r.mayContinue else []))
  {
    var (q', r) := DequeueSection(q);
    if r.Blocked? {
      NewPromise(q.numPromises, Promises(q, []));
      assert Promises(q', []) == Promises(q, []) + multiset{q.numPromises};
    } else {
      assert Promises(q', if r.Got? then r.mayContinue else []) == Promises(q, []);
    }
  }

  lemma ClosePromises(q: Queue, mayContinue: seq<Promise>)
    ensures Promises(CloseQueue(q), mayContinue) == Promises(q, mayContinue)
  {
    var q1 := q.(closed := true, unblockPromises := [], fulfilled := q.fulfilled + q.unblockPromises);
    WakePromises(q1, mayContinue);
    assert Promises(q1, mayContinue) == Promises(q, mayContinue);
  }

  /** A promise that is fulfilled is nowhere else. */
  lemma OnePlace(q: Queue, mayContinue: seq<Promise>, p: Promise)
    requires Conserved(q.numPromises, Promises(q, mayContinue)) && p in q.fulfilled
    ensures p !in q.unblockPromises && !(q.consumerBlocked && q.consumerPromise == p)
  {
    assert Promises(q, mayContinue)[p] <= 1;
    assert p in multiset(q.fulfilled);
    assert p in q.unblockPromises ==> p in multiset(q.unblockPromises);
  }

  /** The consumer only retries once its last promise is fulfilled, so it is not blocked then. */
  lemma NotBlocked(cfg: Config, s: System)
    requires PromisesConserved(s) && ConsumerConsistent(cfg, s) && Enabled(cfg, s, Dequeue)
    ensures !s.q.consumerBlocked
  {
    if s.consumer.Sleeping? {
      OnePlace(s.q, MayContinue(s), s.consumer.future);
    }
  }

  lemma FinishPromises(q: Queue, mayContinue: seq<Promise>)
    ensures Promises(EnqueueEnd(q), mayContinue) == Promises(q, mayContinue)
    ensures EnqueueEnd(q).numPromises == q.numPromises
  {
  }

  lemma FulfillPromises(q: Queue, mayContinue: seq<Promise>)
    requires mayContinue != []
    ensures Promises(SetValue(q, mayContinue[0]), mayContinue[1..]) == Promises(q, mayContinue)
  {
    assert mayContinue == [mayContinue[0]] + mayContinue[1..];
  }

  lemma AddInputPromises(s: System, i: nat, b: Batch)
    requires PromisesConserved(s) && i < |s.producers|
    ensures PromisesConserved(DoAddInput(s, i, b))
  {
    EnqueuePromises(s.q, b, MayContinue(s));
    var s' := DoAddInput(s, i, b);
    assert s'.q == EnqueueBatch(s.q, b).0 && s'.consumer == s.consumer;
  }

  /** Only the queue and the consumer matter for the promises. */
  lemma SamePromises(s: System, s': System)
    requires PromisesConserved(s)
    requires s'.q.numPromises == s.q.numPromises && Promises(s'.q, MayContinue(s')) == Promises(s.q, MayContinue(s))
    ensures PromisesConserved(s')
  {
  }

  lemma PromisesStep(cfg: Config, s: System, a: Action)
    requires PromisesConserved(s) && ConsumerConsistent(cfg, s) && Enabled(cfg, s, a)
    ensures PromisesConserved(Do(cfg, s, a))
  {
    if a.AddInput? {
      AddInputPromises(s, a.i, a.b);
    } else if a.Dequeue? {
      DequeueStepPromises(cfg, s);
    } else {
      var s' := Do(cfg, s, a);
      assert s'.q.numPromises == s.q.numPromises
             && Promises(s'.q, MayContinue(s')) == Promises(s.q, MayContinue(s)) by {
        if a.Finish? {
          FinishPromises(s.q, MayContinue(s));
        } else if a.FulfillNext? {
          FulfillPromises(s.q, s.consumer.mayContinue);
        } else if a.Close? {
          ClosePromises(s.q, MayContinue(s));
        }
      }
      SamePromises(s, s');
    }
  }

  lemma DequeueStepPromises(cfg: Config, s: System)
    requires PromisesConserved(s) && ConsumerConsistent(cfg, s) && Enabled(cfg, s, Dequeue)
    ensures PromisesConserved(DoDequeue(s))
  {
    NotBlocked(cfg, s);
    DequeuePromises(s.q);
  }

  // History: batches move from accepted to queued to in flight to returned.

  lemma AddInputHistory(s: System, i: nat, b: Batch)
    requires History(s) && i < |s.producers|
    ensures History(DoAddInput(s, i, b))
  {
    TotalBytesAppend(s.q.queue, b);
  }

  lemma DequeueHistory(s: System)
    requires History(s) && !s.consumer.Returning?
    ensures History(DoDequeue(s))
  {
    if s.q.queue != [] {
      assert s.q.queue == [s.q.queue[0]] + s.q.queue[1..];
    }
  }

  lemma HistoryStep(cfg: Config, s: System, a: Action)
    requires History(s) && Enabled(cfg, s, a)
    ensures History(Do(cfg, s, a))
  {
    var s' := Do(cfg, s, a);
    if a.AddInput? {
      AddInputHistory(s, a.i, a.b);
    } else if a.Dequeue? {
      DequeueHistory(s);
    } else {
      assert s'.q.queue == s.q.queue && s'.q.totalBytes == s.q.totalBytes && s'.accepted == s.accepted;
    }
  }

  // Producers change one at a time, and only `Finish` changes who is finished.

  lemma AddInputProducers(cfg: Config, s: System, i: nat, b: Batch)
    requires ProducersConsistent(cfg, s) && Enabled(cfg, s, AddInput(i, b))
    ensures ProducersConsistent(cfg, DoAddInput(s, i, b))
  {
    assert FinishedSet(DoAddInput(s, i, b)) == FinishedSet(s);
  }

  lemma FinishProducers(cfg: Config, s: System, i: nat)
    requires ProducersConsistent(cfg, s) && Enabled(cfg, s, Finish(i))
    ensures ProducersConsistent(cfg, Do(cfg, s, Finish(i)))
  {
    assert FinishedSet(Do(cfg, s, Finish(i))) == FinishedSet(s) + {i as int};
  }

  lemma WaitProducers(cfg: Config, s: System, a: Action)
    requires ProducersConsistent(cfg, s) && Enabled(cfg, s, a) && (a.CheckBlocked? || a.Resume?)
    ensures ProducersConsistent(cfg, Do(cfg, s, a))
  {
    assert FinishedSet(Do(cfg, s, a)) == FinishedSet(s);
  }

  lemma ProducersStep(cfg: Config, s: System, a: Action)
    requires ProducersConsistent(cfg, s) && Enabled(cfg, s, a)
    ensures ProducersConsistent(cfg, Do(cfg, s, a))
  {
    if a.AddInput? {
      AddInputProducers(cfg, s, a.i, a.b);
    } else if a.Finish? {
      FinishProducers(cfg, s, a.i);
    } else if a.CheckBlocked? || a.Resume? {
      WaitProducers(cfg, s, a);
    } else {
      var s' := Do(cfg, s, a);
      assert s'.producers == s.producers && FinishedSet(s') == FinishedSet(s);
    }
  }

  // The consumer: whoever adds a batch or finishes last wakes it.

  lemma AddInputConsumer(cfg: Config, s: System, i: nat, b: Batch)
    requires ProducersConsistent(cfg, s) && ConsumerConsistent(cfg, s) && Enabled(cfg, s, AddInput(i, b))
    ensures ConsumerConsistent(cfg, DoAddInput(s, i, b))
  {
    FinishedBound(s);
  }

  lemma FinishConsumer(cfg: Config, s: System, i: nat)
    requires ProducersConsistent(cfg, s) && ConsumerConsistent(cfg, s) && Enabled(cfg, s, Finish(i))
    ensures ConsumerConsistent(cfg, Do(cfg, s, Finish(i)))
  {
    FinishedBound(s);
  }

  lemma DequeueConsumer(cfg: Config, s: System)
    requires ProducersConsistent(cfg, s) && ConsumerConsistent(cfg, s) && PromisesConserved(s)
    requires Enabled(cfg, s, Dequeue)
    ensures ConsumerConsistent(cfg, DoDequeue(s))
  {
    NotBlocked(cfg, s);
  }

  lemma ConsumerStep(cfg: Config, s: System, a: Action)
    requires ProducersConsistent(cfg, s) && ConsumerConsistent(cfg, s) && PromisesConserved(s) && Enabled(cfg, s, a)
    ensures ConsumerConsistent(cfg, Do(cfg, s, a))
  {
    if a.AddInput? {
      AddInputConsumer(cfg, s, a.i, a.b);
    } else if a.Finish? {
      FinishConsumer(cfg, s, a.i);
    } else if a.Dequeue? {
      DequeueConsumer(cfg, s);
    }
  }

  lemma BackedStep(cfg: Config, s: System, a: Action)
    requires History(s) && PromisesBacked(s) && Enabled(cfg, s, a)
    ensures PromisesBacked(Do(cfg, s, a))
  {
    if a == Dequeue && !s.q.closed && |s.q.queue| == 1 {
      assert s.q.queue[1..] == [];
      assert TotalBytes(s.q.queue) == s.q.queue[0].bytes;
    }
  }

  lemma FuturesStep(cfg: Config, s: System, a: Action)
    requires FuturesPlaced(s) && Enabled(cfg, s, a)
    ensures FuturesPlaced(Do(cfg, s, a))
  {
    var s' := Do(cfg, s, a);
    forall i | 0 <= i < |s'.producers| && s'.producers[i].last.Some?
      ensures var p := s'.producers[i].last.value;
              p in s'.q.unblockPromises || p in MayContinue(s') || p in s'.q.fulfilled
    {
      var p := s'.producers[i].last.value;
      assert s'.producers[i].last == s.producers[i].last || p in s'.q.unblockPromises;
      if a.FulfillNext? {
        assert s.consumer.mayContinue == [s.consumer.mayContinue[0]] + s.consumer.mayContinue[1..];
      }
    }
  }

  lemma FinishedBound(s: System)
    ensures |FinishedSet(s)| <= |s.producers|
    ensures |FinishedSet(s)| == |s.producers| ==>
              forall i :: 0 <= i < |s.producers| ==> s.producers[i].status == Finished
  {
    SubsetSize(FinishedSet(s), Below(|s.producers|));
    forall i | 0 <= i < |s.producers| && |FinishedSet(s)| == |s.producers| ensures s.producers[i].status == Finished {
      assert i in Below(|s.producers|);
    }
  }

  /** The numbers below `n`. */
  ghost function Below(n: nat): (r: set<int>)
    ensures |r| == n && forall i :: i in r <==> 0 <= i < n
  {
    if n == 0 then {} else Below(n - 1) + {n - 1}
  }

  lemma {:induction false} SubsetSize<T>(a: set<T>, b: set<T>)
    requires a <= b
    ensures |a| <= |b| && (|a| == |b| ==> a == b)
    decreases |a|
  {
    if a != {} {
      var x :| x in a;
      SubsetSize(a - {x}, b - {x});
      assert a == a - {x} + {x} && b == b - {x} + {x};
    } else if b != {} {
      var x :| x in b;
      assert |b| > 0;
    }
  }

  lemma StepInv(cfg: Config, s: System, a: Action)
    requires Inv(cfg, s) && Enabled(cfg, s, a)
    ensures Inv(cfg, Do(cfg, s, a))
  {
    HistoryStep(cfg, s, a);
    PromisesStep(cfg, s, a);
    ProducersStep(cfg, s, a);
    ConsumerStep(cfg, s, a);
    BackedStep(cfg, s, a);
    FuturesStep(cfg, s, a);
  }

  /** The invariant holds after every run. */
  lemma {:induction false} RunInv(cfg: Config, actions: seq<Action>)
    requires Possible(cfg, actions)
    ensures Inv(cfg, After(cfg, actions))
  {
    if actions == [] {
      InitInv(cfg);
    } else {
      var before := actions[..|actions| - 1];
      RunInv(cfg, before);
      StepInv(cfg, After(cfg, before), actions[|actions| - 1]);
    }
  }

  // ----- the properties of every run -----

  /**
   Delivery is first-in first-out and exactly once, the byte count never underflows, and a null from an
   open queue means that every producer ended exactly once and every accepted batch was returned.
   */
  lemma Delivery(cfg: Config, actions: seq<Action>)
    requires Possible(cfg, actions)
    ensures var s := After(cfg, actions);
            && s.accepted == s.returned + InFlight(s) + s.q.queue
            && s.q.totalBytes == TotalBytes(s.q.queue) >= 0
            && (s.atEnd ==> s.returned == s.accepted
                            && forall i :: 0 <= i < |s.producers| ==> s.producers[i].ends == 1)
  {
    RunInv(cfg, actions);
    FinishedBound(After(cfg, actions));
  }

  /** No promise is ever fulfilled twice, and a producer promise left in the queue means a non-empty queue. */
  lemma PromisesOnce(cfg: Config, actions: seq<Action>, p: Promise)
    requires Possible(cfg, actions)
    ensures var s := After(cfg, actions);
            && multiset(s.q.fulfilled)[p] <= 1
            && (p in s.q.unblockPromises ==> p !in s.q.fulfilled)
            && (cfg.maxBytes >= 2 && p in s.q.unblockPromises ==> s.q.queue != [])
  {
    RunInv(cfg, actions);
    var s := After(cfg, actions);
    assert Promises(s.q, MayContinue(s))[p] <= 1;
  }

  /** Once the queue is closed and promises in flight are fulfilled, nobody waits any more. */
  lemma CloseReleasesAll(cfg: Config, actions: seq<Action>)
    requires Possible(cfg, actions)
    ensures var s := After(cfg, actions);
            s.q.closed && MayContinue(s) == [] ==>
              && (s.consumer.Sleeping? ==> s.consumer.future in s.q.fulfilled)
              && forall i :: 0 <= i < |s.producers| && s.producers[i].status in {Pending, Waiting} ==>
                   s.producers[i].last.Some? && s.producers[i].last.value in s.q.fulfilled
  {
    RunInv(cfg, actions);
  }

  /** The consumer sleeps, and every producer that is not finished waits for it. */
  ghost predicate Stuck(s: System) {
    && !s.q.closed
    && s.consumer.Sleeping? && s.consumer.future !in s.q.fulfilled
    && forall i :: 0 <= i < |s.producers| ==>
         || s.producers[i].status == Finished
         || (s.producers[i].status == Waiting && s.producers[i].last.Some?
             && s.producers[i].last.value !in s.q.fulfilled)
  }

  /** The number of producers is set first, and a queue can get below half of its limit, or there are no producers. */
  predicate Sound(cfg: Config) {
    cfg.startFirst && (cfg.maxBytes >= 2 || cfg.numProducers == 0)
  }

  lemma NeverStuck(cfg: Config, actions: seq<Action>)
    requires Sound(cfg) && Possible(cfg, actions)
    ensures !Stuck(After(cfg, actions))
  {
    RunInv(cfg, actions);
    var s := After(cfg, actions);
    if Stuck(s) {
      assert s.q.consumerBlocked && (s.producers == [] || s.q.unblockPromises == []);
      FinishedBound(s);
      AllFinished(s);
    }
  }

  lemma AllFinished(s: System)
    requires forall i :: 0 <= i < |s.producers| ==> s.producers[i].status == Finished
    ensures |FinishedSet(s)| == |s.producers|
  {
    assert FinishedSet(s) == Below(|s.producers|);
  }

  // The two conditions are necessary: without either, some run gets stuck.

  lemma Extend(cfg: Config, run: seq<Action>, a: Action)
    requires Possible(cfg, run) && Enabled(cfg, After(cfg, run), a)
    ensures Possible(cfg, run + [a]) && After(cfg, run + [a]) == Do(cfg, After(cfg, run), a)
  {
    assert (run + [a])[..|run|] == run;
  }

  /** The state after producers `lo` to `hi` have finished. */
  ghost predicate AfterFinishing(s: System, s': System, lo: nat, hi: nat) {
    && lo <= hi <= |s.producers| == |s'.producers|
    && s' == s.(q := s.q.(producersFinished := s.q.producersFinished + hi - lo), producers := s'.producers)
    && (forall i :: 0 <= i < |s.producers| && !(lo <= i < hi) ==> s'.producers[i] == s.producers[i])
    && (forall i :: lo <= i < hi ==> s'.producers[i].status == Finished)
  }

  lemma FinishOne(cfg: Config, s: System, lo: nat)
    requires lo < |s.producers| && s.producers[lo].status == Running && !s.q.consumerBlocked
    ensures Enabled(cfg, s, Finish(lo)) && AfterFinishing(s, Do(cfg, s, Finish(lo)), lo, lo + 1)
  {
  }

  lemma FinishTogether(s: System, s1: System, s2: System, lo: nat)
    requires AfterFinishing(s, s1, lo, lo + 1) && AfterFinishing(s1, s2, lo + 1, |s.producers|)
    ensures AfterFinishing(s, s2, lo, |s.producers|)
  {
  }

  /** All producers from `lo` on finish, one after the other. */
  lemma {:induction false} FinishFrom(cfg: Config, run: seq<Action>, s: System, lo: nat) returns (run': seq<Action>)
    requires Possible(cfg, run) && s == After(cfg, run) && !s.q.consumerBlocked && lo <= |s.producers|
    requires forall i :: lo <= i < |s.producers| ==> s.producers[i].status == Running
    ensures Possible(cfg, run') && AfterFinishing(s, After(cfg, run'), lo, |s.producers|)
    decreases |s.producers| - lo
  {
    if lo == |s.producers| {
      run' := run;
    } else {
      FinishOne(cfg, s, lo);
      Extend(cfg, run, Finish(lo));
      var s1 := Do(cfg, s, Finish(lo));
      run' := FinishFrom(cfg, run + [Finish(lo)], s1, lo + 1);
      FinishTogether(s, s1, After(cfg, run'), lo);
    }
  }

  /** One producer adds a batch over the limit, and the consumer takes it. */
  lemma OneBatch(cfg: Config) returns (run: seq<Action>)
    requires cfg.maxBytes < 2 && cfg.numProducers > 0
    ensures Possible(cfg, run)
    ensures var s := After(cfg, run);
            s == Init(cfg).(q := s.q, producers := s.producers, accepted := s.accepted, consumer := s.consumer)
            && s.q == NewQueue(cfg.maxBytes).(numProducers := Some(cfg.numProducers), unblockPromises := [0],
                                              numPromises := 1)
            && s.consumer == Returning(Batch(0, 2), [])
            && s.producers == Init(cfg).producers[0 := Producer(Waiting, Some(0), 0)]
  {
    var b := Batch(0, 2);
    run := [];
    Extend(cfg, run, SetNumProducers);
    run := run + [SetNumProducers];
    Extend(cfg, run, AddInput(0, b));
    run := run + [AddInput(0, b)];
    Extend(cfg, run, CheckBlocked(0));
    run := run + [CheckBlocked(0)];
    Extend(cfg, run, Dequeue);
    run := run + [Dequeue];
  }

  /** Under a limit of at most one byte, a batch over it is never acknowledged. */
  lemma StuckOnTinyLimit(cfg: Config) returns (run: seq<Action>)
    requires cfg.maxBytes < 2 && cfg.numProducers > 0
    ensures Possible(cfg, run) && Stuck(After(cfg, run))
  {
    run := OneBatch(cfg);
    Extend(cfg, run, Return);
    run := run + [Return];
    run := FinishFrom(cfg, run, After(cfg, run), 1);
    Extend(cfg, run, Dequeue);
    run := run + [Dequeue];
  }

  /** A consumer that starts before the number of producers is known is not woken when it becomes known. */
  lemma StuckOnLateStart(cfg: Config) returns (run: seq<Action>)
    requires !cfg.startFirst
    ensures Possible(cfg, run) && Stuck(After(cfg, run))
  {
    run := FinishFrom(cfg, [], Init(cfg), 0);
    Extend(cfg, run, Dequeue);
    run := run + [Dequeue];
  }

  ghost predicate DeadlockFree(cfg: Config) {
    forall run :: Possible(cfg, run) ==> !Stuck(After(cfg, run))
  }

  /**
   No interleaving deadlocks if and only if the number of producers is set before the first dequeue, and the limit is
   at least two bytes or there are no producers.
   */
  lemma DeadlockFreeIff(cfg: Config)
    ensures DeadlockFree(cfg) <==> cfg.startFirst && (cfg.maxBytes >= 2 || cfg.numProducers == 0)
  {
    if Sound(cfg) {
      forall run | Possible(cfg, run) ensures !Stuck(After(cfg, run)) {
        NeverStuck(cfg, run);
      }
    } else if cfg.startFirst {
      var run := StuckOnTinyLimit(cfg);
      assert Possible(cfg, run) && Stuck(After(cfg, run));
    } else {
      var run := StuckOnLateStart(cfg);
      assert Possible(cfg, run) && Stuck(After(cfg, run));
    }
  }

  // ----- back-pressure -----

  ghost predicate BatchesAtMost(limit: nat, actions: seq<Action>) {
    forall k :: 0 <= k < |actions| && actions[k].AddInput? ==> actions[k].b.bytes <= limit
  }

  /** The producers whose promise the queue still holds. */
  ghost function HeldBack(s: System): set<int> {
    set i | 0 <= i < |s.producers| && s.producers[i].last.Some? && s.producers[i].last.value in s.q.unblockPromises
  }

  /** Beyond its limit the queue holds at most one batch for every producer it holds back. */
  ghost predicate Bounded(limit: nat, s: System) {
    s.q.totalBytes <= s.q.maxBytes + limit * if s.q.closed then |s.producers| else |HeldBack(s)|
  }

  lemma HeldBackSize(limit: nat, s: System)
    ensures limit * |HeldBack(s)| <= limit * |s.producers|
  {
    SubsetSize(HeldBack(s), Below(|s.producers|));
    Monotone(limit, |HeldBack(s)|, |s.producers|);
  }

  lemma Monotone(k: nat, a: int, b: int)
    requires a <= b
    ensures k * a <= k * b
  {
  }

  /** A producer told to wait joins the producers held back. */
  lemma HeldBackGrows(cfg: Config, s: System, i: nat, b: Batch)
    requires ProducersConsistent(cfg, s) && Enabled(cfg, s, AddInput(i, b)) && i as int !in HeldBack(s)
    requires EnqueueBatch(s.q, b).1.WaitForConsumer?
    ensures |HeldBack(DoAddInput(s, i, b))| == |HeldBack(s)| + 1
  {
    assert HeldBack(DoAddInput(s, i, b)) == HeldBack(s) + {i as int};
  }

  lemma AddInputBounded(cfg: Config, limit: nat, s: System, i: nat, b: Batch)
    requires ProducersConsistent(cfg, s) && Enabled(cfg, s, AddInput(i, b)) && i as int !in HeldBack(s)
    requires Bounded(limit, s) && b.bytes <= limit
    ensures Bounded(limit, DoAddInput(s, i, b))
  {
    var s' := DoAddInput(s, i, b);
    if EnqueueBatch(s.q, b).1.WaitForConsumer? {
      HeldBackGrows(cfg, s, i, b);
      assert limit * |HeldBack(s')| == limit * |HeldBack(s)| + limit;
    } else {
      Monotone(limit, 0, |HeldBack(s')|);
    }
  }

  lemma RunningNotHeldBack(cfg: Config, s: System, i: nat)
    requires Inv(cfg, s) && i < |s.producers| && s.producers[i].status == Running
    ensures i as int !in HeldBack(s)
  {
    if s.producers[i].last.Some? {
      OnePlace(s.q, MayContinue(s), s.producers[i].last.value);
    }
  }

  lemma BoundedStep(cfg: Config, limit: nat, s: System, a: Action)
    requires Inv(cfg, s) && Enabled(cfg, s, a) && Bounded(limit, s)
    requires a.AddInput? ==> a.b.bytes <= limit
    ensures Bounded(limit, Do(cfg, s, a))
  {
    var s' := Do(cfg, s, a);
    HeldBackSize(limit, s);
    if a.AddInput? {
      RunningNotHeldBack(cfg, s, a.i);
      AddInputBounded(cfg, limit, s, a.i, a.b);
    } else if a.Dequeue? {
      Monotone(limit, 0, |HeldBack(s')|);
      assert s'.q.unblockPromises == s.q.unblockPromises ==> HeldBack(s') == HeldBack(s);
    } else if !a.Close? {
      assert HeldBack(s') == HeldBack(s);
    }
  }

  /** With batches of at most `limit` bytes, the queue never holds more than one of them per producer over its limit. */
  lemma {:induction false} BackPressure(cfg: Config, limit: nat, actions: seq<Action>)
    requires Possible(cfg, actions) && BatchesAtMost(limit, actions)
    ensures Bounded(limit, After(cfg, actions))
    ensures After(cfg, actions).q.totalBytes <= cfg.maxBytes + limit * cfg.numProducers
  {
    if actions != [] {
      var before := actions[..|actions| - 1];
      BackPressure(cfg, limit, before);
      RunInv(cfg, before);
      BoundedStep(cfg, limit, After(cfg, before), actions[|actions| - 1]);
    }
    RunInv(cfg, actions);
    HeldBackSize(limit, After(cfg, actions));
  }
}
