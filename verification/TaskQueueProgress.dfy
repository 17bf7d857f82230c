/**
 Progress on the `TaskQueue` (velox/exec/Cursor.cpp).  Runs are finite: each step that changes anything, apart from new
 input, uses up some of what is left to do.  A run that cannot go on has ended, with everything delivered.  And from
 every reachable open state the producers can still reach their ends and the consumer can still take everything,
 without a producer moving while it is told to wait.
 */
module TaskQueueProgress {
  import opened TaskQueues
  import opened TaskQueueProtocol

  /** Nothing new is added, nothing is closed, and a producer that waits, or should, does not end. */
  predicate Patient(s: System, a: Action) {
    match a
    case AddInput(_, _) => false
    case Close => false
    case Finish(i) => i < |s.producers| && s.producers[i].status in {Running, Failed}
    case _ => true
  }

  /** The steps are possible from `s`, one after the other, and `dequeue` has returned null at the end. */
  predicate Completes(cfg: Config, s: System, steps: seq<Action>)
    decreases |steps|
  {
    if steps == [] then s.atEnd
    else Enabled(cfg, s, steps[0]) && Patient(s, steps[0]) && Completes(cfg, Do(cfg, s, steps[0]), steps[1..])
  }

  function EndOf(cfg: Config, s: System, steps: seq<Action>): System
    requires Completes(cfg, s, steps)
    decreases |steps|
  {
    if steps == [] then s else EndOf(cfg, Do(cfg, s, steps[0]), steps[1..])
  }

  // ----- a measure -----

  function Rank(status: Status): nat {
    match status
    case Pending => 3
    case Waiting => 2
    case Running => 1
    case Failed => 1
    case Finished => 0
  }

  function Ranks(producers: seq<Producer>, n: nat): nat
    requires n <= |producers|
  {
    if n == 0 then 0 else Ranks(producers, n - 1) + Rank(producers[n - 1].status)
  }

  lemma {:induction false} RanksDrop(producers: seq<Producer>, i: nat, p: Producer, n: nat)
    requires i < |producers| && n <= |producers|
    ensures Ranks(producers[i := p], n)
         == Ranks(producers, n) + if i < n then Rank(p.status) - Rank(producers[i].status) else 0
  {
    if n > 0 {
      RanksDrop(producers, i, p, n - 1);
    }
  }

  function ConsumerRank(s: System): nat {
    match s.consumer
    case Returning(_, _) => 3
    case Idle => 1
    case Sleeping(future) => if future in s.q.fulfilled then 2 else 0
  }

  /** The number of producers is still to be set. */
  function Unset(s: System): nat {
    if s.q.numProducers.None? then 1 else 0
  }

  /** One state is before another: lexicographically in setup, producers, queue, promises in flight and consumer. */
  predicate Before(s: System, t: System) {
    var ps, pt := Ranks(s.producers, |s.producers|), Ranks(t.producers, |t.producers|);
    || Unset(s) < Unset(t)
    || (Unset(s) == Unset(t) && ps < pt)
    || (Unset(s) == Unset(t) && ps == pt && |s.q.queue| < |t.q.queue|)
    || (Unset(s) == Unset(t) && ps == pt && |s.q.queue| == |t.q.queue| && |MayContinue(s)| < |MayContinue(t)|)
    || (Unset(s) == Unset(t) && ps == pt && |s.q.queue| == |t.q.queue| && |MayContinue(s)| == |MayContinue(t)|
        && ConsumerRank(s) < ConsumerRank(t))
  }

  /** What makes a state one from which to go on. */
  ghost predicate Live(cfg: Config, s: System) {
    Sound(cfg) && Inv(cfg, s) && !s.q.closed
  }

  ghost predicate Advances(cfg: Config, s: System, a: Action) {
    && Enabled(cfg, s, a) && Patient(s, a)
    && !Do(cfg, s, a).q.closed && (Do(cfg, s, a).atEnd || Before(Do(cfg, s, a), s))
  }

  // ----- there is always a step -----

  /** A sleeping consumer means that some producer is not finished, and none of its promises is with the queue. */
  lemma SleepingConsumer(cfg: Config, s: System) returns (i: nat)
    requires Live(cfg, s) && s.consumer.Sleeping? && s.consumer.future !in s.q.fulfilled
    ensures i < |s.producers| && s.producers[i].status != Finished
    ensures s.producers[i].status == Waiting ==> s.producers[i].last.Some? && s.producers[i].last.value in s.q.fulfilled
  {
    assert s.q.consumerBlocked && s.q.queue == [] && (s.producers == [] || s.q.unblockPromises == []);
    if forall k :: 0 <= k < |s.producers| ==> s.producers[k].status == Finished {
      AllFinished(s);
      assert false;
    }
    i :| i < |s.producers| && s.producers[i].status != Finished;
    assert ProducerConsistent(s.q, s.producers[i]);
  }

  lemma ProducerAdvances(cfg: Config, s: System, i: nat) returns (a: Action)
    requires Live(cfg, s) && i < |s.producers| && s.producers[i].status != Finished
    requires s.producers[i].status == Waiting ==>
        s.producers[i].last.Some? && s.producers[i].last.value in s.q.fulfilled
    ensures Advances(cfg, s, a)
  {
    var status := s.producers[i].status;
    a := if status == Pending then CheckBlocked(i) else if status == Waiting then Resume(i) else Finish(i);
    var s' := Do(cfg, s, a);
    RanksDrop(s.producers, i, s'.producers[i], |s.producers|);
    assert s'.producers == s.producers[i := s'.producers[i]];
  }

  lemma ConsumerAdvances(cfg: Config, s: System)
    requires Live(cfg, s) && s.q.numProducers.Some? && Enabled(cfg, s, Dequeue)
    ensures Advances(cfg, s, Dequeue)
  {
    TaskQueueProtocol.NotBlocked(cfg, s);
    var s' := DoDequeue(s);
    if s'.consumer.Sleeping? {
      NewFuture(s.q, MayContinue(s));
    }
  }

  /** A promise not made yet is not fulfilled. */
  lemma NewFuture(q: Queue, mayContinue: seq<Promise>)
    requires Conserved(q.numPromises, Promises(q, mayContinue))
    ensures q.numPromises !in q.fulfilled
  {
    assert Promises(q, mayContinue)[q.numPromises] == 0;
    assert q.numPromises in q.fulfilled ==> q.numPromises in multiset(q.fulfilled);
  }

  lemma Step(cfg: Config, s: System) returns (a: Action)
    requires Live(cfg, s)
    ensures Advances(cfg, s, a)
  {
    if s.q.numProducers.None? {
      a := SetNumProducers;
    } else if s.consumer.Returning? {
      a := if s.consumer.mayContinue != [] then FulfillNext else Return;
    } else if s.consumer.Sleeping? && s.consumer.future !in s.q.fulfilled {
      var i := SleepingConsumer(cfg, s);
      a := ProducerAdvances(cfg, s, i);
    } else {
      a := Dequeue;
      ConsumerAdvances(cfg, s);
    }
  }

  /** Patient steps do not change what was accepted. */
  lemma {:induction false} AcceptedKept(cfg: Config, s: System, steps: seq<Action>)
    requires Completes(cfg, s, steps)
    ensures EndOf(cfg, s, steps).accepted == s.accepted && EndOf(cfg, s, steps).atEnd
    decreases |steps|
  {
    if steps != [] {
      AcceptedKept(cfg, Do(cfg, s, steps[0]), steps[1..]);
    }
  }

  lemma {:induction false} EndInv(cfg: Config, s: System, steps: seq<Action>)
    requires Inv(cfg, s) && Completes(cfg, s, steps)
    ensures Inv(cfg, EndOf(cfg, s, steps))
    decreases |steps|
  {
    if steps != [] {
      StepInv(cfg, s, steps[0]);
      EndInv(cfg, Do(cfg, s, steps[0]), steps[1..]);
    }
  }

  lemma {:induction false} Completable(cfg: Config, s: System) returns (steps: seq<Action>)
    requires Live(cfg, s)
    ensures Completes(cfg, s, steps)
    decreases Unset(s), Ranks(s.producers, |s.producers|), |s.q.queue|, |MayContinue(s)|, ConsumerRank(s)
  {
    if s.atEnd {
      steps := [];
    } else {
      var a := Step(cfg, s);
      var s' := Do(cfg, s, a);
      var rest: seq<Action> := [];
      if !s'.atEnd {
        StepInv(cfg, s, a);
        rest := Completable(cfg, s');
      }
      steps := [a] + rest;
      assert steps[1..] == rest;
    }
  }

  /**
   From the state after any run, as long as the queue is open, some continuation ends with a null from `dequeue`: every
   accepted batch has been returned, in order, and every producer has signalled its end once.
   */
  lemma CanAlwaysComplete(cfg: Config, actions: seq<Action>) returns (steps: seq<Action>)
    requires Sound(cfg) && Possible(cfg, actions) && !After(cfg, actions).q.closed
    ensures Completes(cfg, After(cfg, actions), steps)
    ensures var s, end := After(cfg, actions), EndOf(cfg, After(cfg, actions), steps);
            && end.returned == s.accepted
            && forall i :: 0 <= i < |end.producers| ==> end.producers[i].ends == 1
  {
    RunInv(cfg, actions);
    var s := After(cfg, actions);
    steps := Completable(cfg, s);
    AcceptedKept(cfg, s, steps);
    EndInv(cfg, s, steps);
    var end := EndOf(cfg, s, steps);
    FinishedBound(end);
    assert end.accepted == end.returned + [] + [];
    forall i | 0 <= i < |end.producers| ensures end.producers[i].ends == 1 {
      assert ProducerConsistent(end.q, end.producers[i]);
    }
  }

  // ----- every run is finite -----

  /** What is left to do in a state, without new input. */
  function Work(s: System): nat {
    (if s.q.closed then 0 else 3) + Unset(s) + 3 * Ranks(s.producers, |s.producers|) + 3 * |s.q.queue|
    + |s.q.unblockPromises| + |MayContinue(s)| + ConsumerRank(s) + (if s.atEnd then 0 else 1)
  }

  /** Fulfilling a promise can only wake the consumer. */
  lemma WokenRank(s: System, s': System)
    requires s'.consumer == s.consumer && forall p :: p in s.q.fulfilled ==> p in s'.q.fulfilled
    ensures ConsumerRank(s) <= ConsumerRank(s') <= ConsumerRank(s) + 2
  {
  }

  /** A batch adds at most its own place and one promise to the queue. */
  lemma EnqueueSizes(q: Queue, b: Batch)
    ensures var q' := EnqueueBatch(q, b).0;
            && |q'.queue| <= |q.queue| + 1 && |q'.unblockPromises| <= |q.unblockPromises| + 1
            && q'.closed == q.closed && q'.numProducers == q.numProducers
            && forall p :: p in q.fulfilled ==> p in q'.fulfilled
  {
  }

  lemma AddInputWork(s: System, i: nat, b: Batch)
    requires i < |s.producers| && s.producers[i].status == Running
    ensures Work(DoAddInput(s, i, b)) <= Work(s) + 12
  {
    EnqueueSizes(s.q, b);
    var s' := DoAddInput(s, i, b);
    RanksDrop(s.producers, i, s'.producers[i], |s.producers|);
    assert s'.producers == s.producers[i := s'.producers[i]];
    WokenRank(s, s');
  }

  lemma ProducerWork(cfg: Config, s: System, a: Action)
    requires Inv(cfg, s) && Enabled(cfg, s, a) && (a.CheckBlocked? || a.Resume? || a.Finish?)
    ensures Work(Do(cfg, s, a)) < Work(s)
  {
    var s' := Do(cfg, s, a);
    RanksDrop(s.producers, a.i, s'.producers[a.i], |s.producers|);
    assert s'.producers == s.producers[a.i := s'.producers[a.i]];
    WokenRank(s, s');
  }

  lemma DequeueWork(cfg: Config, s: System)
    requires Inv(cfg, s) && Enabled(cfg, s, Dequeue)
    ensures DoDequeue(s) == s || Work(DoDequeue(s)) < Work(s)
  {
    TaskQueueProtocol.NotBlocked(cfg, s);
    if DoDequeue(s).consumer.Sleeping? {
      NewFuture(s.q, MayContinue(s));
    }
  }

  lemma CloseWork(cfg: Config, s: System)
    requires Inv(cfg, s)
    ensures Do(cfg, s, Close) == s || Work(Do(cfg, s, Close)) < Work(s)
  {
    var s' := Do(cfg, s, Close);
    if s.q.closed {
      assert s.q.fulfilled + [] == s.q.fulfilled;
    } else {
      WokenRank(s, s');
    }
  }

  /** A step changes nothing, does some of the work, or is new input, which adds a bounded amount. */
  lemma StepWork(cfg: Config, s: System, a: Action)
    requires Inv(cfg, s) && Enabled(cfg, s, a)
    ensures if a.AddInput? then Work(Do(cfg, s, a)) <= Work(s) + 12
            else Do(cfg, s, a) == s || Work(Do(cfg, s, a)) < Work(s)
  {
    match a
    case AddInput(i, b) => AddInputWork(s, i, b);
    case CheckBlocked(_) => ProducerWork(cfg, s, a);
    case Resume(_) => ProducerWork(cfg, s, a);
    case Finish(_) => ProducerWork(cfg, s, a);
    case Dequeue => DequeueWork(cfg, s);
    case Close => CloseWork(cfg, s);
    case SetNumProducers =>
    case FulfillNext =>
    case Return =>
  }

  function Inputs(actions: seq<Action>): nat {
    if actions == [] then 0
    else Inputs(actions[..|actions| - 1]) + if actions[|actions| - 1].AddInput? then 1 else 0
  }

  /** Every step of the run changes something. */
  predicate Busy(cfg: Config, actions: seq<Action>)
    requires Possible(cfg, actions)
    decreases |actions|
  {
    actions != [] ==>
      var before := actions[..|actions| - 1];
      Busy(cfg, before) && After(cfg, actions) != After(cfg, before)
  }

  lemma {:induction false} RanksOfInit(producers: seq<Producer>, n: nat)
    requires n <= |producers| && forall i :: 0 <= i < n ==> producers[i].status == Running
    ensures Ranks(producers, n) == n
  {
    if n > 0 {
      RanksOfInit(producers, n - 1);
    }
  }

  /** A run of P producers with N batches takes at most 6 + 3 P + 13 N steps, apart from those that change nothing. */
  lemma {:induction false} RunsAreBounded(cfg: Config, actions: seq<Action>)
    requires Possible(cfg, actions) && Busy(cfg, actions)
    ensures |actions| + Work(After(cfg, actions)) <= 6 + 3 * cfg.numProducers + 13 * Inputs(actions)
    decreases |actions|
  {
    if actions == [] {
      RanksOfInit(Init(cfg).producers, cfg.numProducers);
    } else {
      var before := actions[..|actions| - 1];
      RunsAreBounded(cfg, before);
      RunInv(cfg, before);
      StepWork(cfg, After(cfg, before), actions[|actions| - 1]);
    }
  }

  /** No patient step changes anything. */
  ghost predicate Quiet(cfg: Config, s: System) {
    forall a :: Enabled(cfg, s, a) && Patient(s, a) ==> Do(cfg, s, a) == s
  }

  lemma QuietAtEnd(cfg: Config, s: System)
    requires Live(cfg, s) && Quiet(cfg, s)
    ensures s.atEnd
  {
    var a := Step(cfg, s);
    var s' := Do(cfg, s, a);
    assert s' == s;
  }

  /** A run that cannot go on is at its end: closed, or everything returned and every producer finished once. */
  lemma MaximalRunsEnd(cfg: Config, actions: seq<Action>)
    requires Sound(cfg) && Possible(cfg, actions) && Quiet(cfg, After(cfg, actions))
    ensures var s := After(cfg, actions);
            || s.q.closed
            || (s.atEnd && s.returned == s.accepted && forall i :: 0 <= i < |s.producers| ==> s.producers[i].ends == 1)
  {
    RunInv(cfg, actions);
    if !After(cfg, actions).q.closed {
      QuietAtEnd(cfg, After(cfg, actions));
      Delivery(cfg, actions);
    }
  }
}
