/**
 * Merging one stream per shard through a shared queue. Workers and the consumer
 * are threads; a list of steps is one interleaving of them.
 */
module FanOut {
  import opened Core

  /** What a worker puts on the queue, tagged with its shard. */
  datatype Item<T> = Event(shard: nat, value: T) | Failure(shard: nat, error: Error)

  datatype Phase = Streaming | Checking | Finished

  datatype Consumer = Reading | Raised(error: Error) | Abandoned

  datatype Merge<T> = Merge(
    workers: seq<Phase>,
    queue: seq<Item<T>>,
    stop: bool,
    consumer: Consumer,
    yielded: seq<Item<T>>,
    enqueued: seq<Item<T>>,        // everything ever put on the queue, in order
    taken: seq<Item<T>>,           // everything ever taken off it
    late: seq<nat>)                // per worker: items put after the stop flag was set

  datatype Step<T> =
    | Produce(shard: nat, value: T)
    | CheckStop(shard: nat)
    | Fail(shard: nat, error: Error)
    | End(shard: nat)              // the shard's stream saw the stop flag
    | Get
    | Abandon

  predicate Enabled<T>(m: Merge, s: Step<T>)
    requires |m.late| == |m.workers|
  {
    match s
    case Produce(i, _) => i < |m.workers| && m.workers[i] == Streaming
    case CheckStop(i) => i < |m.workers| && m.workers[i] == Checking
    case Fail(i, _) => i < |m.workers| && m.workers[i] == Streaming
    case End(i) => i < |m.workers| && m.workers[i] == Streaming && m.stop
    case Get => m.consumer == Reading && m.queue != []
    case Abandon => m.consumer == Reading
  }

  function Put<T>(m: Merge, i: nat, item: Item<T>, phase: Phase): Merge<T>
    requires |m.late| == |m.workers| && i < |m.workers|
  {
    m.(queue := m.queue + [item],
       enqueued := m.enqueued + [item],
       workers := m.workers[i := phase],
       late := if m.stop then m.late[i := m.late[i] + 1] else m.late)
  }

  function Apply<T>(m: Merge, s: Step<T>): (r: Merge<T>)
    requires |m.late| == |m.workers| && Enabled(m, s)
    ensures |r.late| == |r.workers| == |m.workers|
  {
    match s
    case Produce(i, value) => Put(m, i, Event(i, value), Checking)
    case CheckStop(i) => m.(workers := m.workers[i := if m.stop then Finished else Streaming])
    case Fail(i, error) => Put(m, i, Failure(i, error), Finished)
    case End(i) => m.(workers := m.workers[i := Finished])
    case Get =>
      var item := m.queue[0];
      var rest := m.(queue := m.queue[1..], taken := m.taken + [item]);
      if item.Failure? then rest.(consumer := Raised(item.error), stop := true)
      else rest.(yielded := m.yielded + [item])
    case Abandon => m.(consumer := Abandoned, stop := true)
  }

  predicate CanRun<T>(m: Merge, steps: seq<Step<T>>)
    requires |m.late| == |m.workers|
    decreases |steps|
  {
    steps == [] || (Enabled(m, steps[0]) && CanRun(Apply(m, steps[0]), steps[1..]))
  }

  function Run<T>(m: Merge, steps: seq<Step<T>>): (r: Merge<T>)
    requires |m.late| == |m.workers| && CanRun(m, steps)
    ensures |r.late| == |r.workers|
    decreases |steps|
  {
    if steps == [] then m else Run(Apply(m, steps[0]), steps[1..])
  }

  function Start<T>(shards: nat): Merge<T> {
    Merge(seq(shards, _ => Streaming), [], false, Reading, [], [], [], seq(shards, _ => 0))
  }

  /** One shard's items among those of all. */
  function Of<T>(items: seq<Item<T>>, shard: nat): seq<Item<T>> {
    if items == [] then []
    else
      var last := |items| - 1;
      Of(items[..last], shard) + if items[last].shard == shard then [items[last]] else []
  }

  lemma {:induction false} OfAppend<T>(a: seq<Item<T>>, b: seq<Item<T>>, shard: nat)
    ensures Of(a + b, shard) == Of(a, shard) + Of(b, shard)
  {
    if b == [] {
      assert a + b == a;
    } else {
      var last := |b| - 1;
      assert (a + b)[..|a| + last] == a + b[..last];
      OfAppend(a, b[..last], shard);
    }
  }

  /** The queue is first in, first out, and the consumer passes on all it takes, up to a failure. */
  ghost predicate Fifo<T>(m: Merge<T>) {
    && m.taken + m.queue == m.enqueued
    && (match m.consumer
        case Raised(e) =>
          && m.taken != [] && m.taken[|m.taken| - 1].Failure? && m.taken[|m.taken| - 1].error == e
          && m.yielded == m.taken[..|m.taken| - 1]
        case _ => m.yielded == m.taken)
    && forall k | 0 <= k < |m.yielded| :: m.yielded[k].Event?
  }

  ghost predicate Mourned<T>(queue: seq<Item<T>>, i: nat) {
    exists k :: 0 <= k < |queue| && queue[k].Failure? && queue[k].shard == i
  }

  /** While the consumer reads, the stop flag is down and a finished worker's failure is still queued. */
  ghost predicate NoSilentDeath<T>(m: Merge<T>) {
    && |m.late| == |m.workers|
    && (m.consumer == Reading <==> !m.stop)
    && (!m.stop ==> forall i | 0 <= i < |m.workers| && m.workers[i] == Finished :: Mourned(m.queue, i))
  }

  /** Once the stop flag is up, a worker adds at most the one item it was waiting for. */
  ghost predicate WindsDown<T>(m: Merge<T>) {
    && |m.late| == |m.workers|
    && forall i | 0 <= i < |m.workers| ::
         && m.late[i] <= 1
         && (!m.stop || m.workers[i] == Streaming ==> m.late[i] == 0)
  }

  ghost predicate Inv<T>(m: Merge<T>) {
    Fifo(m) && NoSilentDeath(m) && WindsDown(m)
  }

  lemma StepKeepsFifo<T>(m: Merge<T>, s: Step<T>)
    requires |m.late| == |m.workers| && Fifo(m) && Enabled(m, s)
    ensures Fifo(Apply(m, s))
  {
    var q := Apply(m, s);
    match s {
      case Produce(i, value) => assert q.taken + q.queue == m.taken + m.queue + [Event(i, value)];
      case Fail(i, error) => assert q.taken + q.queue == m.taken + m.queue + [Failure(i, error)];
      case Get => assert q.taken + q.queue == m.taken + m.queue;
      case _ =>
    }
  }

  lemma StillMourned<T>(m: Merge<T>, s: Step<T>, i: nat)
    requires |m.late| == |m.workers| && Enabled(m, s) && Mourned(m.queue, i)
    requires !Apply(m, s).stop
    ensures Mourned(Apply(m, s).queue, i)
  {
    var q := Apply(m, s).queue;
    var k :| 0 <= k < |m.queue| && m.queue[k].Failure? && m.queue[k].shard == i;
    assert q[if s.Get? then k - 1 else k] == m.queue[k];
  }

  lemma StepKeepsVigil<T>(m: Merge<T>, s: Step<T>)
    requires NoSilentDeath(m) && Enabled(m, s)
    ensures NoSilentDeath(Apply(m, s))
  {
    var q := Apply(m, s);
    if !q.stop {
      forall i | 0 <= i < |q.workers| && q.workers[i] == Finished
        ensures Mourned(q.queue, i)
      {
        if m.workers[i] == Finished {
          StillMourned(m, s, i);
        } else {
          assert s.Fail? && s.shard == i;
          assert q.queue[|m.queue|] == Failure(i, s.error);
        }
      }
    }
  }

  lemma StepWindsDown<T>(m: Merge<T>, s: Step<T>)
    requires WindsDown(m) && Enabled(m, s)
    ensures WindsDown(Apply(m, s))
  {
  }

  lemma {:induction false} RunKeepsInv<T>(m: Merge<T>, steps: seq<Step<T>>)
    requires Inv(m) && CanRun(m, steps)
    ensures Inv(Run(m, steps))
    decreases |steps|
  {
    if steps != [] {
      StepKeepsFifo(m, steps[0]);
      StepKeepsVigil(m, steps[0]);
      StepWindsDown(m, steps[0]);
      RunKeepsInv(Apply(m, steps[0]), steps[1..]);
    }
  }

  lemma {:induction false} RunKeepsWorkers<T>(m: Merge<T>, steps: seq<Step<T>>)
    requires |m.late| == |m.workers| && CanRun(m, steps)
    ensures |Run(m, steps).workers| == |m.workers|
    decreases |steps|
  {
    if steps != [] {
      RunKeepsWorkers(Apply(m, steps[0]), steps[1..]);
    }
  }

  /**
   * In every interleaving: each shard's events reach the consumer in the order
   * its worker produced them, with none lost or repeated; an error is raised
   * only after everything queued before it has been yielded; no worker dies
   * unnoticed; and after the stop each worker adds at most one item.
   */
  lemma EveryInterleaving<T>(shards: nat, steps: seq<Step<T>>, i: nat)
    requires CanRun(Start<T>(shards), steps) && i < shards
    ensures var m := Run(Start<T>(shards), steps);
            && Of(m.taken, i) + Of(m.queue, i) == Of(m.enqueued, i)
            && (!m.consumer.Raised? ==> Of(m.yielded, i) + Of(m.queue, i) == Of(m.enqueued, i))
            && m.yielded <= m.enqueued
            && (forall k | 0 <= k < |m.yielded| :: m.yielded[k].Event?)
            && (m.consumer.Raised? ==>
                  && |m.yielded| < |m.enqueued|
                  && m.enqueued[|m.yielded|].Failure?
                  && m.enqueued[|m.yielded|].error == m.consumer.error)
            && (m.consumer == Reading && m.queue == [] ==> i < |m.workers| && m.workers[i] != Finished)
            && i < |m.late| && m.late[i] <= 1
  {
    var start := Start<T>(shards);
    RunKeepsInv(start, steps);
    RunKeepsWorkers(start, steps);
    var m := Run(start, steps);
    OfAppend(m.taken, m.queue, i);
  }

  // ---------- what can happen ----------

  lemma {:induction false} RunAppend<T>(m: Merge<T>, a: seq<Step<T>>, b: seq<Step<T>>)
    requires |m.late| == |m.workers| && CanRun(m, a) && CanRun(Run(m, a), b)
    ensures CanRun(m, a + b) && Run(m, a + b) == Run(Run(m, a), b)
    decreases |a|
  {
    if a == [] {
      assert a + b == b;
    } else {
      assert (a + b)[1..] == a[1..] + b;
      RunAppend(Apply(m, a[0]), a[1..], b);
    }
  }

  lemma OneStep<T>(m: Merge<T>, s: Step<T>, rest: seq<Step<T>>)
    requires |m.late| == |m.workers| && Enabled(m, s) && CanRun(Apply(m, s), rest)
    ensures CanRun(m, [s] + rest) && Run(m, [s] + rest) == Run(Apply(m, s), rest)
  {
    assert ([s] + rest)[1..] == rest;
  }

  function Gets<T>(k: nat): seq<Step<T>> {
    if k == 0 then [] else [Get] + Gets(k - 1)
  }

  /** A reading consumer can have every event that is queued, in order, up to a failure. */
  lemma {:induction false} QueueIsDelivered<T>(m: Merge<T>, k: nat)
    requires |m.late| == |m.workers| && m.consumer == Reading && k <= |m.queue|
    requires forall i | 0 <= i < k :: m.queue[i].Event?
    ensures CanRun(m, Gets(k))
    ensures Run(m, Gets(k))
         == m.(queue := m.queue[k..], taken := m.taken + m.queue[..k], yielded := m.yielded + m.queue[..k])
    decreases k
  {
    if k > 0 {
      var next := Apply(m, Get);
      QueueIsDelivered(next, k - 1);
      OneStep(m, Get, Gets(k - 1));
      assert next.queue[k - 1..] == m.queue[k..];
      assert m.queue[..k] == [m.queue[0]] + next.queue[..k - 1];
      Reassociate(m.taken, [m.queue[0]], next.queue[..k - 1]);
      Reassociate(m.yielded, [m.queue[0]], next.queue[..k - 1]);
    } else {
      assert m.queue[..0] == [] && m.queue[0..] == m.queue;
      EmptyIsNeutral(m.taken);
      EmptyIsNeutral(m.yielded);
    }
  }

  /** A failure that is queued is raised once what was queued before it has been passed on, and stops the workers. */
  lemma FailureIsRaised<T>(m: Merge<T>, k: nat)
    requires |m.late| == |m.workers| && m.consumer == Reading && k < |m.queue|
    requires m.queue[k].Failure? && forall i | 0 <= i < k :: m.queue[i].Event?
    ensures CanRun(m, Gets(k) + [Get])
    ensures var q := Run(m, Gets(k) + [Get]);
            q.consumer == Raised(m.queue[k].error) && q.stop && q.yielded == m.yielded + m.queue[..k]
  {
    QueueIsDelivered(m, k);
    var before := Run(m, Gets(k));
    OneStep(before, Get, []);
    EmptyIsNeutral<Step<T>>([Get]);
    RunAppend(m, Gets(k), [Get]);
  }

  /** Each event produced and passed on at once. */
  function OneByOne<T>(items: seq<Item<T>>): seq<Step<T>>
    requires forall item <- items :: item.Event?
  {
    if items == [] then []
    else [Produce(items[0].shard, items[0].value)] + ([CheckStop(items[0].shard)] + ([Get] + OneByOne(items[1..])))
  }

  lemma {:induction false} GoesOneByOne<T>(m: Merge<T>, items: seq<Item<T>>)
    requires |m.late| == |m.workers| && m.consumer == Reading && !m.stop && m.queue == []
    requires forall i | 0 <= i < |m.workers| :: m.workers[i] == Streaming
    requires forall item <- items :: item.Event? && item.shard < |m.workers|
    ensures CanRun(m, OneByOne(items))
    ensures Run(m, OneByOne(items))
         == m.(taken := m.taken + items, yielded := m.yielded + items, enqueued := m.enqueued + items)
    decreases |items|
  {
    if items == [] {
      EmptyIsNeutral(m.taken);
      EmptyIsNeutral(m.yielded);
      EmptyIsNeutral(m.enqueued);
    } else {
      var i, item := items[0].shard, items[0];
      var a := Apply(m, Produce(i, item.value));
      var b := Apply(a, CheckStop(i));
      var c := Apply(b, Get);
      assert b.workers == m.workers;
      assert c == m.(taken := m.taken + [item], yielded := m.yielded + [item], enqueued := m.enqueued + [item]);
      GoesOneByOne(c, items[1..]);
      OneStep(b, Get, OneByOne(items[1..]));
      OneStep(a, CheckStop(i), [Get] + OneByOne(items[1..]));
      OneStep(m, Produce(i, item.value), [CheckStop(i)] + ([Get] + OneByOne(items[1..])));
      assert items == [item] + items[1..];
      Reassociate(m.taken, [item], items[1..]);
      Reassociate(m.yielded, [item], items[1..]);
      Reassociate(m.enqueued, [item], items[1..]);
    }
  }

  /** All these events produced before the consumer takes any. */
  function Ahead<T>(items: seq<Item<T>>): seq<Step<T>>
    requires forall item <- items :: item.Event?
  {
    if items == [] then []
    else [Produce(items[0].shard, items[0].value)] + ([CheckStop(items[0].shard)] + Ahead(items[1..]))
  }

  /** Workers never wait for the consumer: the queue takes whatever they produce. */
  lemma {:induction false} WorkersRunAhead<T>(m: Merge<T>, items: seq<Item<T>>)
    requires |m.late| == |m.workers| && !m.stop
    requires forall i | 0 <= i < |m.workers| :: m.workers[i] == Streaming
    requires forall item <- items :: item.Event? && item.shard < |m.workers|
    ensures CanRun(m, Ahead(items))
    ensures Run(m, Ahead(items)) == m.(queue := m.queue + items, enqueued := m.enqueued + items)
    decreases |items|
  {
    if items == [] {
      EmptyIsNeutral(m.queue);
      EmptyIsNeutral(m.enqueued);
    } else {
      var i, item := items[0].shard, items[0];
      var a := Apply(m, Produce(i, item.value));
      var b := Apply(a, CheckStop(i));
      assert b.workers == m.workers;
      assert b == m.(queue := m.queue + [item], enqueued := m.enqueued + [item]);
      WorkersRunAhead(b, items[1..]);
      OneStep(a, CheckStop(i), Ahead(items[1..]));
      OneStep(m, Produce(i, item.value), [CheckStop(i)] + Ahead(items[1..]));
      assert items == [item] + items[1..];
      Reassociate(m.queue, [item], items[1..]);
      Reassociate(m.enqueued, [item], items[1..]);
    }
  }

  /** No order among the shards is excluded: the consumer can see any events of theirs, and then any failure. */
  lemma EveryMergeCanHappen<T>(shards: nat, items: seq<Item<T>>, i: nat, error: Error)
    requires i < shards && forall item <- items :: item.Event? && item.shard < shards
    ensures var steps := OneByOne(items) + ([Fail(i, error)] + [Get]);
            && CanRun(Start<T>(shards), steps)
            && Run(Start<T>(shards), steps).yielded == items
            && Run(Start<T>(shards), steps).consumer == Raised(error)
  {
    var start := Start<T>(shards);
    GoesOneByOne(start, items);
    var m := Run(start, OneByOne(items));
    EmptyIsNeutral(items);
    OneStep(Apply(m, Fail(i, error)), Get, []);
    EmptyIsNeutral<Step<T>>([Get]);
    OneStep(m, Fail(i, error), [Get]);
    RunAppend(start, OneByOne(items), [Fail(i, error)] + [Get]);
  }

  /** What each of these workers, counted from this one, does when told to stop. */
  function Finishing<T>(phases: seq<Phase>, from: nat): seq<Step<T>>
    decreases |phases|
  {
    if phases == [] then []
    else
      match phases[0]
      case Finished => Finishing(phases[1..], from + 1)
      case Streaming => [End(from)] + Finishing(phases[1..], from + 1)
      case Checking => [CheckStop(from)] + Finishing(phases[1..], from + 1)
  }

  /** Once the stop flag is up, every worker can finish in one step of its own, whatever the others do. */
  lemma {:induction false} StoppedWorkersFinish<T>(m: Merge<T>, k: nat)
    requires |m.late| == |m.workers| && m.stop && k <= |m.workers|
    requires forall i | 0 <= i < k :: m.workers[i] == Finished
    ensures CanRun(m, Finishing<T>(m.workers[k..], k))
    ensures Run(m, Finishing<T>(m.workers[k..], k)) == m.(workers := seq(|m.workers|, _ => Finished))
    decreases |m.workers| - k
  {
    if k < |m.workers| {
      assert m.workers[k..][1..] == m.workers[k + 1..];
      if m.workers[k] == Finished {
        StoppedWorkersFinish(m, k + 1);
      } else {
        var s: Step<T> := if m.workers[k] == Streaming then End(k) else CheckStop(k);
        var next := Apply(m, s);
        assert next.workers[k + 1..] == m.workers[k + 1..];
        StoppedWorkersFinish(next, k + 1);
        OneStep(m, s, Finishing<T>(m.workers[k + 1..], k + 1));
      }
    } else {
      assert m.workers == seq(|m.workers|, _ => Finished);
    }
  }
}
