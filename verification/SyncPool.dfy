/** The pool object of the threaded client, each method tied to the steps it takes. */
module SyncPool {
  import opened Core
  import opened Pools

  lemma RunCons(p: Pool, s: Step, rest: seq<Step>)
    requires Enabled(p, s) && CanRun(Apply(p, s), rest)
    ensures CanRun(p, [s] + rest) && Run(p, [s] + rest) == Run(Apply(p, s), rest)
  {
    assert ([s] + rest)[1..] == rest;
  }

  lemma RunTwo(p: Pool, s: Step, t: Step)
    requires Enabled(p, s) && Enabled(Apply(p, s), t)
    ensures CanRun(p, [s, t]) && Run(p, [s, t]) == Apply(Apply(p, s), t)
  {
    var q := Apply(Apply(p, s), t);
    assert CanRun(q, []);
    RunCons(Apply(p, s), t, []);
    RunCons(p, s, [t]);
    assert [t] + [] == [t] && [s] + [t] == [s, t];
  }

  lemma RunFour(p: Pool, s: Step, t: Step, u: Step, v: Step)
    requires Enabled(p, s) && Enabled(Apply(p, s), t)
    requires Enabled(Apply(Apply(p, s), t), u) && Enabled(Apply(Apply(Apply(p, s), t), u), v)
    ensures CanRun(p, [s, t, u, v])
    ensures Run(p, [s, t, u, v]) == Apply(Apply(Apply(Apply(p, s), t), u), v)
  {
    RunTwo(p, s, t);
    RunTwo(Apply(Apply(p, s), t), u, v);
    RunAppend(p, [s, t], [u, v]);
    assert [s, t] + [u, v] == [s, t, u, v];
  }

  /** A pool of one slot can get there: a release has looked at the flag when `close` begins. */
  lemma ThreadsCanStrand()
    ensures var steps := [Enter(0), Take(0), OpenOk(0), Pools.Release(0)];
            && CanRun(Fresh(1), steps)
            && var p := Run(Fresh(1), steps);
               !p.closed && ReturnPending(p) && CanStrand(Apply(p, CloseStart))
  {
    var p := Fresh(1);
    var held := Apply(Apply(Apply(p, Enter(0)), Take(0)), OpenOk(0));
    assert held.hands[0] == Using(0) && 0 in held.alive;
    RunFour(p, Enter(0), Take(0), OpenOk(0), Pools.Release(0));
    var q := Apply(held, Pools.Release(0));
    assert 0 in q.hands && q.hands[0] == Returning(Live(0));
    StartsWell(1);
    RunKeepsInv(p, [Enter(0), Take(0), OpenOk(0), Pools.Release(0)]);
    CloseStrandsIff(q);
  }

  /** A connection just put back is the next one handed out. */
  lemma HotConnectionGoesFirst(p: Pool, t: nat, u: nat)
    requires !p.closed && IsUsing(p, t) && p.hands[t].id in p.alive
    requires u !in p.waiting && (u !in p.hands || u == t)
    ensures CanRun(p, [Release(t), Put(t), Enter(u), Take(u)])
    ensures Run(p, [Release(t), Put(t), Enter(u), Take(u)]).hands
         == (p.hands - {t})[u := p.hands[t]]
    ensures Run(p, [Release(t), Put(t), Enter(u), Take(u)]).slots == p.slots
  {
    var a := Apply(p, Release(t));
    var b := Apply(a, Put(t));
    var c := Apply(b, Enter(u));
    assert a.hands - {t} == p.hands - {t};
    RunFour(p, Release(t), Put(t), Enter(u), Take(u));
  }

  /** A connection that was lost in use is replaced by room for a new one. */
  lemma LostConnectionLeavesRoom(p: Pool, t: nat)
    requires !p.closed && IsUsing(p, t)
    ensures CanRun(p, [Lose(t), Release(t), Put(t)])
    ensures Run(p, [Lose(t), Release(t), Put(t)])
         == p.(slots := p.slots + [Vacant], hands := p.hands - {t}, alive := p.alive - {p.hands[t].id})
  {
    var a := Apply(p, Lose(t));
    var b := Apply(a, Release(t));
    assert b.hands - {t} == p.hands - {t};
    RunTwo(a, Release(t), Put(t));
    RunCons(p, Lose(t), [Release(t), Put(t)]);
    assert [Lose(t)] + [Release(t), Put(t)] == [Lose(t), Release(t), Put(t)];
  }

  /** One that was lost and reopened in use goes back as it was. */
  lemma ReopenedConnectionGoesBack(p: Pool, t: nat)
    requires !p.closed && IsUsing(p, t) && p.hands[t].id in p.alive
    ensures CanRun(p, [Lose(t), Reopen(t), Release(t), Put(t)])
    ensures Run(p, [Lose(t), Reopen(t), Release(t), Put(t)])
         == p.(slots := p.slots + [Live(p.hands[t].id)], hands := p.hands - {t})
  {
    var a := Apply(p, Lose(t));
    var b := Apply(a, Reopen(t));
    var c := Apply(b, Release(t));
    assert b.alive == p.alive;
    assert c.hands - {t} == p.hands - {t};
    RunFour(p, Lose(t), Reopen(t), Release(t), Put(t));
  }

  /** What a task that has a slot can do on its own to put it back. */
  function GivingUp(p: Pool, t: nat): seq<Step>
    requires t in p.hands
  {
    match p.hands[t]
    case Opening => [OpenFail(t), PutVacant(t)]
    case GivingBack => [PutVacant(t)]
    case Using(_) => [Release(t), Put(t)]
    case Returning(_) => [Put(t)]
    case Discarding(_) => [Discard(t)]
  }

  lemma GivingUpRuns(p: Pool, t: nat)
    requires !p.closed && t in p.hands && !p.hands[t].Discarding?
    ensures CanRun(p, GivingUp(p, t))
    ensures var q := Run(p, GivingUp(p, t));
            |q.slots| == |p.slots| + 1 && q.waiting == p.waiting && q.hands == p.hands - {t}
  {
    match p.hands[t] {
      case Opening =>
        RunTwo(p, OpenFail(t), PutVacant(t));
        assert Apply(p, OpenFail(t)).hands - {t} == p.hands - {t};
      case Using(_) =>
        RunTwo(p, Release(t), Put(t));
        assert Apply(p, Release(t)).hands - {t} == p.hands - {t};
      case GivingBack => assert CanRun(Apply(p, PutVacant(t)), []) && [PutVacant(t)][1..] == [];
      case Returning(_) => assert CanRun(Apply(p, Put(t)), []) && [Put(t)][1..] == [];
    }
  }

  lemma {:induction false} RunKeepsSize(p: Pool, steps: seq<Step>)
    requires CanRun(p, steps)
    ensures Run(p, steps).size == p.size
    decreases |steps|
  {
    if steps != [] {
      RunKeepsSize(Apply(p, steps[0]), steps[1..]);
    }
  }

  /**
   * Nobody waits for ever on an open pool: in every state that it can reach, a
   * waiting task can take a slot at once, or as soon as any one of the tasks that
   * have one puts it back, which each of them can do on its own.
   */
  lemma NobodyStarves(size: nat, p: Pool, steps: seq<Step>, t: nat)
    requires size >= 1 && (p == Fresh(size) || p == Prefilled(size)) && CanRun(p, steps)
    requires !Run(p, steps).closed && t in Run(p, steps).waiting
    ensures var q := Run(p, steps);
            if q.slots != [] then Enabled(q, Take(t))
            else
              && q.hands != map[]
              && forall u <- q.hands ::
                   CanRun(q, GivingUp(q, u)) && Enabled(Run(q, GivingUp(q, u)), Take(t))
  {
    StartsWell(size);
    RunKeepsInv(p, steps);
    RunKeepsSize(p, steps);
    var q := Run(p, steps);
    if q.slots == [] {
      forall u <- q.hands
        ensures CanRun(q, GivingUp(q, u)) && Enabled(Run(q, GivingUp(q, u)), Take(t))
      {
        GivingUpRuns(q, u);
      }
    }
  }

  /** One turn of the draining loop: the rest of the drain starts from what is left. */
  lemma DrainOnce(p: Pool, q: Pool)
    requires p.closed && !p.drained && p.closing == {} && p.slots != []
    requires q == Pop(p).(alive := if Top(p).Live? then p.alive - {Top(p).id} else p.alive)
    ensures CanRun(p, DrainSteps(p.slots)) && CanRun(q, DrainSteps(q.slots))
    ensures Run(p, DrainSteps(p.slots)) == Run(q, DrainSteps(q.slots))
  {
    DrainRuns(q);
    var top := Top(p);
    if top.Live? {
      assert {top.id} - {top.id} == {};
      RunTwo(p, Drain, DrainClose(top.id));
      assert Apply(Apply(p, Drain), DrainClose(top.id)) == q;
      RunAppend(p, [Drain, DrainClose(top.id)], DrainSteps(q.slots));
    } else {
      RunCons(p, Drain, DrainSteps(q.slots));
    }
  }

  /** The three ways through an acquire, as steps and as their outcome. */
  lemma AcquireRuns(p: Pool, t: nat)
    requires !p.closed && p.slots != [] && t !in p.waiting && t !in p.hands
    ensures Top(p).Live? ==>
      var steps := [Enter(t), Take(t)];
      CanRun(p, steps) && Run(p, steps) == Pop(p).(hands := p.hands[t := Using(Top(p).id)])
    ensures Top(p).Vacant? ==>
      var steps := [Enter(t), Take(t), OpenOk(t)];
      CanRun(p, steps) && Run(p, steps) == Pop(p).(hands := p.hands[t := Using(p.nextId)],
                                                   alive := p.alive + {p.nextId}, nextId := p.nextId + 1)
    ensures Top(p).Vacant? ==>
      var steps := [Enter(t), Take(t), OpenFail(t), PutVacant(t)];
      CanRun(p, steps) && Run(p, steps) == Pop(p).(slots := Pop(p).slots + [Vacant])
  {
    var q := Apply(Apply(p, Enter(t)), Take(t));
    RunTwo(p, Enter(t), Take(t));
    assert p.waiting + {t} - {t} == p.waiting;
    if Top(p).Vacant? {
      RunCons(q, OpenOk(t), []);
      RunAppend(p, [Enter(t), Take(t)], [OpenOk(t)]);
      assert [Enter(t), Take(t)] + [OpenOk(t)] == [Enter(t), Take(t), OpenOk(t)];
      assert q.hands[t := GivingBack] - {t} == p.hands;
      assert q.hands[t := Using(p.nextId)] == p.hands[t := Using(p.nextId)];
      RunFour(p, Enter(t), Take(t), OpenFail(t), PutVacant(t));
    }
  }

  /** None of the next so many calls of the factory fails. */
  predicate AllOpen(failures: seq<bool>, calls: nat) {
    forall i | 0 <= i < calls && i < |failures| :: !failures[i]
  }

  /** The outcomes left after so many calls. */
  function OutcomesLeft(failures: seq<bool>, calls: nat): seq<bool> {
    if calls <= |failures| then failures[calls..] else []
  }

  lemma OneMoreCall(failures: seq<bool>, calls: nat)
    ensures AllOpen(failures, calls + 1) <==> AllOpen(failures, calls) && AllOpen(OutcomesLeft(failures, calls), 1)
    ensures var rest := OutcomesLeft(failures, calls);
            OutcomesLeft(failures, calls + 1) == if rest == [] then [] else rest[1..]
  {
  }

  class ConnectionPool {
    const size: nat
    var slots: seq<Slot>
    var closed: bool

    // the connections themselves and the outcomes of the factory
    var open: set<nat>
    var created: nat
    var failures: seq<bool>

    // who holds what
    ghost var waiting: set<nat>
    ghost var hands: map<nat, Hand>
    ghost var drained: bool

    ghost function View(): Pool
      reads this
    {
      Pool(size, slots, closed, waiting, hands, {}, drained, open, created)
    }

    constructor (size: nat, failures: seq<bool>)
      requires size >= 1
      ensures View() == Fresh(size) && this.failures == failures
    {
      this.size := size;
      slots, closed, open, created := seq(size, _ => Vacant), false, {}, 0;
      this.failures := failures;
      waiting, hands, drained := {}, map[], false;
    }

    method Factory() returns (r: Result<nat>)
      modifies `open, `created, `failures
      ensures r.Err? <==> !AllOpen(old(failures), 1)
      ensures failures == if old(failures) == [] then [] else old(failures)[1..]
      ensures r.Ok? ==> r.value == old(created) && created == old(created) + 1 && open == old(open) + {r.value}
      ensures r.Err? ==> r.error == ConnectionLost && created == old(created) && open == old(open)
    {
      if failures != [] {
        var fails := failures[0];
        failures := failures[1..];
        if fails {
          return Err(ConnectionLost);
        }
      }
      created := created + 1;
      open := open + {created - 1};
      return Ok(created - 1);
    }

    /** The opening loop of a prefill: connections made so far, and what stopped it. */
    method OpenAll() returns (made: seq<nat>, failure: Option<Error>)
      modifies `slots, `open, `created, `failures
      ensures |made| <= size && (failure.None? ==> |made| == size)
      ensures |slots| <= |old(slots)| && slots == old(slots)[..|slots|]
      ensures |slots| + |made| == |old(slots)| - if failure == Some(ConnectionLost) then 1 else 0
      ensures failure.Some? ==>
        failure.value == ConnectionLost || (failure.value == QueueEmpty && slots == [] && |made| < size)
      ensures AllOpen(old(failures), |made|)
      ensures failure == Some(ConnectionLost) ==> !AllOpen(old(failures), |made| + 1)
      ensures created == old(created) + |made|
      ensures forall i | 0 <= i < |made| :: made[i] == old(created) + i
      ensures forall id: nat :: id in made <==> old(created) <= id < created
      ensures forall id: nat :: id in open <==> id in old(open) || id in made
    {
      made, failure := [], None;
      while |made| < size && failure.None?
        invariant |made| <= size && |slots| <= |old(slots)|
        invariant slots == old(slots)[..|slots|]
        invariant |slots| + |made| == |old(slots)| - if failure == Some(ConnectionLost) then 1 else 0
        invariant failure.Some? ==>
          failure.value == ConnectionLost || (failure.value == QueueEmpty && slots == [] && |made| < size)
        invariant AllOpen(old(failures), |made|)
        invariant failure != Some(ConnectionLost) ==> failures == OutcomesLeft(old(failures), |made|)
        invariant failure == Some(ConnectionLost) ==> !AllOpen(old(failures), |made| + 1)
        invariant created == old(created) + |made|
        invariant forall i | 0 <= i < |made| :: made[i] == old(created) + i
        invariant forall id: nat :: id in made <==> old(created) <= id < created
        invariant forall id: nat :: id in open <==> id in old(open) || id in made
        decreases size - |made|, failure.None?
      {
        if slots == [] {
          failure := Some(QueueEmpty);
        } else {
          slots := slots[..|slots| - 1];
          OneMoreCall(old(failures), |made|);
          var connection := Factory();
          if connection.Err? {
            failure := Some(connection.error);
          } else {
            made := made + [connection.value];
          }
        }
      }
    }

    /** Close what has been opened and put a vacant slot back for each connection of it. */
    method GiveUp(made: seq<nat>)
      modifies `slots, `open
      ensures forall id: nat :: id in open <==> id in old(open) && id !in made
      ensures |slots| == |old(slots)| + |made|
      ensures forall i | 0 <= i < |slots| :: slots[i] == if i < |old(slots)| then old(slots)[i] else Vacant
    {
      for k := 0 to |made|
        invariant slots == old(slots)
        invariant forall id: nat :: id in open <==> id in old(open) && id !in made[..k]
      {
        assert made[..k + 1] == made[..k] + [made[k]];
        open := open - {made[k]};
      }
      assert made[..|made|] == made;
      for k := 0 to |made|
        modifies `slots
        invariant |slots| == |old(slots)| + k
        invariant forall i | 0 <= i < |slots| :: slots[i] == if i < |old(slots)| then old(slots)[i] else Vacant
      {
        slots := slots + [Vacant];
      }
    }

    /**
     * Open every connection upfront. When the factory raises, the slot that was
     * taken for that connection is not put back: the queue ends up one short.
     */
    method Prefill() returns (r: Result<()>)
      requires forall id <- open :: id < created
      modifies `slots, `open, `created, `failures
      ensures old(View()) == Fresh(size) && r.Ok? ==> View() == Prefilled(size)
      ensures r.Err? ==> open == old(open) && r.error in {ConnectionLost, QueueEmpty}
      // the first call of the factory that fails ends it
      ensures old(created) <= created && AllOpen(old(failures), created - old(created))
      ensures r == Err(ConnectionLost) ==> !AllOpen(old(failures), created - old(created) + 1)
      ensures r.Err? ==> |slots| <= |old(slots)|
      ensures r.Err? ==> forall i | 0 <= i < |slots| :: slots[i] == Vacant || slots[i] == old(slots)[i]
      ensures |slots| == |old(slots)| <==> r.Ok? || r.error == QueueEmpty
      ensures r.Err? && r.error != QueueEmpty ==> |slots| + 1 == |old(slots)|
      ensures old(View()) == Fresh(size) ==>
        && (r.Ok? <==> AllOpen(old(failures), size))
        && (Conserved(View()) <==> AllOpen(old(failures), size))
    {
      var made, failure := OpenAll();
      if failure.Some? {
        GiveUp(made);
        return Err(failure.value);
      }
      slots := slots + seq(|made|, i requires 0 <= i < |made| => Live(made[i]));
      return Ok(());
    }

    /** The entry of the `with` block: check the flag, take a slot, open a connection if it is vacant. */
    method Acquire(ghost task: nat) returns (r: Result<nat>)
      requires task !in waiting && task !in hands
      modifies `slots, `open, `created, `failures, `waiting, `hands
      ensures closed ==> r == Err(PoolClosed)
      ensures !closed && old(slots) == [] ==> r == Err(Timeout)
      ensures closed || old(slots) == [] ==> View() == old(View()) && failures == old(failures)
      ensures !closed && old(slots) == [] ==>
        var steps := [Enter(task), Pools.GiveUp(task)];
        CanRun(old(View()), steps) && View() == Run(old(View()), steps)
      ensures r.Ok? ==> Has(View(), task, Using(r.value))
      ensures !closed && old(slots) != [] && Top(old(View())).Live? ==>
        r == Ok(Top(old(View())).id) && failures == old(failures)
      ensures !closed && old(slots) != [] && Top(old(View())).Vacant? ==>
        && (if AllOpen(old(failures), 1) then r == Ok(old(created)) else r == Err(ConnectionLost))
        && failures == OutcomesLeft(old(failures), 1)
      ensures !closed && old(slots) != [] ==>
        var steps := if Top(old(View())).Live? then [Enter(task), Take(task)]
                     else if r.Ok? then [Enter(task), Take(task), OpenOk(task)]
                     else [Enter(task), Take(task), OpenFail(task), PutVacant(task)];
        CanRun(old(View()), steps) && View() == Run(old(View()), steps)
    {
      if closed {
        return Err(PoolClosed);
      }
      if slots == [] {
        RunTwo(View(), Enter(task), Pools.GiveUp(task));
        assert waiting + {task} - {task} == waiting;
        return Err(Timeout);
      }
      AcquireRuns(View(), task);
      var slot := slots[|slots| - 1];
      slots := slots[..|slots| - 1];
      if slot.Live? {
        hands := hands[task := Using(slot.id)];
        return Ok(slot.id);
      }
      r := Factory();
      if r.Err? {
        slots := slots + [Vacant];
        return;
      }
      hands := hands[task := Using(r.value)];
    }

    /** The exit of the `with` block. */
    method Release(ghost task: nat, connection: nat)
      requires Has(View(), task, Using(connection))
      modifies `slots, `open, `hands
      ensures var steps := [Pools.Release(task), if closed then Discard(task) else Put(task)];
              CanRun(old(View()), steps) && View() == Run(old(View()), steps)
    {
      ghost var p := View();
      RunTwo(p, Pools.Release(task), if closed then Discard(task) else Put(task));
      assert Apply(p, Pools.Release(task)).hands - {task} == hands - {task};
      if closed {
        open := open - {connection};
        hands := hands - {task};
        return;
      }
      slots := slots + [if connection in open then Live(connection) else Vacant];
      hands := hands - {task};
    }

    /** Set the flag, then take out and close everything queued. */
    method Close()
      requires drained ==> closed
      modifies `slots, `closed, `open, `drained
      ensures old(closed) ==> View() == old(View())
      ensures !old(closed) ==>
        var steps := [CloseStart] + DrainSteps(old(slots));
        CanRun(old(View()), steps) && View() == Run(old(View()), steps)
    {
      if closed {
        return;
      }
      closed := true;
      ghost var p := View();
      DrainRuns(p);
      RunCons(old(View()), CloseStart, DrainSteps(slots));
      while slots != []
        invariant closed && !drained && waiting == old(waiting) && hands == old(hands)
        invariant CanRun(View(), DrainSteps(slots)) && Run(View(), DrainSteps(slots)) == Run(p, DrainSteps(p.slots))
        decreases |slots|
      {
        ghost var before := View();
        var slot := slots[|slots| - 1];
        slots := slots[..|slots| - 1];
        if slot.Live? {
          open := open - {slot.id};
        }
        DrainOnce(before, View());
      }
      RunCons(View(), DrainDone, []);
      assert [DrainDone] + [] == [DrainDone];
      drained := true;
    }
  }
}
