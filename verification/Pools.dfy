/**
 * The connection pool as its callers share it: every atomic action of every
 * task is a step, and a list of steps is one interleaving.
 */
module Pools {
  import opened Core

  /** What the pool queues: room for a connection, or an idle connection. */
  datatype Slot = Vacant | Live(id: nat)

  /** What a task that took a slot is doing with it. */
  datatype Hand =
    | Opening                // the slot was vacant, the factory is running
    | GivingBack             // the factory failed
    | Using(id: nat)
    | Returning(slot: Slot)  // the release found the pool open
    | Discarding(id: nat)    // the release found the pool closed

  datatype Pool = Pool(
    size: nat,
    slots: seq<Slot>,        // LIFO: the last one goes out first
    closed: bool,
    waiting: set<nat>,       // tasks that passed the closed check and want a slot
    hands: map<nat, Hand>,
    closing: set<nat>,       // connections `close` has taken out and not closed yet
    drained: bool,           // `close` has returned
    alive: set<nat>,         // connections with an open socket
    nextId: nat)

  datatype Step =
    | Enter(task: nat)
    | GiveUp(task: nat)
    | Take(task: nat)
    | OpenOk(task: nat)
    | OpenFail(task: nat)
    | PutVacant(task: nat)
    | Lose(task: nat)
    | Reopen(task: nat)
    | Release(task: nat)
    | Put(task: nat)
    | Discard(task: nat)
    | CloseStart
    | Drain
    | DrainClose(id: nat)
    | DrainDone

  predicate Has(p: Pool, t: nat, h: Hand) {
    t in p.hands && p.hands[t] == h
  }

  predicate IsUsing(p: Pool, t: nat) {
    t in p.hands && p.hands[t].Using?
  }

  predicate Enabled(p: Pool, s: Step) {
    match s
    case Enter(t) => !p.closed && t !in p.waiting && t !in p.hands
    case GiveUp(t) => t in p.waiting
    case Take(t) => t in p.waiting && p.slots != []
    case OpenOk(t) => Has(p, t, Opening)
    case OpenFail(t) => Has(p, t, Opening)
    case PutVacant(t) => Has(p, t, GivingBack)
    case Lose(t) => IsUsing(p, t)
    case Reopen(t) => IsUsing(p, t)
    case Release(t) => IsUsing(p, t)
    case Put(t) => t in p.hands && p.hands[t].Returning?
    case Discard(t) => t in p.hands && p.hands[t].Discarding?
    case CloseStart => !p.closed
    case Drain => p.closed && !p.drained && p.slots != []
    case DrainClose(id) => id in p.closing
    case DrainDone => p.closed && p.slots == [] && p.closing == {}
  }

  function Pop(p: Pool): Pool
    requires p.slots != []
  {
    p.(slots := p.slots[..|p.slots| - 1])
  }

  function Top(p: Pool): Slot
    requires p.slots != []
  {
    p.slots[|p.slots| - 1]
  }

  function Push(p: Pool, t: nat, slot: Slot): Pool {
    p.(slots := p.slots + [slot], hands := p.hands - {t})
  }

  function Apply(p: Pool, s: Step): Pool
    requires Enabled(p, s)
  {
    match s
    case Enter(t) => p.(waiting := p.waiting + {t})
    case GiveUp(t) => p.(waiting := p.waiting - {t})
    case Take(t) =>
      var hand := if Top(p).Vacant? then Opening else Using(Top(p).id);
      Pop(p).(waiting := p.waiting - {t}, hands := p.hands[t := hand])
    case OpenOk(t) =>
      p.(hands := p.hands[t := Using(p.nextId)], alive := p.alive + {p.nextId}, nextId := p.nextId + 1)
    case OpenFail(t) => p.(hands := p.hands[t := GivingBack])
    case PutVacant(t) => Push(p, t, Vacant)
    case Lose(t) => p.(alive := p.alive - {p.hands[t].id})
    case Reopen(t) => p.(alive := p.alive + {p.hands[t].id})
    case Release(t) =>
      var id := p.hands[t].id;
      var hand := if p.closed then Discarding(id) else Returning(if id in p.alive then Live(id) else Vacant);
      p.(hands := p.hands[t := hand])
    case Put(t) => Push(p, t, p.hands[t].slot)
    case Discard(t) => p.(hands := p.hands - {t}, alive := p.alive - {p.hands[t].id})
    case CloseStart => p.(closed := true)
    case Drain =>
      if Top(p).Vacant? then Pop(p) else Pop(p).(closing := p.closing + {Top(p).id})
    case DrainClose(id) => p.(closing := p.closing - {id}, alive := p.alive - {id})
    case DrainDone => p.(drained := true)
  }

  predicate CanRun(p: Pool, steps: seq<Step>)
    decreases |steps|
  {
    steps == [] || (Enabled(p, steps[0]) && CanRun(Apply(p, steps[0]), steps[1..]))
  }

  function Run(p: Pool, steps: seq<Step>): Pool
    requires CanRun(p, steps)
    decreases |steps|
  {
    if steps == [] then p else Run(Apply(p, steps[0]), steps[1..])
  }

  /** Where a connection can be. */
  datatype Place = InSlot(i: nat) | InHand(task: nat) | InClose

  function Held(h: Hand): Option<nat> {
    match h
    case Using(id) => Some(id)
    case Discarding(id) => Some(id)
    case Returning(Live(id)) => Some(id)
    case _ => None
  }

  predicate At(p: Pool, place: Place, id: nat) {
    match place
    case InSlot(i) => i < |p.slots| && p.slots[i] == Live(id)
    case InHand(t) => t in p.hands && Held(p.hands[t]) == Some(id)
    case InClose => id in p.closing
  }

  /** Slots queued, in tasks' hands and in `close`'s hands. */
  function Accounted(p: Pool): nat {
    |p.slots| + |p.hands| + |p.closing|
  }

  ghost predicate Conserved(p: Pool) {
    && Accounted(p) <= p.size
    && (!p.closed ==> Accounted(p) == p.size)
  }

  /** A waiting task holds nothing; nothing is thrown away before the pool is closed. */
  ghost predicate Orderly(p: Pool) {
    && p.waiting !! p.hands.Keys
    && (!p.closed ==> p.closing == {} && !p.drained && forall t <- p.hands :: !p.hands[t].Discarding?)
  }

  /** No connection is in two places, and every open one is somewhere. */
  ghost predicate Exclusive(p: Pool) {
    && (forall a, b, id: nat :: At(p, a, id) && At(p, b, id) ==> a == b)
    && (forall a, id: nat :: At(p, a, id) ==> id < p.nextId)
    && (forall id <- p.alive :: exists a :: At(p, a, id))
    && (forall i | 0 <= i < |p.slots| && p.slots[i].Live? :: p.slots[i].id in p.alive)
    && (forall t <- p.hands :: p.hands[t].Returning? && p.hands[t].slot.Live? ==> p.hands[t].slot.id in p.alive)
  }

  lemma WithoutKey(hands: map<nat, Hand>, t: nat)
    requires t in hands
    ensures |hands - {t}| == |hands| - 1
  {
    assert (hands - {t}).Keys == hands.Keys - {t};
    assert |hands.Keys - {t}| == |hands.Keys| - 1;
  }

  lemma WithKey(hands: map<nat, Hand>, t: nat, h: Hand)
    ensures |hands[t := h]| == |hands| + if t in hands then 0 else 1
  {
    assert hands[t := h].Keys == hands.Keys + {t};
    if t in hands {
      assert hands.Keys + {t} == hands.Keys;
    }
  }

  lemma StepKeepsOrder(p: Pool, s: Step)
    requires Orderly(p) && Enabled(p, s)
    ensures Orderly(Apply(p, s))
  {
  }

  /** How a step moves a slot between the queue, the hands and `close`. */
  lemma HandsChange(p: Pool, s: Step)
    requires Orderly(p) && Enabled(p, s)
    ensures var before, after := |p.hands|, |Apply(p, s).hands|;
            after == if s.Take? then before + 1 else if s.PutVacant? || s.Put? || s.Discard? then before - 1 else before
  {
    if s.Take? || s.OpenOk? || s.OpenFail? || s.Release? {
      WithKey(p.hands, s.task, Apply(p, s).hands[s.task]);
    } else if s.PutVacant? || s.Put? || s.Discard? {
      WithoutKey(p.hands, s.task);
    }
  }

  /** Slots are never lost or invented while the pool is open, nor invented later. */
  lemma StepConserves(p: Pool, s: Step)
    requires Conserved(p) && Orderly(p) && Enabled(p, s)
    ensures Conserved(Apply(p, s))
  {
    HandsChange(p, s);
    if s.Drain? && Top(p).Live? {
      assert |p.closing + {Top(p).id}| <= |p.closing| + 1;
    } else if s.DrainClose? {
      assert |p.closing - {s.id}| <= |p.closing|;
    }
  }

  /** Where a connection was before a step, given where it is afterwards. */
  function Before(p: Pool, s: Step, place: Place, id: nat): Place
    requires Enabled(p, s)
  {
    match s
    case Take(t) => if place == InHand(t) then InSlot(|p.slots| - 1) else place
    case Put(t) => if place == InSlot(|p.slots|) then InHand(t) else place
    case Drain => if place == InClose && Top(p) == Live(id) then InSlot(|p.slots| - 1) else place
    case _ => place
  }

  /** Only the factory makes connections appear anywhere. */
  lemma WasThere(p: Pool, s: Step, place: Place, id: nat)
    requires Enabled(p, s) && At(Apply(p, s), place, id)
    requires !(s.OpenOk? && place == InHand(s.task))
    ensures At(p, Before(p, s, place, id), id)
  {
  }

  lemma StaysUnique(p: Pool, s: Step, a: Place, b: Place, id: nat)
    requires Exclusive(p) && Enabled(p, s)
    requires At(Apply(p, s), a, id) && At(Apply(p, s), b, id)
    ensures a == b && id < Apply(p, s).nextId
  {
    if !(s.OpenOk? && a == InHand(s.task)) {
      WasThere(p, s, a, id);
    }
    if !(s.OpenOk? && b == InHand(s.task)) {
      WasThere(p, s, b, id);
    }
  }

  /** Where an open connection goes in a step. */
  function After(p: Pool, s: Step, place: Place): Place
    requires Enabled(p, s)
  {
    match s
    case Take(t) => if place == InSlot(|p.slots| - 1) then InHand(t) else place
    case Put(t) => if place == InHand(t) then InSlot(|p.slots|) else place
    case Drain => if place == InSlot(|p.slots| - 1) then InClose else place
    case _ => place
  }

  lemma StaysPlaced(p: Pool, s: Step, place: Place, id: nat)
    requires Exclusive(p) && Orderly(p) && Enabled(p, s) && At(p, place, id)
    requires id in Apply(p, s).alive
    ensures At(Apply(p, s), After(p, s, place), id)
  {
    if s.Discard? {
      assert At(p, InHand(s.task), p.hands[s.task].id);
    }
    if s.DrainClose? {
      assert At(p, InClose, s.id);
    }
  }

  /** A step that closes a connection acts for the place that holds it. */
  lemma LostOne(p: Pool, s: Step, place: Place, id: nat)
    requires Exclusive(p) && Enabled(p, s) && At(p, place, id) && id in p.alive
    ensures id !in Apply(p, s).alive ==>
      || (s.Lose? && place == InHand(s.task) && p.hands[s.task].Using?)
      || (s.Discard? && place == InHand(s.task) && p.hands[s.task].Discarding?)
      || (s.DrainClose? && place == InClose)
  {
    match s {
      case Lose(t) => assert At(p, InHand(t), p.hands[t].id);
      case Discard(t) => assert At(p, InHand(t), p.hands[t].id);
      case DrainClose(d) => assert At(p, InClose, d);
      case _ =>
    }
  }

  lemma SlotStaysAlive(p: Pool, s: Step, i: nat)
    requires Exclusive(p) && Enabled(p, s)
    requires i < |Apply(p, s).slots| && Apply(p, s).slots[i].Live?
    ensures Apply(p, s).slots[i].id in Apply(p, s).alive
  {
    var id := Apply(p, s).slots[i].id;
    WasThere(p, s, InSlot(i), id);
    LostOne(p, s, Before(p, s, InSlot(i), id), id);
  }

  lemma ReturnStaysAlive(p: Pool, s: Step, t: nat)
    requires Exclusive(p) && Enabled(p, s)
    requires t in Apply(p, s).hands
    requires Apply(p, s).hands[t].Returning? && Apply(p, s).hands[t].slot.Live?
    ensures Apply(p, s).hands[t].slot.id in Apply(p, s).alive
  {
    var id := Apply(p, s).hands[t].slot.id;
    WasThere(p, s, InHand(t), id);
    if id in p.alive {
      LostOne(p, s, InHand(t), id);
    }
  }

  /** Every step of every task keeps each connection in exactly one place. */
  lemma StepKeepsExclusive(p: Pool, s: Step)
    requires Exclusive(p) && Orderly(p) && Enabled(p, s)
    ensures Exclusive(Apply(p, s))
  {
    var q := Apply(p, s);
    forall a, b, id: nat | At(q, a, id) && At(q, b, id)
      ensures a == b && id < q.nextId
    {
      StaysUnique(p, s, a, b, id);
    }
    forall id <- q.alive
      ensures exists a :: At(q, a, id)
    {
      if id in p.alive {
        var place :| At(p, place, id);
        StaysPlaced(p, s, place, id);
      } else {
        assert At(q, InHand(s.task), id);
      }
    }
    forall i | 0 <= i < |q.slots| && q.slots[i].Live?
      ensures q.slots[i].id in q.alive
    {
      SlotStaysAlive(p, s, i);
    }
    forall t <- q.hands | q.hands[t].Returning? && q.hands[t].slot.Live?
      ensures q.hands[t].slot.id in q.alive
    {
      ReturnStaysAlive(p, s, t);
    }
  }

  ghost predicate Inv(p: Pool) {
    Conserved(p) && Orderly(p) && Exclusive(p)
  }

  lemma {:induction false} RunKeepsInv(p: Pool, steps: seq<Step>)
    requires Inv(p) && CanRun(p, steps)
    ensures Inv(Run(p, steps))
    decreases |steps|
  {
    if steps != [] {
      StepConserves(p, steps[0]);
      StepKeepsOrder(p, steps[0]);
      StepKeepsExclusive(p, steps[0]);
      RunKeepsInv(Apply(p, steps[0]), steps[1..]);
    }
  }

  function SlotIds(slots: seq<Slot>): set<nat> {
    if slots == [] then {}
    else
      var last := slots[|slots| - 1];
      SlotIds(slots[..|slots| - 1]) + if last.Live? then {last.id} else {}
  }

  lemma {:induction false} SlotIdsAre(slots: seq<Slot>)
    ensures |SlotIds(slots)| <= |slots|
    ensures forall i | 0 <= i < |slots| && slots[i].Live? :: slots[i].id in SlotIds(slots)
  {
    if slots != [] {
      SlotIdsAre(slots[..|slots| - 1]);
    }
  }

  ghost function HandIds(hands: map<nat, Hand>): set<nat> {
    set t | t in hands && Held(hands[t]).Some? :: Held(hands[t]).value
  }

  lemma Subset(a: set<nat>, b: set<nat>)
    requires a <= b
    ensures |a| <= |b|
  {
    assert b == a + (b - a);
  }

  lemma {:induction false} HandIdsAreFew(hands: map<nat, Hand>)
    ensures |HandIds(hands)| <= |hands|
    decreases |hands|
  {
    if hands != map[] {
      var t :| t in hands;
      var rest := hands - {t};
      WithoutKey(hands, t);
      HandIdsAreFew(rest);
      var own := if Held(hands[t]).Some? then {Held(hands[t]).value} else {};
      forall id <- HandIds(hands)
        ensures id in HandIds(rest) + own
      {
        var u :| u in hands && Held(hands[u]) == Some(id);
        assert u != t ==> u in rest && Held(rest[u]) == Some(id);
      }
      Subset(HandIds(hands), HandIds(rest) + own);
    } else {
      assert HandIds(hands) == {};
    }
  }

  /** A pool never has more open connections than slots. */
  lemma AliveFits(p: Pool)
    requires Inv(p)
    ensures |p.alive| <= p.size
  {
    SlotIdsAre(p.slots);
    HandIdsAreFew(p.hands);
    var placed := SlotIds(p.slots) + HandIds(p.hands) + p.closing;
    forall id <- p.alive
      ensures id in placed
    {
      var place :| At(p, place, id);
      if place.InHand? {
        assert Held(p.hands[place.task]).value in HandIds(p.hands);
      }
    }
    Subset(p.alive, placed);
  }

  function Fresh(size: nat): Pool {
    Pool(size, seq(size, _ => Vacant), false, {}, map[], {}, false, {}, 0)
  }

  function Below(n: nat): (ids: set<nat>)
    ensures forall id: nat :: id in ids <==> id < n
  {
    if n == 0 then {} else Below(n - 1) + {n - 1}
  }

  function Prefilled(size: nat): Pool {
    Pool(size, seq(size, i requires 0 <= i < size => Live(i)), false, {}, map[], {}, false, Below(size), size)
  }

  lemma StartsWell(size: nat)
    ensures Inv(Fresh(size)) && Inv(Prefilled(size))
  {
    var p := Prefilled(size);
    forall id <- p.alive
      ensures exists a :: At(p, a, id)
    {
      assert At(p, InSlot(id), id);
    }
  }

  /**
   * In every interleaving, from construction or a successful prefill: while the
   * pool is open, the queued slots and those in tasks' hands add up to its size;
   * a put always finds room; no connection is in two places; and no more
   * connections are open than the pool has slots.
   */
  lemma EveryInterleaving(size: nat, p: Pool, steps: seq<Step>)
    requires p == Fresh(size) || p == Prefilled(size)
    requires CanRun(p, steps)
    ensures var q := Run(p, steps);
            && (!q.closed ==> |q.slots| + |q.hands| == q.size)
            && (q.hands != map[] ==> |q.slots| < q.size)
            && (forall a, b, id: nat :: At(q, a, id) && At(q, b, id) ==> a == b)
            && |q.alive| <= q.size
  {
    StartsWell(size);
    RunKeepsInv(p, steps);
    AliveFits(Run(p, steps));
  }

  // ---------- closing with threads ----------

  /** A release has found the pool open and its connection alive, and has not put it back yet. */
  ghost predicate ReturnPending(p: Pool) {
    exists t :: t in p.hands && p.hands[t].Returning? && p.hands[t].slot.Live?
  }

  ghost predicate AllVacant(slots: seq<Slot>) {
    forall i | 0 <= i < |slots| :: slots[i].Vacant?
  }

  /** `close` has returned and an open connection sits in the queue, where nothing will close it. */
  ghost predicate Stranded(p: Pool) {
    p.drained && !AllVacant(p.slots)
  }

  ghost predicate CanStrand(p: Pool) {
    exists steps :: CanRun(p, steps) && Stranded(Run(p, steps))
  }

  ghost predicate ClosesCleanly(p: Pool) {
    && p.closed && !ReturnPending(p)
    && (p.drained ==> p.closing == {} && AllVacant(p.slots))
  }

  lemma StepStaysClean(p: Pool, s: Step)
    requires ClosesCleanly(p) && Enabled(p, s)
    ensures ClosesCleanly(Apply(p, s))
  {
    var q := Apply(p, s);
    assert forall t <- q.hands | q.hands[t].Returning? && q.hands[t].slot.Live? ::
        t in p.hands && p.hands[t] == q.hands[t];
    if s.Put? {
      assert p.hands[s.task].slot.Vacant?;
    }
  }

  lemma {:induction false} StaysClean(p: Pool, steps: seq<Step>)
    requires ClosesCleanly(p) && CanRun(p, steps)
    ensures ClosesCleanly(Run(p, steps))
    decreases |steps|
  {
    if steps != [] {
      StepStaysClean(p, steps[0]);
      StaysClean(Apply(p, steps[0]), steps[1..]);
    }
  }

  function DrainSteps(slots: seq<Slot>): seq<Step>
    decreases |slots|
  {
    if slots == [] then [DrainDone]
    else
      var top := slots[|slots| - 1];
      (if top.Live? then [Drain, DrainClose(top.id)] else [Drain]) + DrainSteps(slots[..|slots| - 1])
  }

  lemma {:induction false} RunAppend(p: Pool, a: seq<Step>, b: seq<Step>)
    requires CanRun(p, a) && CanRun(Run(p, a), b)
    ensures CanRun(p, a + b) && Run(p, a + b) == Run(Run(p, a), b)
    decreases |a|
  {
    if a == [] {
      assert a + b == b;
    } else {
      assert (a + b)[1..] == a[1..] + b;
      RunAppend(Apply(p, a[0]), a[1..], b);
    }
  }

  /** `close` on its own gets to the bottom of the queue and leaves every hand as it is. */
  lemma {:induction false} DrainRuns(p: Pool)
    requires p.closed && !p.drained && p.closing == {}
    ensures CanRun(p, DrainSteps(p.slots))
    ensures Run(p, DrainSteps(p.slots)).drained && Run(p, DrainSteps(p.slots)).hands == p.hands
    decreases |p.slots|
  {
    if p.slots == [] {
      assert CanRun(Apply(p, DrainDone), []);
      assert [DrainDone][1..] == [];
    } else {
      var popped := Apply(p, Drain);
      var first := if Top(p).Live? then [Drain, DrainClose(Top(p).id)] else [Drain];
      var after := if Top(p).Live? then Apply(popped, DrainClose(Top(p).id)) else popped;
      assert CanRun(p, first) && Run(p, first) == after by {
        assert CanRun(after, []);
        if Top(p).Live? {
          assert first[1..] == [DrainClose(Top(p).id)] && first[1..][1..] == [];
          assert CanRun(popped, first[1..]) && Run(popped, first[1..]) == after;
        } else {
          assert first[1..] == [];
        }
      }
      assert after.closing == {};
      DrainRuns(after);
      RunAppend(p, first, DrainSteps(after.slots));
    }
  }

  lemma PendingStrands(p: Pool)
    requires p.closed && !p.drained && p.closing == {} && ReturnPending(p)
    ensures CanStrand(p)
  {
    var t :| t in p.hands && p.hands[t].Returning? && p.hands[t].slot.Live?;
    DrainRuns(p);
    var drained := Run(p, DrainSteps(p.slots));
    var stranded := Apply(drained, Put(t));
    assert CanRun(stranded, []) && [Put(t)][1..] == [];
    assert CanRun(drained, [Put(t)]) && Run(drained, [Put(t)]) == stranded;
    RunAppend(p, DrainSteps(p.slots), [Put(t)]);
    assert !stranded.slots[|drained.slots|].Vacant?;
  }

  /**
   * Closing a pool used by threads can leave an open connection behind exactly
   * when, at that moment, some release stands between its look at the flag and
   * its put.
   */
  lemma CloseStrandsIff(p: Pool)
    requires Inv(p) && !p.closed
    ensures CanStrand(Apply(p, CloseStart)) <==> ReturnPending(p)
  {
    var closing := Apply(p, CloseStart);
    assert closing.hands == p.hands;
    if ReturnPending(p) {
      PendingStrands(closing);
    } else {
      if CanStrand(closing) {
        var steps :| CanRun(closing, steps) && Stranded(Run(closing, steps));
        StaysClean(closing, steps);
      }
    }
  }

  lemma NothingLeft(q: Pool)
    requires Inv(q) && q.hands == map[] && q.closing == {} && AllVacant(q.slots)
    ensures q.alive == {}
  {
    assert forall place: Place, id: nat :: !At(q, place, id);
    assert forall id <- q.alive :: exists a :: At(q, a, id);
  }

  /** At rest after a clean close, every connection ever opened is closed. */
  lemma CleanCloseClosesAll(p: Pool, steps: seq<Step>)
    requires Inv(p) && !p.closed && !ReturnPending(p)
    requires CanRun(Apply(p, CloseStart), steps)
    ensures var q := Run(Apply(p, CloseStart), steps);
            q.drained && q.hands == map[] ==> q.alive == {}
  {
    var closing := Apply(p, CloseStart);
    StepConserves(p, CloseStart);
    StepKeepsOrder(p, CloseStart);
    StepKeepsExclusive(p, CloseStart);
    assert closing.hands == p.hands;
    StaysClean(closing, steps);
    RunKeepsInv(closing, steps);
    var q := Run(closing, steps);
    if q.drained && q.hands == map[] {
      NothingLeft(q);
    }
  }

  // ---------- closing with asyncio ----------

  /** The stretches of code between two awaits: a release checks the flag and puts in one of them. */
  predicate IsStretch(steps: seq<Step>) {
    if |steps| == 1 then
      var s := steps[0];
      !(s.OpenFail? || s.PutVacant? || s.Release? || s.Put? || s.Discard?)
    else
      && |steps| == 2
      && (|| (steps[0].OpenFail? && steps[1] == PutVacant(steps[0].task))
          || (steps[0].Release? && steps[1] == Put(steps[0].task))
          || (steps[0].Release? && steps[1] == Discard(steps[0].task)))
  }

  predicate CanRunStretches(p: Pool, stretches: seq<seq<Step>>)
    decreases |stretches|
  {
    stretches == [] ||
    (IsStretch(stretches[0]) && CanRun(p, stretches[0]) && CanRunStretches(Run(p, stretches[0]), stretches[1..]))
  }

  function RunStretches(p: Pool, stretches: seq<seq<Step>>): Pool
    requires CanRunStretches(p, stretches)
    decreases |stretches|
  {
    if stretches == [] then p else RunStretches(Run(p, stretches[0]), stretches[1..])
  }

  /** Between stretches no release is half done, and a finished `aclose` has left nothing open in the queue. */
  ghost predicate AtAwait(p: Pool) {
    && (forall t <- p.hands :: p.hands[t].Opening? || p.hands[t].Using?)
    && (p.drained ==> p.closed && p.closing == {} && AllVacant(p.slots))
  }

  lemma OneStep(p: Pool, s: Step)
    requires CanRun(p, [s])
    ensures Enabled(p, s) && Run(p, [s]) == Apply(p, s)
  {
    assert [s][1..] == [];
  }

  lemma TwoSteps(p: Pool, s: Step, t: Step)
    requires CanRun(p, [s, t])
    ensures Enabled(p, s) && Enabled(Apply(p, s), t) && Run(p, [s, t]) == Apply(Apply(p, s), t)
  {
    assert [s, t][1..] == [t];
    OneStep(Apply(p, s), t);
  }

  lemma SingleKeepsAwait(p: Pool, s: Step)
    requires AtAwait(p) && IsStretch([s]) && Enabled(p, s)
    ensures AtAwait(Apply(p, s))
  {
  }

  lemma PairKeepsAwait(p: Pool, s: Step, t: Step)
    requires AtAwait(p) && IsStretch([s, t]) && Enabled(p, s) && Enabled(Apply(p, s), t)
    ensures AtAwait(Apply(Apply(p, s), t))
  {
    var q := Apply(Apply(p, s), t);
    assert q.drained == p.drained && q.closing == p.closing && q.closed == p.closed;
  }

  lemma StretchKeepsAwait(p: Pool, steps: seq<Step>)
    requires AtAwait(p) && IsStretch(steps) && CanRun(p, steps)
    ensures AtAwait(Run(p, steps))
  {
    if |steps| == 1 {
      assert steps == [steps[0]];
      OneStep(p, steps[0]);
      SingleKeepsAwait(p, steps[0]);
    } else {
      assert steps == [steps[0], steps[1]];
      TwoSteps(p, steps[0], steps[1]);
      PairKeepsAwait(p, steps[0], steps[1]);
    }
  }

  lemma {:induction false} AsyncRunKeeps(p: Pool, stretches: seq<seq<Step>>)
    requires Inv(p) && AtAwait(p) && CanRunStretches(p, stretches)
    ensures Inv(RunStretches(p, stretches)) && AtAwait(RunStretches(p, stretches))
    decreases |stretches|
  {
    if stretches != [] {
      RunKeepsInv(p, stretches[0]);
      StretchKeepsAwait(p, stretches[0]);
      AsyncRunKeeps(Run(p, stretches[0]), stretches[1..]);
    }
  }

  /**
   * Under asyncio, once the first `aclose` has returned and no task holds or is
   * opening a connection, every connection ever created is closed.
   */
  lemma AsyncShutdown(size: nat, p: Pool, stretches: seq<seq<Step>>)
    requires p == Fresh(size) || p == Prefilled(size)
    requires CanRunStretches(p, stretches)
    ensures var q := RunStretches(p, stretches);
            q.drained && q.hands == map[] ==> q.alive == {}
  {
    StartsWell(size);
    AsyncRunKeeps(p, stretches);
    var q := RunStretches(p, stretches);
    if q.drained && q.hands == map[] {
      NothingLeft(q);
    }
  }
}
