/** What the attempts of a call may spend: time asleep, rounds, sends, dials and frames. */
module Budgets {
  import opened Core
  import opened Reconnect
  import opened Transport

  /** All the sleeping between two readings would have fitted between the first one and the deadline. */
  ghost predicate SleptWithin(a: Gauge, b: Gauge, deadline: Deadline) {
    forall k: nat {:trigger UnfoldOn(Spending, k)} | UnfoldOn(Spending, k) ::
      deadline.at.Some? && a.slept < b.slept ==> b.slept - a.slept <= deadline.at.value - a.now
  }

  lemma SleptMeans(a: Gauge, b: Gauge, deadline: Deadline)
    requires SleptWithin(a, b, deadline)
    ensures deadline.at.Some? && a.slept < b.slept ==> b.slept - a.slept <= deadline.at.value - a.now
  {
    assert UnfoldOn(Spending, 0);
  }

  lemma SleptTwice(net: Network, a: Gauge, b: Gauge, c: Gauge, deadline: Deadline)
    requires net.Valid() && b.pos <= |net.script|
    requires Passes(net.spent, a, b) && SleptWithin(a, b, deadline)
    requires Passes(net.spent, b, c) && SleptWithin(b, c, deadline)
    ensures SleptWithin(a, c, deadline)
  {
    assert UnfoldOn(Spending, 0);
    TimeGoneBy(net.spent, |net.script|, a, b, net.least, 0);
  }

  /** So many rounds of at least the minimal duration fit before the deadline. */
  ghost predicate RoundsWithin(start: Gauge, deadline: Deadline, least: real, rounds: nat) {
    forall k: nat {:trigger UnfoldOn(Spending, k)} | UnfoldOn(Spending, k) ::
      deadline.at.Some? && rounds > 0 ==> rounds as real * least <= deadline.at.value - start.now
  }

  lemma OneMoreRound(net: Network, start: Gauge, now: Gauge, deadline: Deadline, rounds: nat)
    requires net.Valid() && now.pos <= |net.script| && Passes(net.spent, start, now)
    requires start.pos + rounds <= now.pos
    requires deadline.at.Some? ==> now.now + net.least <= deadline.at.value
    ensures RoundsWithin(start, deadline, net.least, rounds + 1)
  {
    TimeGoneBy(net.spent, |net.script|, start, now, net.least, rounds);
    assert (rounds + 1) as real * net.least == rounds as real * net.least + net.least;
  }

  /** What one attempt adds to the time slept and, if another one follows, to the rounds. */
  lemma OneMoreAttempt(net: Network, start: Gauge, round: Gauge, now: Gauge, deadline: Deadline, rounds: nat,
                       again: bool)
    requires net.Valid() && round.pos <= now.pos <= |net.script| && start.pos + rounds <= round.pos
    requires Passes(net.spent, start, round) && SleptWithin(start, round, deadline)
    requires Passes(net.spent, round, now) && SleptWithin(round, now, deadline)
    requires again && deadline.at.Some? ==> round.now + net.least <= deadline.at.value
    ensures SleptWithin(start, now, deadline)
    ensures again ==> RoundsWithin(start, deadline, net.least, rounds + 1)
  {
    SleptTwice(net, start, round, now, deadline);
    if again {
      OneMoreRound(net, start, round, deadline, rounds);
    }
  }

  lemma SleepFits(net: Network, a: Gauge, b: Gauge, delay: real, deadline: Deadline)
    requires net.Valid() && b.pos <= |net.script| && Passes(net.spent, a, b) && b.slept == a.slept
    requires deadline.at.Some? ==> delay <= Max(deadline.at.value - b.now, 0.0)
    ensures deadline.at.Some? && delay > 0.0 ==> delay <= deadline.at.value - a.now
  {
    TimeGoneBy(net.spent, |net.script|, a, b, net.least, 0);
  }

  /** The call ended with a send: it was answered, or the last send lost the connection. */
  ghost predicate EndsSending(r: Result<Bytes>) {
    r.Ok? || r == Err(ConnectionLost)
  }

  /** What has been spent: calls of send, dials, frames begun, and those of them that carry one payload. */
  datatype Effort = Effort(sends: int, dials: int, writes: int, own: int)

  /** What one turn of the retry loop may spend. */
  ghost predicate Turn(a: Effort, b: Effort, greeting: bool, r: Option<Result<Bytes>>) {
    forall k: nat {:trigger UnfoldOn(Spending, k)} | UnfoldOn(Spending, k) ::
      && b.sends == a.sends + 1 && a.dials <= b.dials <= a.dials + 1
      && (r.None? ==> b.dials == a.dials + 1) && (r.Some? && EndsSending(r.value) ==> b.dials == a.dials)
      && b.writes - a.writes <= 1 + b.dials - a.dials
      && (!greeting ==> b.own - a.own <= 1)
  }

  /** What so many turns may spend, if each of them was followed by another. */
  ghost predicate Turns(policy: ReconnectPolicy, a: Effort, b: Effort, greeting: bool, turns: nat) {
    forall k: nat {:trigger UnfoldOn(Spending, k)} | UnfoldOn(Spending, k) ::
      && b.sends - a.sends == turns == b.dials - a.dials
      && b.writes - a.writes <= 2 * turns && (!greeting ==> b.own - a.own <= turns)
      && (policy.maxAttempts.Some? ==> turns <= Budget(policy))
  }

  /**
   * The attempt budget of a call: at most N+1 sends, one dial between each two,
   * and one frame at most for each send and each dial. A call that ended with a
   * send made no dial after it. The payload itself, unless it is the greeting's,
   * was begun at most once for each send.
   */
  ghost predicate InBudget(policy: ReconnectPolicy, a: Effort, b: Effort, greeting: bool, r: Result<Bytes>) {
    forall k: nat {:trigger UnfoldOn(Spending, k)} | UnfoldOn(Spending, k) ::
      var sends, dials := b.sends - a.sends, b.dials - a.dials;
      && 1 <= sends && sends - 1 <= dials <= sends && (EndsSending(r) ==> dials == sends - 1)
      && b.writes - a.writes <= sends + dials && (!greeting ==> b.own - a.own <= sends)
      && (policy.maxAttempts.Some? ==> sends <= Budget(policy) + 1 && dials <= Budget(policy))
  }

  /** As many sends as the policy grants. */
  ghost predicate SpentUp(policy: ReconnectPolicy, a: Effort, b: Effort) {
    forall k: nat {:trigger UnfoldOn(Spending, k)} | UnfoldOn(Spending, k) ::
      policy.maxAttempts.Some? && b.sends - a.sends == Budget(policy) + 1
  }

  /** Every send but the last was followed by a round that fitted before the deadline. */
  ghost predicate InTime(start: Gauge, deadline: Deadline, least: real, a: Effort, b: Effort) {
    forall k: nat {:trigger UnfoldOn(Spending, k)} | UnfoldOn(Spending, k) ::
      b.sends > a.sends && RoundsWithin(start, deadline, least, b.sends - a.sends - 1)
  }

  lemma StaysInTime(start: Gauge, deadline: Deadline, least: real, a: Effort, b: Effort, rounds: nat)
    requires RoundsWithin(start, deadline, least, rounds) && b.sends - a.sends == rounds + 1
    ensures InTime(start, deadline, least, a, b)
  {
  }

  lemma NoTurns(policy: ReconnectPolicy, a: Effort, greeting: bool)
    ensures Turns(policy, a, a, greeting, 0)
  {
  }

  /** One turn more is the last one, or leaves budget for another. */
  lemma OneMoreTurn(policy: ReconnectPolicy, a: Effort, b: Effort, c: Effort, greeting: bool, turns: nat,
                    r: Option<Result<Bytes>>)
    requires Turns(policy, a, b, greeting, turns) && Turn(b, c, greeting, r)
    requires policy.Exhausted(turns + 1) ==> c.dials == b.dials && r.Some?
    ensures r.None? ==> Turns(policy, a, c, greeting, turns + 1)
    ensures r.Some? ==> InBudget(policy, a, c, greeting, r.value)
    ensures c.sends - a.sends == turns + 1
    ensures policy.Exhausted(turns + 1) ==> SpentUp(policy, a, c)
  {
    assert UnfoldOn(Spending, 0);
  }
}
