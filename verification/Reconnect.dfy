/** Backoff policy and call deadlines, over the reals. */
module Reconnect {
  import opened Core

  type Fraction = r: real | 0.0 <= r < 1.0

  function Min(a: real, b: real): real {
    if a <= b then a else b
  }

  function Max(a: real, b: real): real {
    if a >= b then a else b
  }

  function Scale(factor: real, x: real): real {
    factor * x
  }

  function Pow(x: real, k: nat): real {
    if k == 0 then 1.0 else x * Pow(x, k - 1)
  }

  datatype ReconnectPolicy =
    ReconnectPolicy(initial: real, maxDelay: real, multiplier: real, maxAttempts: Option<int>)
  {

    function Ceiling(attempt: nat): real
      requires attempt >= 1
    {
      Min(maxDelay, initial * Pow(multiplier, attempt - 1))
    }

    /** Full jitter: a random fraction of the ceiling. */
    function Delay(attempt: nat, rand: Fraction): real
      requires attempt >= 1
    {
      Scale(rand, Ceiling(attempt))
    }

    predicate Exhausted(attempt: nat) {
      maxAttempts.Some? && attempt > maxAttempts.value
    }
  }

  /** The attempts a policy grants; a negative limit grants none. */
  function Budget(policy: ReconnectPolicy): nat
    requires policy.maxAttempts.Some?
  {
    if policy.maxAttempts.value < 0 then 0 else policy.maxAttempts.value
  }

  lemma PowGrows(x: real, a: nat, b: nat)
    requires x >= 1.0 && a <= b
    ensures 1.0 <= Pow(x, a) <= Pow(x, b)
    decreases b
  {
    if a < b {
      PowGrows(x, a, b - 1);
    } else if a > 0 {
      PowGrows(x, a - 1, a - 1);
    }
  }

  lemma ScaleKeepsOrder(k: real, x: real, y: real)
    requires k >= 0.0 && x <= y
    ensures k * x <= k * y
  {
  }

  /** Backoff grows with the attempt number and stops growing at the configured maximum. */
  lemma CeilingGrows(p: ReconnectPolicy, a: nat, b: nat)
    requires p.multiplier >= 1.0 && p.initial >= 0.0 && 1 <= a <= b
    ensures p.Ceiling(a) <= p.Ceiling(b) <= p.maxDelay
    ensures p.initial >= p.maxDelay ==> p.Ceiling(a) == p.maxDelay
  {
    PowGrows(p.multiplier, a - 1, b - 1);
    ScaleKeepsOrder(p.initial, Pow(p.multiplier, a - 1), Pow(p.multiplier, b - 1));
    ScaleKeepsOrder(p.initial, 1.0, Pow(p.multiplier, a - 1));
  }

  lemma ScaleUpTo(k: real, x: real, limit: real)
    requires k >= 1.0 && limit >= 0.0 && x >= limit
    ensures k * x >= limit && k * limit >= limit
  {
    ScaleKeepsOrder(k, limit, x);
    ScaleKeepsOrder(limit, 1.0, k);
  }

  /** The first ceiling is the initial delay; each attempt multiplies it, until it reaches the maximum. */
  lemma CeilingDoubles(p: ReconnectPolicy, attempt: nat)
    requires attempt >= 1
    ensures p.Ceiling(1) == Min(p.maxDelay, p.initial)
    ensures p.multiplier >= 1.0 && p.maxDelay >= 0.0 ==>
      p.Ceiling(attempt + 1) == Min(p.maxDelay, p.multiplier * p.Ceiling(attempt))
  {
    assert Pow(p.multiplier, 0) == 1.0;
    var x := p.initial * Pow(p.multiplier, attempt - 1);
    assert p.initial * Pow(p.multiplier, attempt) == p.multiplier * x;
    if p.multiplier >= 1.0 && p.maxDelay >= 0.0 && x > p.maxDelay {
      ScaleUpTo(p.multiplier, x, p.maxDelay);
    }
  }

  lemma CeilingIsDelay(p: ReconnectPolicy, attempt: nat)
    requires attempt >= 1 && p.multiplier >= 1.0 && p.initial >= 0.0 && p.maxDelay >= 0.0
    ensures p.Ceiling(attempt) >= 0.0
  {
    PowGrows(p.multiplier, attempt - 1, attempt - 1);
    ScaleKeepsOrder(p.initial, 0.0, Pow(p.multiplier, attempt - 1));
  }

  lemma FractionOf(c: real, rand: Fraction)
    requires c >= 0.0
    ensures 0.0 <= Scale(rand, c) <= c
    ensures Scale(rand, c) == c <==> c == 0.0
  {
    if c > 0.0 {
      assert (1.0 - rand) * c > 0.0;
    }
  }

  /** A random delay lies between zero and the ceiling, and below a positive ceiling. */
  lemma DelayIsJittered(p: ReconnectPolicy, attempt: nat, rand: Fraction)
    requires attempt >= 1 && p.multiplier >= 1.0 && p.initial >= 0.0 && p.maxDelay >= 0.0
    ensures 0.0 <= p.Delay(attempt, rand) <= p.Ceiling(attempt)
    ensures p.Delay(attempt, rand) == p.Ceiling(attempt) <==> p.Ceiling(attempt) == 0.0
  {
    CeilingIsDelay(p, attempt);
    FractionOf(p.Ceiling(attempt), rand);
  }

  /** The jitter is even: the fraction of the ceiling that a delay is, is the jitter that draws it, and no other is. */
  lemma EveryDelayIsDrawn(p: ReconnectPolicy, attempt: nat, delay: real, rand: Fraction)
    requires attempt >= 1 && 0.0 <= delay < p.Ceiling(attempt)
    ensures 0.0 <= delay / p.Ceiling(attempt) < 1.0
    ensures p.Delay(attempt, rand) == delay <==> rand == delay / p.Ceiling(attempt)
  {
    var c := p.Ceiling(attempt);
    var share := delay / c;
    assert share * c == delay;
    assert share >= 1.0 ==> share * c >= c by {
      if share >= 1.0 {
        ScaleKeepsOrder(c, 1.0, share);
      }
    }
    assert share < 0.0 ==> share * c < 0.0;
    assert rand * c - share * c == (rand - share) * c;
  }

  datatype Deadline = Deadline(at: Option<real>) {

    function Remaining(now: real): Option<real> {
      if at.None? then None else Some(at.value - now)
    }

    predicate Expired(now: real) {
      at.Some? && at.value - now <= 0.0
    }

    function Clamp(delay: real, now: real): real {
      match Remaining(now)
      case None => delay
      case Some(remaining) => Min(delay, Max(remaining, 0.0))
    }
  }

  const NO_DEADLINE := Deadline(None)

  /** A sleep that fits before the deadline is left alone; a longer one ends there, and none starts later. */
  lemma ClampEndsAtDeadline(deadline: Deadline, delay: real, now: real)
    ensures deadline.at.None? || (now + delay <= deadline.at.value && now <= deadline.at.value) ==>
      deadline.Clamp(delay, now) == delay
    ensures deadline.at.Some? && now <= deadline.at.value <= now + delay ==>
      now + deadline.Clamp(delay, now) == deadline.at.value
    ensures deadline.at.Some? && deadline.at.value <= now && delay >= 0.0 ==> deadline.Clamp(delay, now) == 0.0
  {
  }
}
