/**
 * Sockets as an adversary: an arbitrary finite script decides the outcome and
 * the duration of every operation. A run that outlives its script is
 * interrupted, so the scripts of all lengths cover every prefix of every run.
 */
module Transport {
  import opened Core
  import opened Framing
  import opened Reconnect

  datatype Fault = Fine | TimedOut | Failed

  /** One decision of the environment; each operation uses the fields it needs. */
  datatype Choice = Choice(fault: Fault, amount: nat, incoming: Bytes, jitter: Fraction, flag: bool)

  /** An attempt to send a payload on a socket and the number of frame bytes that left. */
  datatype Write = Write(wire: nat, payload: Bytes, sent: nat)

  ghost predicate WellFormed(w: Write, wires: nat) {
    w.wire < wires && Encodable(w.payload) && w.sent <= FrameSize(w.payload)
  }

  ghost predicate Whole(w: Write) {
    Encodable(w.payload) && w.sent == FrameSize(w.payload)
  }

  ghost function Last(log: seq<Write>): Write {
    if log == [] then Write(0, [], 0) else log[|log| - 1]
  }

  ghost predicate ValidLog(log: seq<Write>, wires: nat) {
    log == [] || (WellFormed(Last(log), wires) && ValidLog(log[..|log| - 1], wires))
  }

  lemma {:induction false} ValidLogMeans(log: seq<Write>, wires: nat)
    requires ValidLog(log, wires)
    ensures forall i | 0 <= i < |log| :: WellFormed(log[i], wires)
    ensures ValidLog(log, wires + 1)
  {
    if log != [] {
      ValidLogMeans(log[..|log| - 1], wires);
    }
  }

  lemma ValidLogGrows(log: seq<Write>, wires: nat, w: Write)
    requires ValidLog(log, wires) && WellFormed(w, wires)
    ensures ValidLog(log + [w], wires)
  {
    assert (log + [w])[..|log|] == log;
  }

  /** The log grew by one attempt to send this payload on this socket. */
  ghost predicate Attempted(before: seq<Write>, after: seq<Write>, wire: nat, payload: Bytes) {
    && |after| == |before| + 1 && Last(after).wire == wire && Last(after).payload == payload
    && forall k: nat {:trigger Unfold(k)} | Unfold(k) :: after == before + [Last(after)]
  }

  lemma AttemptedMeans(before: seq<Write>, after: seq<Write>, wire: nat, payload: Bytes)
    requires Attempted(before, after, wire, payload)
    ensures after == before + [Last(after)] && after[..|before|] == before
  {
    assert Unfold(0);
  }

  lemma AttemptedNow(log: seq<Write>, w: Write)
    ensures Attempted(log, log + [w], w.wire, w.payload) && Last(log + [w]) == w
  {
  }

  ghost predicate AllFine(script: seq<Choice>) {
    forall i | 0 <= i < |script| :: script[i].fault == Fine
  }

  /** No operation fails or times out on the way from one position to another. */
  ghost predicate FineBetween(script: seq<Choice>, from: nat, to: nat) {
    forall i | from <= i < to && i < |script| :: script[i].fault == Fine
  }

  /** Each of the first n operations takes at least so long. */
  ghost predicate EachTakes(spent: nat -> real, n: nat, least: real) {
    n == 0 || (spent(n - 1) + least <= spent(n) && EachTakes(spent, n - 1, least))
  }

  lemma {:induction false} EachTakesUpTo(spent: nat -> real, n: nat, to: nat, least: real)
    requires EachTakes(spent, n, least) && to <= n
    ensures EachTakes(spent, to, least)
  {
    if to < n {
      EachTakesUpTo(spent, n - 1, to, least);
    }
  }

  lemma {:induction false} OperationsTakeTime(spent: nat -> real, from: nat, to: nat, least: real)
    requires from <= to && EachTakes(spent, to, least)
    ensures spent(to) - spent(from) >= (to - from) as real * least
  {
    if from < to {
      OperationsTakeTime(spent, from, to - 1, least);
      assert (to - from) as real * least == (to - 1 - from) as real * least + least;
    }
  }

  /** What the environment's clock shows: operations done, the time, and the time slept. */
  datatype Gauge = Gauge(pos: nat, now: real, slept: real)

  /** Between two readings time passes by the operations and the sleeps, and by nothing else. */
  ghost predicate Passes(spent: nat -> real, a: Gauge, b: Gauge) {
    && a.pos <= b.pos
    && a.slept <= b.slept
    && b.now - a.now == b.slept - a.slept + spent(b.pos) - spent(a.pos)
  }

  lemma ScaleUp(least: real, j: nat, k: nat)
    requires least >= 0.0 && j <= k
    ensures 0.0 <= j as real * least <= k as real * least
  {
    if j < k {
      ScaleUp(least, j, k - 1);
      assert k as real * least == (k - 1) as real * least + least;
    } else if k > 0 {
      ScaleUp(least, k - 1, k - 1);
      assert k as real * least == (k - 1) as real * least + least;
    }
  }

  /** Operations and sleeps both take their time. */
  lemma TimeGoneBy(spent: nat -> real, n: nat, a: Gauge, b: Gauge, least: real, k: nat)
    requires Passes(spent, a, b) && EachTakes(spent, n, least) && least >= 0.0 && a.pos + k <= b.pos <= n
    ensures b.now - a.now >= b.slept - a.slept + k as real * least
    ensures k as real * least >= 0.0
  {
    EachTakesUpTo(spent, n, b.pos, least);
    OperationsTakeTime(spent, a.pos, b.pos, least);
    ScaleUp(least, k, b.pos - a.pos);
  }

  /** The bytes of a frame that `sendall` got rid of: all, or, when the connection broke, not quite all. */
  function SentBy(choice: Choice, size: nat): (sent: nat)
    requires size > 0
    ensures sent <= size && (choice.fault.Failed? ==> sent < size)
  {
    match choice.fault
    case Fine => size
    case TimedOut => if choice.amount < size then choice.amount else size
    case Failed => if choice.amount < size then choice.amount else size - 1
  }

  function Outcome<T>(choice: Choice, value: T): Result<T> {
    match choice.fault
    case Fine => Ok(value)
    case TimedOut => Err(Timeout)
    case Failed => Err(ConnectionLost)
  }

  /** How many bytes a `recv` hands over: some of those that have arrived, none once there are no more. */
  function ReceivedBy(choice: Choice, available: nat, size: nat): (n: nat)
    requires size > 0
    ensures n <= size && n <= available && (n == 0 ==> available == 0)
  {
    var most := if size < available then size else available;
    if choice.amount > most then most else if choice.amount == 0 && most > 0 then 1 else choice.amount
  }

  /** The outcome of an operation and the number of environment choices used up by then. */
  datatype Timed = Timed(r: Result<()>, pos: nat)

  /** What becomes of a TCP connect and, if asked for, the TLS handshake. */
  function DialOutcome(script: seq<Choice>, pos: nat, tls: bool): (t: Timed)
    ensures pos <= t.pos && (t.r.Ok? ==> t.pos == (pos + if tls then 2 else 1) <= |script|)
  {
    if pos >= |script| then Timed(Err(Interrupted), pos)
    else if script[pos].fault != Fine then Timed(Err(ConnectionLost), pos + 1)
    else if !tls then Timed(Ok(()), pos + 1)
    else if pos + 1 >= |script| then Timed(Err(Interrupted), pos + 1)
    else Timed(if script[pos + 1].fault != Fine then Err(ConnectionLost) else Ok(()), pos + 2)
  }

  class Network {
    const script: seq<Choice>
    const spent: nat -> real // the time the first k operations take together, sleeps not counted
    ghost const least: real // a lower bound on the duration of one operation
    var pos: nat
    var now: real
    var inboxes: seq<Bytes> // per socket ever opened: the bytes the server sends and nobody read yet
    ghost var log: seq<Write>
    ghost var slept: real
    ghost var dials: nat

    constructor (script: seq<Choice>, spent: nat -> real, ghost least: real, now: real)
      requires 0.0 <= least && EachTakes(spent, |script|, least)
      ensures Valid() && this.script == script && this.spent == spent && this.least == least && this.now == now
      ensures pos == 0 && inboxes == [] && log == [] && slept == 0.0 && dials == 0
    {
      this.script, this.spent, this.least, this.now := script, spent, least, now;
      pos, inboxes, log, slept, dials := 0, [], [], 0.0, 0;
    }

    /** The clock does not go backwards. */
    ghost predicate Clocked() {
      0.0 <= least && EachTakes(spent, |script|, least)
    }

    ghost predicate Valid()
      reads this
    {
      pos <= |script| && Clocked() && ValidLog(log, |inboxes|)
    }

    ghost function Time(): Gauge
      reads this
    {
      Gauge(pos, now, slept)
    }

    ghost predicate Since(start: Gauge)
      reads this
    {
      Passes(spent, start, Time())
    }

    method Take() returns (r: Result<Choice>)
      requires pos <= |script|
      modifies `pos, `now
      ensures pos <= |script| && Since(old(Time()))
      ensures if old(pos) < |script| then r == Ok(script[old(pos)]) && pos == old(pos) + 1
              else r == Err(Interrupted) && pos == old(pos)
    {
      if pos == |script| {
        return Err(Interrupted);
      }
      var choice := script[pos];
      pos := pos + 1;
      now := now + spent(pos) - spent(pos - 1);
      return Ok(choice);
    }

    method Clock() returns (r: Result<real>)
      requires pos <= |script|
      modifies `pos, `now
      ensures pos <= |script| && Since(old(Time()))
      ensures if old(pos) < |script| then r == Ok(now) && pos == old(pos) + 1
              else r == Err(Interrupted) && pos == old(pos)
    {
      var _ :- Take();
      return Ok(now);
    }

    method Random() returns (r: Result<Fraction>)
      requires pos <= |script|
      modifies `pos, `now
      ensures pos <= |script| && Since(old(Time()))
      ensures if old(pos) < |script| then r == Ok(script[old(pos)].jitter) && pos == old(pos) + 1
              else r == Err(Interrupted) && pos == old(pos)
    {
      var choice :- Take();
      return Ok(choice.jitter);
    }

    method StopRequested() returns (r: Result<bool>)
      requires pos <= |script|
      modifies `pos, `now
      ensures pos <= |script| && Since(old(Time()))
      ensures if old(pos) < |script| then r == Ok(script[old(pos)].flag) && pos == old(pos) + 1
              else r == Err(Interrupted) && pos == old(pos)
    {
      var choice :- Take();
      return Ok(choice.flag);
    }

    method Sleep(delay: real) returns (r: Result<()>)
      requires pos <= |script| && delay >= 0.0
      modifies `pos, `now, `slept
      ensures pos <= |script| && Since(old(Time()))
      ensures slept == old(slept) + if r.Ok? then delay else 0.0
      ensures if old(pos) < |script| then r == Ok(()) && pos == old(pos) + 1
              else r == Err(Interrupted) && pos == old(pos)
    {
      var _ :- Take();
      now := now + delay;
      slept := slept + delay;
      return Ok(());
    }

    /** The clock so many operations after `start`, if nothing sleeps. */
    ghost function Later(start: Gauge, operations: nat): Gauge {
      var pos := start.pos + operations;
      Gauge(pos, start.now + spent(pos) - spent(start.pos), start.slept)
    }

    /** TCP connect and, if asked for, the TLS handshake. */
    method Dial(tls: bool) returns (r: Result<nat>)
      requires Valid()
      modifies `pos, `now, `inboxes, `dials
      ensures Valid() && Since(old(Time()))
      ensures old(dials) <= dials <= old(dials) + 1 && (r != Err(Interrupted) ==> dials == old(dials) + 1)
      ensures r.Ok? ==> |inboxes| == |old(inboxes)| + 1 && inboxes[..|old(inboxes)|] == old(inboxes)
      ensures Timed(if r.Ok? then Ok(()) else Err(r.error), pos) == DialOutcome(script, old(pos), tls)
      ensures r.Ok? ==> r.value == |old(inboxes)| && old(pos) < |script|
      ensures r.Ok? ==> inboxes[r.value] == script[old(pos)].incoming
      ensures r.Ok? ==> pos == old(pos) + if tls then 2 else 1
      ensures r.Err? ==> inboxes == old(inboxes)
      ensures r.Err? ==> r.error == Interrupted || r.error == ConnectionLost
      ensures r == Err(ConnectionLost) ==> !FineBetween(script, old(pos), pos)
    {
      var choice :- Take();
      dials := dials + 1;
      if choice.fault != Fine {
        return Err(ConnectionLost);
      }
      if tls {
        var handshake :- Take();
        if handshake.fault != Fine {
          return Err(ConnectionLost);
        }
      }
      ValidLogMeans(log, |inboxes|);
      inboxes := inboxes + [choice.incoming];
      return Ok(|inboxes| - 1);
    }

    /** A deadline `timeout` seconds from now. */
    method StartDeadline(timeout: Option<real>) returns (r: Result<Deadline>)
      requires pos <= |script|
      modifies `pos, `now
      ensures pos <= |script| && Since(old(Time()))
      ensures r.Ok? && timeout.None? ==> r.value == NO_DEADLINE && pos == old(pos) && now == old(now)
      ensures r.Ok? && timeout.Some? ==>
        Time() == Later(old(Time()), 1) && r.value == Deadline(Some(now + timeout.value)) && pos == old(pos) + 1
      ensures r.Err? ==> r.error == Interrupted && timeout.Some? && pos == old(pos) == |script|
    {
      if timeout.None? {
        return Ok(NO_DEADLINE);
      }
      var t :- Clock();
      return Ok(Deadline(Some(t + timeout.value)));
    }

    method CheckDeadline(deadline: Deadline) returns (r: Result<()>)
      requires pos <= |script|
      modifies `pos, `now
      ensures pos <= |script| && Since(old(Time()))
      ensures r.Ok? ==> pos == old(pos) + if deadline.at.Some? then 1 else 0
      ensures r.Ok? && deadline.at.Some? ==> now < deadline.at.value
      ensures r == Err(Timeout) ==> deadline.at.Some? && pos == old(pos) + 1 && deadline.at.value <= now
      ensures r.Err? && r.error != Timeout ==>
        r.error == Interrupted && deadline.at.Some? && pos == old(pos) == |script|
    {
      if deadline.at.None? {
        return Ok(());
      }
      var t :- Clock();
      return if deadline.Expired(t) then Err(Timeout) else Ok(());
    }

    method Remaining(deadline: Deadline) returns (r: Result<Option<real>>)
      requires pos <= |script|
      modifies `pos, `now
      ensures pos <= |script| && Since(old(Time()))
      ensures r.Ok? ==> r.value == deadline.Remaining(now) && pos == old(pos) + if deadline.at.Some? then 1 else 0
      ensures r.Err? ==> r.error == Interrupted && deadline.at.Some? && pos == old(pos) == |script|
    {
      if deadline.at.None? {
        return Ok(None);
      }
      var t :- Clock();
      return Ok(deadline.Remaining(t));
    }

    method SetTimeout(remaining: Option<real>) returns (r: Result<()>)
      requires pos <= |script|
      modifies `pos, `now
      ensures pos <= |script| && Since(old(Time()))
      ensures r == Err(InvalidValue) <==> remaining.Some? && remaining.value < 0.0
      ensures r == Err(InvalidValue) ==> pos == old(pos)
      ensures r != Err(InvalidValue) ==>
        if old(pos) < |script| then
          pos == old(pos) + 1 && r == if script[old(pos)].fault == Fine then Ok(()) else Err(ConnectionLost)
        else
          pos == old(pos) && r == Err(Interrupted)
    {
      if remaining.Some? && remaining.value < 0.0 {
        return Err(InvalidValue);
      }
      var choice :- Take();
      return if choice.fault == Fine then Ok(()) else Err(ConnectionLost);
    }

    /** A broken connection took only part of the frame; a timeout may have taken all of it. */
    method SendAll(wire: nat, payload: Bytes) returns (r: Result<()>)
      requires Valid() && wire < |inboxes| && Encodable(payload)
      modifies `pos, `now, `log
      ensures Valid() && Since(old(Time()))
      ensures r.Ok? ==> Attempted(old(log), log, wire, payload) && Whole(Last(log))
      ensures r.Err? ==>
        || (r.error == Interrupted && log == old(log))
        || (r.error == Timeout && Attempted(old(log), log, wire, payload))
        || (r.error == ConnectionLost && Attempted(old(log), log, wire, payload) && !Whole(Last(log)))
      ensures if old(pos) < |script| then
                && pos == old(pos) + 1 && r == Outcome(script[old(pos)], ())
                && Last(log).sent == SentBy(script[old(pos)], FrameSize(payload))
              else
                pos == old(pos) && r == Err(Interrupted)
    {
      var choice :- Take();
      var sent := SentBy(choice, FrameSize(payload));
      ghost var w := Write(wire, payload, sent);
      ValidLogGrows(log, |inboxes|, w);
      AttemptedNow(log, w);
      log := log + [w];
      return Outcome(choice, ());
    }

    /** Some of the bytes that have arrived, at most `size`; none at all once the server has closed. */
    method Recv(wire: nat, size: nat) returns (r: Result<Bytes>)
      requires pos <= |script| && wire < |inboxes| && size > 0
      modifies `pos, `now, `inboxes
      ensures pos <= |script| && Since(old(Time()))
      ensures |inboxes| == |old(inboxes)|
      ensures if old(pos) < |script| then
                var inbox := old(inboxes)[wire];
                pos == old(pos) + 1
                && r == Outcome(script[old(pos)], inbox[..ReceivedBy(script[old(pos)], |inbox|, size)])
              else
                pos == old(pos) && r == Err(Interrupted)
      ensures r.Ok? ==> |r.value| <= |old(inboxes)[wire]|
      ensures r.Ok? ==> inboxes == old(inboxes)[wire := old(inboxes)[wire][|r.value|..]]
      ensures r.Err? ==> inboxes == old(inboxes)
    {
      var choice :- Take();
      var inbox := inboxes[wire];
      var taken := ReceivedBy(choice, |inbox|, size);
      if choice.fault == Fine {
        inboxes := inboxes[wire := inbox[taken..]];
      }
      return Outcome(choice, inbox[..taken]);
    }
  }

  /** Without sleeps in between, the later of two readings is so many operations after the earlier one. */
  lemma NothingSlept(net: Network, a: Gauge, b: Gauge)
    requires Passes(net.spent, a, b) && a.slept == b.slept
    ensures b == net.Later(a, b.pos - a.pos)
  {
  }

  lemma ClockGoesOn(net: Network, from: nat, to: nat)
    requires net.Clocked() && from <= to <= |net.script|
    ensures net.spent(from) <= net.spent(to)
  {
    EachTakesUpTo(net.spent, |net.script|, to, net.least);
    OperationsTakeTime(net.spent, from, to, net.least);
    ScaleUp(net.least, 0, to - from);
  }

  lemma AnOperationTakesTime(net: Network, a: Gauge, b: Gauge)
    requires net.Valid() && a.pos < b.pos <= |net.script| && Passes(net.spent, a, b)
    ensures a.now + net.least <= b.now
  {
    TimeGoneBy(net.spent, |net.script|, a, b, net.least, 1);
  }
}
