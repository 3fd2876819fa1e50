/** The retry loop of a request and the reconnecting stream. */
module Clients {
  import opened Core
  import opened Framing
  import opened Reconnect
  import opened Transport
  import opened Reads
  import opened Responses
  import opened Exchanges
  import opened Budgets
  import opened Recoveries
  import opened Connections
  import opened Pairing
  import opened Delivery

  /** Every socket is disciplined. */
  ghost predicate Sound(log: seq<Write>) {
    forall k: nat {:trigger UnfoldOn(Logs, k)} | UnfoldOn(Logs, k) :: Disciplined(log)
  }

  /** Every socket is disciplined, and the one in use, if any, has carried whole frames only. */
  ghost predicate Ready(log: seq<Write>, sock: Option<nat>) {
    && Sound(log)
    && forall k: nat {:trigger UnfoldOn(Logs, k)} | UnfoldOn(Logs, k) ::
         sock.Some? ==> CleanOn(log, sock.value)
  }

  lemma WriteKeepsDiscipline(before: seq<Write>, after: seq<Write>, wire: nat, payload: Bytes)
    requires Ready(before, Some(wire)) && Attempted(before, after, wire, payload)
    ensures Sound(after)
    ensures Whole(Last(after)) ==> Ready(after, Some(wire))
  {
    assert UnfoldOn(Logs, 0);
    AttemptedMeans(before, after, wire, payload);
  }

  lemma FreshSocketIsClean(log: seq<Write>, wires: nat)
    requires ValidLog(log, wires)
    ensures CleanOn(log, wires)
  {
    ValidLogMeans(log, wires);
    CleanOnMeans(log, wires);
  }

  /** A greeting on a new socket keeps every socket disciplined; a completed one leaves it ready. */
  lemma GreetingKeepsDiscipline(before: seq<Write>, after: seq<Write>, wires: nat, payload: Bytes)
    requires ValidLog(before, wires) && Sound(before) && Attempted(before, after, wires, payload)
    ensures Sound(after)
    ensures Whole(Last(after)) ==> Ready(after, Some(wires))
  {
    FreshSocketIsClean(before, wires);
    WriteKeepsDiscipline(before, after, wires, payload);
  }

  lemma GreetingInLog(before: seq<Write>, after: seq<Write>, wires: nat, greeting: Bytes, payload: Bytes)
    requires ValidLog(before, wires)
    requires after == before || Attempted(before, after, wires, greeting)
    ensures payload != greeting ==> Copies(after, payload) == Copies(before, payload)
    ensures payload != greeting ==> Attempts(after, payload) == Attempts(before, payload)
    ensures Sound(before) ==> Sound(after)
    ensures Sound(before) && after != before && Whole(Last(after)) ==> Ready(after, Some(wires))
  {
    if after != before {
      CopiesGrow(before, after, wires, greeting, payload);
      AttemptsGrow(before, after, wires, greeting, payload);
      if Sound(before) {
        GreetingKeepsDiscipline(before, after, wires, greeting);
      }
    }
  }

  lemma WriteInLog(before: seq<Write>, after: seq<Write>, sock: Option<nat>, payload: Bytes)
    requires after == before || (sock.Some? && Attempted(before, after, sock.value, payload))
    ensures Copies(after, payload)
         == Copies(before, payload) + if after == before then 0 else IsCopy(Last(after), payload)
    ensures Attempts(after, payload) == Attempts(before, payload) + |after| - |before|
    ensures after != before ==> Last(after).payload == payload
  {
    if after != before {
      CopiesGrow(before, after, sock.value, payload, payload);
      AttemptsGrow(before, after, sock.value, payload, payload);
    }
  }

  lemma WriteKeepsReady(before: seq<Write>, after: seq<Write>, sock: Option<nat>, payload: Bytes)
    requires Ready(before, sock)
    requires after == before || (sock.Some? && Attempted(before, after, sock.value, payload))
    ensures Sound(after)
    ensures after == before || Whole(Last(after)) ==> Ready(after, sock)
  {
    if after != before {
      WriteKeepsDiscipline(before, after, sock.value, payload);
    }
  }

  /** On sockets that are sound, a server decodes what was written whole. */
  lemma SoundDeliveries(log: seq<Write>, wires: nat, payload: Bytes)
    requires ValidLog(log, wires) && WellFormedLog(log, wires) && Sound(log)
    ensures Deliveries(log, wires, wires, payload) == Copies(log, payload)
  {
    assert UnfoldOn(Logs, 0);
    DeliveriesAreCopies(log, wires, payload);
  }

  /**
   * How many more whole copies of a mutating command have left: one after a
   * success, at most one after a failure, and none when the flag is down or the
   * connection closed, or when the loop goes on.
   */
  ghost predicate CopiesAfter(before: seq<Write>, after: seq<Write>, payload: Bytes, r: Option<Result<Bytes>>,
                              inFlight: bool, closed: bool) {
    var more := Copies(after, payload) - Copies(before, payload);
    match r
    case None => more == 0
    case Some(Ok(_)) => more == 1
    case Some(Err(_)) => 0 <= more <= 1 && (!inFlight || closed ==> more == 0)
  }

  /**
   * Which request raised the flag of a connection: on a closed one the greeting
   * of a reconnect, on an open one the command itself.
   */
  ghost predicate RaisedBy(log: seq<Write>, payload: Bytes, greeting: Bytes, inFlight: bool, closed: bool) {
    inFlight ==> Last(log).payload == if closed then greeting else payload
  }

  /** Between two moments the servers received a payload at most once more. */
  ghost predicate SeenAtMostOnceMore(before: seq<Write>, wiresBefore: nat, after: seq<Write>, wires: nat,
                                     payload: Bytes) {
    && WellFormedLog(before, wiresBefore) && WellFormedLog(after, wires)
    && Deliveries(after, wires, wires, payload) <= Deliveries(before, wiresBefore, wiresBefore, payload) + 1
  }

  ghost predicate SeenOnceMore(before: seq<Write>, wiresBefore: nat, after: seq<Write>, wires: nat, payload: Bytes) {
    && WellFormedLog(before, wiresBefore) && WellFormedLog(after, wires)
    && Deliveries(after, wires, wires, payload) == Deliveries(before, wiresBefore, wiresBefore, payload) + 1
  }

  /** What a call on a sound connection makes the servers see of a mutating command. */
  lemma SeenMore(before: seq<Write>, wiresBefore: nat, sock: Option<nat>, after: seq<Write>, wires: nat,
                 command: Command, r: Result<Bytes>, inFlight: bool, closed: bool)
    requires ValidLog(before, wiresBefore) && ValidLog(after, wires)
    requires Ready(before, sock) ==> Sound(after)
    requires !command.readOnly ==> CopiesAfter(before, after, command.payload, Some(r), inFlight, closed)
    ensures Ready(before, sock) && !command.readOnly ==>
      SeenAtMostOnceMore(before, wiresBefore, after, wires, command.payload)
    ensures Ready(before, sock) && !command.readOnly && r.Ok? ==>
      SeenOnceMore(before, wiresBefore, after, wires, command.payload)
  {
    ValidLogMeans(before, wiresBefore);
    ValidLogMeans(after, wires);
    if Ready(before, sock) && !command.readOnly {
      SoundDeliveries(before, wiresBefore, command.payload);
      SoundDeliveries(after, wires, command.payload);
    }
  }

  ghost predicate FlagExplained(connection: Connection, command: Command)
    reads connection, connection.net
  {
    RaisedBy(connection.net.log, command.payload, Hello(connection.token).payload, connection.requestInFlight,
             connection.sock.None?)
  }

  /** The connection is closed, or idle with one of these replies next. */
  ghost predicate Awaits(connection: Connection, chunked: bool, outcomes: iset<(Result<Bytes>, Link)>)
    requires connection.Valid()
    reads connection, connection.net
  {
    connection.sock.Some? ==> Expects(connection.State(), chunked, outcomes)
  }

  ghost function EffortOf(connection: Connection, payload: Bytes): Effort
    reads connection, connection.net
  {
    Effort(connection.sends, connection.net.dials, |connection.net.log|, Attempts(connection.net.log, payload))
  }

  /** A call on this connection. */
  ghost function CallOn(connection: Connection, command: Command, deadline: Deadline, chunked: bool): Call {
    Call(command.payload, command.readOnly, chunked, deadline, connection.tls, connection.connectTimeout,
         Hello(connection.token).payload)
  }

  /** A call for a single frame, with the deadline that its timeout sets if the call begins now. */
  ghost function CallFor(connection: Connection, command: Command, now: Gauge, timeout: Option<real>): Call {
    var begun := if timeout.None? then now else connection.net.Later(now, 1);
    CallOn(connection, command, CallDeadline(begun, timeout), false)
  }

  /** Where a call on this connection stands. */
  ghost function StandingOf(connection: Connection): Standing
    requires connection.Valid()
    reads connection, connection.net
  {
    Standing(connection.net.Time(), connection.Found(), connection.requestInFlight)
  }

  class Client {
    const policy: ReconnectPolicy

    constructor (policy: ReconnectPolicy)
      ensures this.policy == policy
    {
      this.policy := policy;
    }

    /** The sleep the policy asks for, by the jitter drawn, cut off at the deadline by the clock read after it. */
    ghost function Pause(net: Network, start: Gauge, attempt: nat, deadline: Deadline): real
      requires attempt >= 1
    {
      var draw := start.pos + if deadline.at.Some? then 1 else 0;
      if draw >= |net.script| then 0.0
      else
        var clock := start.now + net.spent(draw + 2) - net.spent(start.pos);
        Max(deadline.Clamp(policy.Delay(attempt, net.script[draw].jitter), clock), 0.0)
    }

    /** The sleeping part of a backoff that started at `start` with a check of the deadline. */
    method Wait(net: Network, attempt: nat, deadline: Deadline, ghost start: Gauge) returns (r: Result<()>)
      requires net.Valid() && attempt >= 1 && net.Since(start) && net.slept == start.slept
      requires net.pos == start.pos + if deadline.at.Some? then 1 else 0
      modifies net`pos, net`now, net`slept
      ensures net.Valid() && net.Since(start) && SleptWithin(start, net.Time(), deadline)
      ensures r.Ok? ==> start.pos < net.pos && net.slept - start.slept == Pause(net, start, attempt, deadline)
      ensures r.Err? ==> r.error == Interrupted && net.pos == |net.script|
      ensures r.Ok? && deadline.at.None? ==> RestsUntil(policy, net.script, start.pos, attempt, net.pos)
      ensures deadline.at.None? && RestFits(policy, net.script, start.pos, attempt) ==> r.Ok?
    {
      assert Unfold(0) && UnfoldOn(Rests, 0);
      var rand :- net.Random();
      var _ :- net.Remaining(deadline);
      var delay := deadline.Clamp(policy.Delay(attempt, rand), net.now);
      SleepFits(net, start, net.Time(), delay, deadline);
      if delay > 0.0 {
        r := net.Sleep(delay);
      } else {
        r := Ok(());
      }
    }

    method Backoff(net: Network, attempt: nat, deadline: Deadline) returns (r: Result<()>)
      requires net.Valid() && attempt >= 1
      modifies net`pos, net`now, net`slept
      ensures net.Valid() && net.Since(old(net.Time()))
      ensures SleptWithin(old(net.Time()), net.Time(), deadline)
      ensures r.Ok? ==> old(net.pos) < net.pos
      ensures r.Ok? ==> net.slept - old(net.slept) == Pause(net, old(net.Time()), attempt, deadline)
      ensures r.Ok? && deadline.at.Some? ==> old(net.now) + net.least <= net.now < deadline.at.value
      ensures r.Err? ==> BackoffFails(net, deadline, net.Time(), r.error)
      // without a deadline: the whole jittered delay, and no way to fail but the end of the script
      ensures deadline.at.None? && r.Ok? ==>
        && RestsUntil(policy, net.script, old(net.pos), attempt, net.pos)
        && net.slept - old(net.slept) == Max(policy.Delay(attempt, net.script[old(net.pos)].jitter), 0.0)
      ensures deadline.at.None? && RestFits(policy, net.script, old(net.pos), attempt) ==> r.Ok?
    {
      var _ :- net.CheckDeadline(deadline);
      var _ :- Wait(net, attempt, deadline, old(net.Time()));
      r := net.CheckDeadline(deadline);
      AnOperationTakesTime(net, old(net.Time()), net.Time());
    }

    /**
     * The way back from a lost connection: wait, then reconnect. A reconnect
     * that fails counts as done; the next send will find the connection closed.
     */
    method Recover(connection: Connection, attempt: nat, deadline: Deadline, ghost payload: Bytes)
      returns (r: Result<()>, ghost paused: Result<Gauge>, ghost reopened: Pulled<HelloInfo>)
      requires connection.Valid() && attempt >= 1
      modifies connection, connection.net`pos, connection.net`now, connection.net`slept, connection.net`inboxes
      modifies connection.net`log, connection.net`dials
      ensures connection.Valid() && connection.net.Since(old(connection.net.Time()))
      ensures SleptWithin(old(connection.net.Time()), connection.net.Time(), deadline)
      ensures r.Ok? ==> old(connection.net.pos) < connection.net.pos
      ensures r.Ok? ==>
        connection.net.slept == old(connection.net.slept)
                              + Pause(connection.net, old(connection.net.Time()), attempt, deadline)
      ensures r.Ok? && deadline.at.Some? ==> old(connection.net.now) + connection.net.least <= deadline.at.value
      ensures r.Err? ==> r.error != ConnectionLost
      // what comes out is a failure of the backoff, or what the reconnect raised, unless that just lost the connection
      ensures IsRecovery(r, paused, reopened, connection.net, old(connection.net.Time()), connection.net.Time(),
                         deadline, connection.tls, connection.connectTimeout, Hello(connection.token).payload)
      ensures paused.Ok? && reopened.r.Ok? ==>
        connection.Found() == Start(reopened.pos, true, reopened.left, reopened.r.value.maxMessageSize)
      ensures paused.Ok? && reopened.r.Err? ==> connection.sock.None?
      ensures Rested(policy, connection.net.script, old(connection.net.pos), attempt, deadline, paused)
      ensures r.Ok? && connection.sock.Some? ==> Greeted(connection.net.script, connection.State())
      ensures old(connection.net.dials) <= connection.net.dials <= old(connection.net.dials) + 1
      ensures r.Ok? ==> connection.net.dials == old(connection.net.dials) + 1
      ensures connection.sends == old(connection.sends)
      ensures |connection.net.log| - |old(connection.net.log)| <= connection.net.dials - old(connection.net.dials)
      ensures !old(connection.requestInFlight) && connection.requestInFlight ==>
        connection.sock.None? && Last(connection.net.log).payload == Hello(connection.token).payload
      ensures payload != Hello(connection.token).payload ==>
        && Copies(connection.net.log, payload) == Copies(old(connection.net.log), payload)
        && Attempts(connection.net.log, payload) == Attempts(old(connection.net.log), payload)
      ensures old(Sound(connection.net.log)) ==> Sound(connection.net.log)
      ensures old(Sound(connection.net.log)) && r.Ok? ==> Ready(connection.net.log, connection.sock)
    {
      var net := connection.net;
      reopened := Pulled(Err(Interrupted), 0, []);
      var rested := Backoff(net, attempt, deadline);
      if rested.Err? {
        paused := Err(rested.error);
        return Err(rested.error), paused, reopened;
      }
      paused := Ok(net.Time());
      ghost var before, wires := net.log, |net.inboxes|;
      var connected := connection.Reconnect();
      reopened := Pulled(connection.Terms(connected), net.pos, connection.Unread());
      GreetingInLog(before, net.log, wires, Hello(connection.token).payload, payload);
      r := if connected.Err? && connected.error != ConnectionLost then connected else Ok(());
    }

    /** The recovery of a call that lost its connection: it goes well, and if it fails that ends the call. */
    method RecoverFor(connection: Connection, attempt: nat, deadline: Deadline, ghost payload: Bytes, ghost call: Call,
                      ghost before: Standing)
      returns (r: Result<()>)
      requires connection.Valid() && connection.net.Since(before.at)
      requires call.deadline == deadline && call.tls == connection.tls
      requires call.connectTimeout == connection.connectTimeout && call.hello == Hello(connection.token).payload
      requires LostAt(policy, attempt, connection.net, call, before, connection.net.pos)
      modifies connection, connection.net`pos, connection.net`now, connection.net`slept, connection.net`inboxes
      modifies connection.net`log, connection.net`dials
      ensures connection.Valid() && connection.net.Since(old(connection.net.Time()))
      ensures SleptWithin(old(connection.net.Time()), connection.net.Time(), deadline)
      ensures r.Ok? ==> old(connection.net.pos) < connection.net.pos
      ensures r.Ok? && deadline.at.Some? ==> old(connection.net.now) + connection.net.least <= deadline.at.value
      ensures r.Err? ==> r.error != ConnectionLost
      ensures r.Ok? && connection.sock.Some? ==> Greeted(connection.net.script, connection.State())
      ensures old(connection.net.dials) <= connection.net.dials <= old(connection.net.dials) + 1
      ensures r.Ok? ==> connection.net.dials == old(connection.net.dials) + 1
      ensures connection.sends == old(connection.sends)
      ensures |connection.net.log| - |old(connection.net.log)| <= connection.net.dials - old(connection.net.dials)
      ensures !old(connection.requestInFlight) && connection.requestInFlight ==>
        connection.sock.None? && Last(connection.net.log).payload == Hello(connection.token).payload
      ensures payload != Hello(connection.token).payload ==>
        && Copies(connection.net.log, payload) == Copies(old(connection.net.log), payload)
        && Attempts(connection.net.log, payload) == Attempts(old(connection.net.log), payload)
      ensures old(Sound(connection.net.log)) ==> Sound(connection.net.log)
      ensures old(Sound(connection.net.log)) && r.Ok? ==> Ready(connection.net.log, connection.sock)
      ensures GoesWell(policy, attempt, connection.net, call, before,
                       if r.Ok? then None else Some(Err(r.error)), StandingOf(connection))
      ensures r.Err? ==>
        EndsFor(Err(r.error), connection.net, before.at, connection.net.Time(), call, connection.Unread())
    {
      ghost var net, recovering := connection.net, connection.net.Time();
      ghost var paused, reopened;
      r, paused, reopened := Recover(connection, attempt + 1, deadline, payload);
      RecoveryDone(r, paused, reopened, policy, attempt, net, call, before, recovering, StandingOf(connection),
                   connection.Unread());
    }

    /** The exchange a command asks for: a single response frame or a chunked one. */
    method Perform(connection: Connection, command: Command, deadline: Deadline, chunked: bool,
                   ghost outcomes: iset<(Result<Bytes>, Link)>)
      returns (r: Result<Bytes>)
      requires connection.Valid()
      modifies connection`requestInFlight, connection`sends
      modifies connection.net`pos, connection.net`now, connection.net`inboxes, connection.net`log
      ensures connection.Valid() && connection.net.Since(old(connection.net.Time()))
      ensures connection.sends == old(connection.sends) + 1
      ensures connection.StartedAtMostOne(old(connection.net.log), command.payload)
      ensures r.Ok? ==> connection.WroteWhole(old(connection.net.log), command.payload) && !connection.requestInFlight
      ensures r.Err? && connection.WroteWhole(old(connection.net.log), command.payload) ==> connection.requestInFlight
      ensures r.Err? && connection.net.log == old(connection.net.log) ==>
        connection.requestInFlight == old(connection.requestInFlight)
      ensures old(Awaits(connection, chunked, outcomes)) && r.Ok? ==> (r, connection.State()) in outcomes
      ensures IsSend(Pulled(r, connection.net.pos, connection.Unread()), connection.net, old(connection.net.Time()),
                     CallOn(connection, command, deadline, chunked), old(connection.Found()))
      ensures connection.requestInFlight <==>
        FlagAfter(connection.net, old(connection.net.Time()), CallOn(connection, command, deadline, chunked),
                  old(connection.Found()), old(connection.requestInFlight), r)
    {
      connection.sends := connection.sends + 1;
      if chunked {
        ghost var frames;
        r, frames := connection.SendChunked(command, deadline);
      } else {
        r := connection.Send(command, deadline);
      }
    }

    /** One send and the decision what comes of it; `None` means that it may be tried again. */
    method TrySend(connection: Connection, command: Command, deadline: Deadline, chunked: bool, attempt: nat,
                   ghost outcomes: iset<(Result<Bytes>, Link)>)
      returns (r: Option<Result<Bytes>>, ghost answer: Result<Bytes>)
      requires connection.Valid()
      modifies connection`requestInFlight, connection`sends
      modifies connection.net`pos, connection.net`now, connection.net`inboxes, connection.net`log
      ensures connection.Valid() && connection.net.Since(old(connection.net.Time()))
      ensures connection.sends == old(connection.sends) + 1
      ensures !command.readOnly ==>
        CopiesAfter(old(connection.net.log), connection.net.log, command.payload, r, connection.requestInFlight,
                    connection.sock.None?)
      ensures |connection.net.log| <= |old(connection.net.log)| + 1
      ensures Attempts(connection.net.log, command.payload) <= Attempts(old(connection.net.log), command.payload) + 1
      ensures connection.net.log == old(connection.net.log) ==>
        connection.requestInFlight == old(connection.requestInFlight)
      ensures connection.net.log != old(connection.net.log) ==>
        connection.sock.Some? && Last(connection.net.log).payload == command.payload
      ensures old(Ready(connection.net.log, connection.sock)) ==> Sound(connection.net.log)
      ensures old(Ready(connection.net.log, connection.sock)) && r.Some? && r.value.Ok? ==>
        Ready(connection.net.log, connection.sock)
      ensures r.None? ==> !policy.Exhausted(attempt + 1) && (command.readOnly || !connection.requestInFlight)
      ensures r.Some? && r.value.Ok? ==> !connection.requestInFlight && connection.sock.Some?
      ensures r == Some(Err(ConnectionLost)) ==>
        (connection.requestInFlight && !command.readOnly) || policy.Exhausted(attempt + 1)
      ensures old(Awaits(connection, chunked, outcomes)) && r.Some? && r.value.Ok? ==>
        (r.value, connection.State()) in outcomes
      // the outcome of the send and of the flag, and what is decided by them
      ensures IsSend(Pulled(answer, connection.net.pos, connection.Unread()), connection.net,
                     old(connection.net.Time()), CallOn(connection, command, deadline, chunked),
                     old(connection.Found()))
      ensures connection.requestInFlight <==>
        FlagAfter(connection.net, old(connection.net.Time()), CallOn(connection, command, deadline, chunked),
                  old(connection.Found()), old(connection.requestInFlight), answer)
      ensures r == Decision(policy, attempt, command.readOnly, connection.requestInFlight, answer)
      ensures r.Some? ==>
        && GoesWell(policy, attempt, connection.net, CallOn(connection, command, deadline, chunked),
                    old(StandingOf(connection)), r, StandingOf(connection))
        && EndsFor(r.value, connection.net, old(connection.net.Time()), connection.net.Time(),
                   CallOn(connection, command, deadline, chunked), connection.Unread())
      ensures r.None? ==>
        LostAt(policy, attempt, connection.net, CallOn(connection, command, deadline, chunked),
               old(StandingOf(connection)), connection.net.pos)
    {
      ghost var before, standing := connection.net.log, StandingOf(connection);
      var outcome := Perform(connection, command, deadline, chunked, outcomes);
      answer := outcome;
      WriteInLog(before, connection.net.log, connection.sock, command.payload);
      if old(Ready(connection.net.log, connection.sock)) {
        WriteKeepsReady(before, connection.net.log, connection.sock, command.payload);
      }
      r := None;
      if outcome != Err(ConnectionLost) || (connection.requestInFlight && !command.readOnly)
         || policy.Exhausted(attempt + 1) {
        r := Some(outcome);
      }
      SendEndsOrLoses(Pulled(answer, connection.net.pos, connection.Unread()), r, policy, attempt, connection.net,
                      CallOn(connection, command, deadline, chunked), standing, StandingOf(connection));
    }

    /** One turn of the retry loop; `None` means to go round again. */
    method Attempt(connection: Connection, command: Command, deadline: Deadline, chunked: bool, attempt: nat,
                   ghost outcomes: iset<(Result<Bytes>, Link)>)
      returns (r: Option<Result<Bytes>>)
      requires connection.Valid()
      requires command.readOnly || command.payload != Hello(connection.token).payload
      modifies connection, connection.net`pos, connection.net`now, connection.net`slept, connection.net`inboxes
      modifies connection.net`log, connection.net`dials
      ensures connection.Valid() && connection.net.Since(old(connection.net.Time()))
      ensures SleptWithin(old(connection.net.Time()), connection.net.Time(), deadline)
      ensures !command.readOnly ==>
        CopiesAfter(old(connection.net.log), connection.net.log, command.payload, r, connection.requestInFlight,
                    connection.sock.None?)
      ensures !command.readOnly && old(FlagExplained(connection, command)) ==> FlagExplained(connection, command)
      ensures !command.readOnly && r.None? && connection.requestInFlight ==> connection.sock.None?
      ensures old(Ready(connection.net.log, connection.sock)) ==> Sound(connection.net.log)
      ensures old(Ready(connection.net.log, connection.sock)) && (r.Some? ==> r.value.Ok?) ==>
        Ready(connection.net.log, connection.sock)
      ensures Turn(old(EffortOf(connection, command.payload)), EffortOf(connection, command.payload),
                   command.payload == Hello(connection.token).payload, r)
      // what ended the call, and when it goes well
      ensures r.Some? ==>
        EndsFor(r.value, connection.net, old(connection.net.Time()), connection.net.Time(),
                CallOn(connection, command, deadline, chunked), connection.Unread())
      ensures GoesWell(policy, attempt, connection.net, CallOn(connection, command, deadline, chunked),
                       old(StandingOf(connection)), r, StandingOf(connection))
      ensures r.None? ==> old(connection.net.pos) < connection.net.pos && !policy.Exhausted(attempt + 1)
      ensures r.None? && deadline.at.Some? ==> old(connection.net.now) + connection.net.least <= deadline.at.value
      ensures r.Some? && r.value.Ok? ==> !connection.requestInFlight && connection.sock.Some?
      ensures policy.Exhausted(attempt + 1) ==> connection.net.dials == old(connection.net.dials)
      ensures r == Some(Err(ConnectionLost)) ==>
        (connection.requestInFlight && !command.readOnly) || policy.Exhausted(attempt + 1)
      ensures old(Awaits(connection, chunked, outcomes)) && ServersAnswer(connection.net.script, chunked, outcomes) ==>
        && (r.Some? && r.value.Ok? ==> (r.value, connection.State()) in outcomes)
        && (r.None? ==> Awaits(connection, chunked, outcomes))
    {
      var net := connection.net;
      ghost var start, standing := net.Time(), StandingOf(connection);
      ghost var call := CallOn(connection, command, deadline, chunked);
      ghost var answer;
      r, answer := TrySend(connection, command, deadline, chunked, attempt, outcomes);
      if r.Some? {
        return;
      }
      ghost var recovering := net.Time();
      TimeGoneBy(net.spent, |net.script|, start, recovering, net.least, 0);
      var recovered := RecoverFor(connection, attempt, deadline, command.payload, call, standing);
      SleptTwice(net, start, recovering, net.Time(), deadline);
      if recovered.Err? {
        r := Some(Err(recovered.error));
      }
    }

    /**
     * Send until a response arrives. Since a mutating command may not be applied
     * twice, at most one whole copy of it ever leaves, and the flag tells the
     * caller of a failed call when none did.
     */
    method WithRetry(connection: Connection, command: Command, deadline: Deadline, chunked: bool,
                     ghost outcomes: iset<(Result<Bytes>, Link)>)
      returns (r: Result<Bytes>)
      requires connection.Valid()
      requires command.readOnly || command.payload != Hello(connection.token).payload
      modifies connection, connection.net`pos, connection.net`now, connection.net`slept, connection.net`inboxes
      modifies connection.net`log, connection.net`dials
      ensures connection.Valid() && connection.net.Since(old(connection.net.Time()))
      // at most once, exactly once on success, and not at all if the flag stays down or the connection ends closed
      ensures !command.readOnly ==>
        CopiesAfter(old(connection.net.log), connection.net.log, command.payload, Some(r), connection.requestInFlight,
                    connection.sock.None?)
      ensures !command.readOnly && !old(connection.requestInFlight) ==> FlagExplained(connection, command)
      ensures r.Ok? ==> !connection.requestInFlight && connection.sock.Some?
      ensures old(Ready(connection.net.log, connection.sock)) ==> Sound(connection.net.log)
      ensures old(Ready(connection.net.log, connection.sock)) && r.Ok? ==> Ready(connection.net.log, connection.sock)
      // what is returned is the server's reply to this command
      ensures old(Awaits(connection, chunked, outcomes)) && ServersAnswer(connection.net.script, chunked, outcomes) ==>
        r.Ok? ==> (r, connection.State()) in outcomes
      // the attempt budget
      ensures InBudget(policy, old(EffortOf(connection, command.payload)), EffortOf(connection, command.payload),
                       command.payload == Hello(connection.token).payload, r)
      ensures r == Err(ConnectionLost) ==>
        || (connection.requestInFlight && !command.readOnly)
        || SpentUp(policy, old(EffortOf(connection, command.payload)), EffortOf(connection, command.payload))
      // the deadline
      ensures SleptWithin(old(connection.net.Time()), connection.net.Time(), deadline)
      ensures InTime(old(connection.net.Time()), deadline, connection.net.least,
                     old(EffortOf(connection, command.payload)), EffortOf(connection, command.payload))
      // what ended the call
      ensures EndsFor(r, connection.net, old(connection.net.Time()), connection.net.Time(),
                      CallOn(connection, command, deadline, chunked), connection.Unread())
      // a call to which nothing happens, and one that loses its connection and finds a server that answers
      ensures Fulfilled(policy, connection.net, CallOn(connection, command, deadline, chunked),
                        old(StandingOf(connection)), r, old(EffortOf(connection, command.payload)),
                        EffortOf(connection, command.payload))
    {
      var net := connection.net;
      var attempt: nat := 0;
      ghost var call, start := CallOn(connection, command, deadline, chunked), StandingOf(connection);
      ghost var begun := EffortOf(connection, command.payload);
      CallBegins(policy, net, call, start, begun);
      while true
        invariant connection.Valid() && net.Since(start.at) && net.pos >= start.at.pos + attempt
        invariant Underway(policy, net, call, start, begun, attempt, StandingOf(connection),
                           EffortOf(connection, command.payload))
        invariant !command.readOnly ==>
          Copies(net.log, command.payload) == Copies(old(net.log), command.payload)
        invariant !command.readOnly && !old(connection.requestInFlight) ==> FlagExplained(connection, command)
        invariant old(Ready(net.log, connection.sock)) ==> Ready(net.log, connection.sock)
        invariant old(Awaits(connection, chunked, outcomes)) && ServersAnswer(net.script, chunked, outcomes) ==>
          Awaits(connection, chunked, outcomes)
        decreases |net.script| - net.pos
      {
        ghost var now, spent := StandingOf(connection), EffortOf(connection, command.payload);
        var answer := Attempt(connection, command, deadline, chunked, attempt, outcomes);
        AttemptMade(policy, net, call, start, begun, attempt, now, spent, answer, StandingOf(connection),
                    EffortOf(connection, command.payload), connection.Unread());
        if answer.Some? {
          return answer.value;
        }
        attempt := attempt + 1;
      }
    }

    /** The request of one call, with the deadline that its timeout sets. */
    method Request(connection: Connection, command: Command, timeout: Option<real>,
                   ghost outcomes: iset<(Result<Bytes>, Link)>)
      returns (r: Result<Bytes>)
      requires connection.Valid()
      requires command.readOnly || command.payload != Hello(connection.token).payload
      modifies connection, connection.net`pos, connection.net`now, connection.net`slept, connection.net`inboxes
      modifies connection.net`log, connection.net`dials
      ensures connection.Valid()
      ensures !command.readOnly ==>
        CopiesAfter(old(connection.net.log), connection.net.log, command.payload, Some(r), connection.requestInFlight,
                    connection.sock.None?)
      ensures old(Ready(connection.net.log, connection.sock)) ==> Sound(connection.net.log)
      ensures old(Ready(connection.net.log, connection.sock)) && r.Ok? ==> Ready(connection.net.log, connection.sock)
      ensures old(Awaits(connection, false, outcomes)) && ServersAnswer(connection.net.script, false, outcomes) ==>
        r.Ok? ==> (r, connection.State()) in outcomes
      ensures r.Ok? ==> !connection.requestInFlight && connection.sock.Some?
      ensures timeout.Some? && timeout.value >= 0.0 ==>
        connection.net.slept - old(connection.net.slept) <= timeout.value
      // a call to which nothing happens, and one that loses its connection and finds a server that answers
      ensures Concludes(policy, connection.net, CallFor(connection, command, old(connection.net.Time()), timeout),
                        old(StandingOf(connection)), timeout, r, connection.net.Time(), connection.Unread())
      ensures r == Err(ConnectionLost) ==>
        || (connection.requestInFlight && !command.readOnly)
        || SpentUp(policy, old(EffortOf(connection, command.payload)), EffortOf(connection, command.payload))
    {
      var net := connection.net;
      ghost var before := StandingOf(connection);
      ghost var start, call := CallStart(net, before, timeout), CallFor(connection, command, before.at, timeout);
      var deadline := net.StartDeadline(timeout);
      if deadline.Err? {
        r := Err(deadline.error);
        NeverBegins(policy, net, call, before, timeout, net.Time(), connection.Unread());
      } else {
        ghost var effort := EffortOf(connection, command.payload);
        assert start == StandingOf(connection) && call == CallOn(connection, command, deadline.value, false);
        r := WithRetry(connection, command, deadline.value, false, outcomes);
        CallConcludes(policy, net, call, before, timeout, start, r, net.Time(), connection.Unread(), effort,
                      EffortOf(connection, command.payload));
        SleptWithinTimeout(start.at, net.Time(), timeout);
      }
    }

    /**
     * One request, from its timeout to its parsed result, on the connection the
     * pool handed out. Whatever happens on the way, the servers see a mutating
     * command at most once, and the call never sleeps longer than its timeout.
     * A call that was answered leaves the connection as sound as it found it.
     */
    method Execute<T>(connection: Connection, command: Command, parse: Bytes -> Result<T>, timeout: Option<real>,
                      ghost outcomes: iset<(Result<Bytes>, Link)>)
      returns (r: Result<T>, ghost answer: Result<Bytes>)
      requires connection.Valid()
      requires command.readOnly || command.payload != Hello(connection.token).payload
      modifies connection, connection.net`pos, connection.net`now, connection.net`slept, connection.net`inboxes
      modifies connection.net`log, connection.net`dials
      ensures connection.Valid()
      ensures r == if answer.Ok? then parse(answer.value) else Err(answer.error)
      ensures old(Ready(connection.net.log, connection.sock)) && !command.readOnly ==>
        SeenAtMostOnceMore(old(connection.net.log), old(|connection.net.inboxes|),
                           connection.net.log, |connection.net.inboxes|, command.payload)
      ensures old(Ready(connection.net.log, connection.sock)) && !command.readOnly && answer.Ok? ==>
        SeenOnceMore(old(connection.net.log), old(|connection.net.inboxes|),
                     connection.net.log, |connection.net.inboxes|, command.payload)
      ensures old(Awaits(connection, false, outcomes)) && ServersAnswer(connection.net.script, false, outcomes) ==>
        answer.Ok? ==> (answer, connection.State()) in outcomes
      ensures answer.Ok? ==> !connection.requestInFlight && connection.sock.Some?
      ensures answer.Ok? && old(Ready(connection.net.log, connection.sock)) ==>
        Ready(connection.net.log, connection.sock)
      ensures timeout.Some? && timeout.value >= 0.0 ==>
        connection.net.slept - old(connection.net.slept) <= timeout.value
      // a call to which nothing happens, and one that loses its connection and finds a server that answers
      ensures Concludes(policy, connection.net, CallFor(connection, command, old(connection.net.Time()), timeout),
                        old(StandingOf(connection)), timeout, answer, connection.net.Time(), connection.Unread())
      ensures answer == Err(ConnectionLost) ==>
        || (connection.requestInFlight && !command.readOnly)
        || SpentUp(policy, old(EffortOf(connection, command.payload)), EffortOf(connection, command.payload))
    {
      var net := connection.net;
      ghost var before, wires, closed := net.log, |net.inboxes|, connection.sock;
      var payload := Request(connection, command, timeout, outcomes);
      SeenMore(before, wires, closed, net.log, |net.inboxes|, command, payload, connection.requestInFlight,
               connection.sock.None?);
      answer := payload;
      r := if payload.Ok? then parse(payload.value) else Err(payload.error);
    }

    /**
     * The same mutating request twice on one connection. If both are answered,
     * the servers have received it exactly twice, and each result is the reply
     * to its own request.
     */
    method ExecuteTwice<T>(connection: Connection, command: Command, parse: Bytes -> Result<T>, timeout: Option<real>,
                           ghost outcomes: iset<(Result<Bytes>, Link)>, ghost later: iset<(Result<Bytes>, Link)>)
      returns (r: Result<T>, s: Result<T>, ghost first: Result<Bytes>, ghost second: Result<Bytes>)
      requires connection.Valid() && Ready(connection.net.log, connection.sock)
      requires Awaits(connection, false, outcomes) && ServersAnswer(connection.net.script, false, outcomes)
      requires ServersAnswer(connection.net.script, false, later)
      requires forall o | o in outcomes && o.0.Ok? :: Expects(o.1, false, later)
      requires !command.readOnly && command.payload != Hello(connection.token).payload
      modifies connection, connection.net`pos, connection.net`now, connection.net`slept, connection.net`inboxes
      modifies connection.net`log, connection.net`dials
      ensures connection.Valid()
      ensures WellFormedLog(old(connection.net.log), old(|connection.net.inboxes|))
      ensures WellFormedLog(connection.net.log, |connection.net.inboxes|)
      ensures first.Ok? && second.Ok? ==>
        && (exists link :: (first, link) in outcomes) && (second, connection.State()) in later
        && r == parse(first.value) && s == parse(second.value)
        && Deliveries(connection.net.log, |connection.net.inboxes|, |connection.net.inboxes|, command.payload)
           == Deliveries(old(connection.net.log), old(|connection.net.inboxes|), old(|connection.net.inboxes|),
                         command.payload) + 2
    {
      ValidLogMeans(connection.net.log, |connection.net.inboxes|);
      r, first := Execute(connection, command, parse, timeout, outcomes);
      ghost var link := connection.State();
      assert first.Ok? ==> (first, link) in outcomes;
      s, second := Execute(connection, command, parse, timeout, later);
      ValidLogMeans(connection.net.log, |connection.net.inboxes|);
    }
  }
}
