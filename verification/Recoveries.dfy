/** What a call that loses its connection needs to be answered after all, and what can end it otherwise. */
module Recoveries {
  import opened Core
  import opened Framing
  import opened Reconnect
  import opened Transport
  import opened Reads
  import opened Responses
  import opened Chunked
  import opened Exchanges
  import opened Budgets

  /** What stays the same over the attempts of a call. */
  datatype Call = Call(payload: Bytes, readOnly: bool, chunked: bool, deadline: Deadline,
                       tls: bool, connectTimeout: real, hello: Bytes)

  /** What a send comes to on a connection found like this. */
  ghost predicate IsSend(p: Pulled<Bytes>, net: Network, at: Gauge, call: Call, found: Start) {
    IsAnswer(p, net, at, call.deadline, call.payload, found.maxSize, found.open, found.stream, call.chunked)
  }

  /** The flag after a send, given the flag before. */
  ghost predicate FlagAfter(net: Network, at: Gauge, call: Call, found: Start, before: bool, r: Result<Bytes>) {
    r.Err? && (before || RaisesFlag(net, at, call.deadline, call.payload, found.maxSize, found.open))
  }

  /** What one send decides: a lost connection may be tried again if no copy of a mutating command can have left. */
  ghost function Decision(policy: ReconnectPolicy, attempt: nat, readOnly: bool, inFlight: bool, r: Result<Bytes>)
    : Option<Result<Bytes>>
  {
    if r == Err(ConnectionLost) && (readOnly || !inFlight) && !policy.Exhausted(attempt + 1) then None else Some(r)
  }

  /** The time ran out, or the script did: the two ways in which a backoff raises. */
  ghost predicate BackoffFails(net: Network, deadline: Deadline, end: Gauge, e: Error) {
    || (e == Interrupted && end.pos >= |net.script|)
    || (e == Timeout && deadline.at.Some? && deadline.at.value <= end.now)
  }

  /** What ended a call: its last send, a backoff, or a reconnect that did not just lose the connection. */
  ghost predicate EndsFor(r: Result<Bytes>, net: Network, start: Gauge, end: Gauge, call: Call, left: Bytes) {
    forall k: nat {:trigger UnfoldOn(Ending, k)} | UnfoldOn(Ending, k) ::
      || (exists at, found :: Passes(net.spent, start, at) && IsSend(Pulled(r, end.pos, left), net, at, call, found))
      || (r.Err? && BackoffFails(net, call.deadline, end, r.error))
      || (r.Err? && r.error != ConnectionLost
          && exists at :: Passes(net.spent, start, at)
                          && IsConnect(Pulled(Err(r.error), end.pos, []), net, at, call.tls, call.connectTimeout,
                                       call.hello))
  }

  lemma EndsWithSend(r: Result<Bytes>, net: Network, at: Gauge, end: Gauge, call: Call, left: Bytes, found: Start)
    requires IsSend(Pulled(r, end.pos, left), net, at, call, found)
    ensures EndsFor(r, net, at, end, call, left)
  {
    assert Passes(net.spent, at, at);
  }

  lemma EndsWithBackoff(e: Error, net: Network, start: Gauge, end: Gauge, call: Call, left: Bytes)
    requires BackoffFails(net, call.deadline, end, e)
    ensures EndsFor(Err(e), net, start, end, call, left)
  {
  }

  lemma EndsWithConnect(e: Error, net: Network, start: Gauge, at: Gauge, end: Gauge, call: Call, left: Bytes)
    requires Passes(net.spent, start, at) && e != ConnectionLost
    requires IsConnect(Pulled(Err(e), end.pos, []), net, at, call.tls, call.connectTimeout, call.hello)
    ensures EndsFor(Err(e), net, start, end, call, left)
  {
  }

  lemma EndsLater(r: Result<Bytes>, net: Network, start: Gauge, round: Gauge, end: Gauge, call: Call, left: Bytes)
    requires Passes(net.spent, start, round) && EndsFor(r, net, round, end, call, left)
    ensures EndsFor(r, net, start, end, call, left)
  {
    assert UnfoldOn(Ending, 0);
    assert forall at | Passes(net.spent, round, at) :: Passes(net.spent, start, at);
  }

  // ---------- a connection lost and regained ----------

  /** Where the dial is after a connection was lost here, without a deadline: after a jitter, and a sleep if any. */
  function DialsAt(policy: ReconnectPolicy, script: seq<Choice>, lost: nat, attempt: nat): nat
    requires attempt >= 1
  {
    lost + if lost < |script| && policy.Delay(attempt, script[lost].jitter) > 0.0 then 2 else 1
  }

  /** A backoff that began here, without a deadline, ended there. */
  ghost predicate RestsUntil(policy: ReconnectPolicy, script: seq<Choice>, lost: nat, attempt: nat, dial: nat)
    requires attempt >= 1
  {
    forall k: nat {:trigger Unfold(k)} | Unfold(k) :: dial == DialsAt(policy, script, lost, attempt)
  }

  ghost predicate RestFits(policy: ReconnectPolicy, script: seq<Choice>, lost: nat, attempt: nat)
    requires attempt >= 1
  {
    forall k: nat {:trigger UnfoldOn(Rests, k)} | UnfoldOn(Rests, k) ::
      DialsAt(policy, script, lost, attempt) <= |script|
  }

  /** Without a deadline, a backoff that began here ends where it should, unless the script does not last that long. */
  ghost predicate Rested(policy: ReconnectPolicy, script: seq<Choice>, lost: nat, attempt: nat, deadline: Deadline,
                         paused: Result<Gauge>)
    requires attempt >= 1
  {
    forall k: nat {:trigger UnfoldOn(Rests, k)} | UnfoldOn(Rests, k) ::
      deadline.at.None? ==>
        && (RestFits(policy, script, lost, attempt) ==> paused.Ok?)
        && (paused.Ok? ==> RestsUntil(policy, script, lost, attempt, paused.value.pos))
  }

  /** A connection right after the greeting of the server dialled here. */
  ghost function Regained(net: Network, dial: nat, pos: nat): Start
    requires dial < |net.script|
  {
    var stream := net.script[dial].incoming;
    var limit := if Welcomes(stream) then Accepted(FirstFrame(stream).value).value.maxMessageSize else 0;
    Start(pos, true, AfterFirst(stream, DEFAULT_MAX_MESSAGE_SIZE), limit)
  }

  /** The choices that a connect and a send to such a server use up at most. */
  ghost function RegainingCost(net: Network, dial: nat, chunked: bool): nat
    requires dial < |net.script| && Welcomes(net.script[dial].incoming)
  {
    10 + FrameSize(FirstFrame(net.script[dial].incoming).value)
    + 2 + ReadingCost(ReplyAt(Regained(net, dial, 0), chunked), NO_DEADLINE)
  }

  /** A server that can be connected to here, accepts a request of this size and has a whole reply for it. */
  ghost predicate Regainable(net: Network, dial: nat, call: Call) {
    forall k: nat {:trigger UnfoldOn(Servers, k)} | UnfoldOn(Servers, k) ::
      && Connectable(net, dial, call.tls, call.connectTimeout, call.hello)
      && dial < |net.script| && FineBetween(net.script, dial, |net.script|) && Welcomes(net.script[dial].incoming)
      && |call.payload| <= Regained(net, dial, 0).maxSize && Encodable(call.payload)
      && IsReply(call.chunked, ReplyAt(Regained(net, dial, 0), call.chunked))
      && dial + RegainingCost(net, dial, call.chunked) <= |net.script|
  }

  /** The reply that such a server has. */
  ghost function ReplyRegained(net: Network, dial: nat, call: Call): Result<Bytes> {
    if dial < |net.script| then ExpectedReply(Regained(net, dial, 0), call.chunked) else Err(ConnectionLost)
  }

  ghost function SendOutcome(net: Network, at: Gauge, call: Call, found: Start): Pulled<Bytes> {
    AnswerOutcome(net, at, call.deadline, call.payload, found.maxSize, found.open, found.stream, call.chunked)
  }

  /** A send without a deadline loses the connection, with the flag down or read-only, and may be tried again. */
  ghost predicate LosesFirst(policy: ReconnectPolicy, attempt: nat, net: Network, at: Gauge, found: Start, call: Call,
                             inFlight: bool) {
    forall k: nat {:trigger UnfoldOn(Calls, k)} | UnfoldOn(Calls, k) ::
      var first := SendOutcome(net, at, call, found);
      && first.r == Err(ConnectionLost) && !policy.Exhausted(attempt + 1)
      && (call.readOnly || !FlagAfter(net, at, call, found, inFlight, first.r))
  }

  /** The place of the dial that follows. */
  ghost function NextDial(policy: ReconnectPolicy, attempt: nat, net: Network, at: Gauge, found: Start, call: Call): nat
  {
    DialsAt(policy, net.script, SendOutcome(net, at, call, found).pos, attempt + 1)
  }

  /**
   * A call without a deadline that loses its connection at the first attempt,
   * and after it a server that answers. Nothing else goes wrong.
   */
  ghost predicate Recoverable(policy: ReconnectPolicy, attempt: nat, net: Network, at: Gauge, found: Start, call: Call,
                              inFlight: bool) {
    && call.deadline == NO_DEADLINE && LosesFirst(policy, attempt, net, at, found, call, inFlight)
    && Regainable(net, NextDial(policy, attempt, net, at, found, call), call)
  }

  /** A socket that breaks under the request, whether or not the command is read-only, leaves it to be tried again. */
  lemma BrokenSendLosesFirst(policy: ReconnectPolicy, attempt: nat, net: Network, at: Gauge, found: Start, call: Call,
                             inFlight: bool)
    requires call.deadline == NO_DEADLINE && |call.payload| <= found.maxSize && Encodable(call.payload) && found.open
    requires at.pos + 1 < |net.script| && net.script[at.pos].fault == Fine && net.script[at.pos + 1].fault == Failed
    requires (call.readOnly || !inFlight) && !policy.Exhausted(attempt + 1)
    ensures LosesFirst(policy, attempt, net, at, found, call, inFlight)
    ensures NextDial(policy, attempt, net, at, found, call) == DialsAt(policy, net.script, at.pos + 2, attempt + 1)
  {
    RequestByFault(net, at, call.payload, found.maxSize);
  }

  /** So does a connection that is found closed. */
  lemma ClosedConnectionLosesFirst(policy: ReconnectPolicy, attempt: nat, net: Network, at: Gauge, found: Start,
                                   call: Call, inFlight: bool)
    requires |call.payload| <= found.maxSize && !found.open
    requires (call.readOnly || !inFlight) && !policy.Exhausted(attempt + 1)
    ensures LosesFirst(policy, attempt, net, at, found, call, inFlight)
    ensures NextDial(policy, attempt, net, at, found, call) == DialsAt(policy, net.script, at.pos, attempt + 1)
  {
    RaisesFlagIf(net, at, call.deadline, call.payload, found.maxSize, found.open);
  }

  lemma LostFirst(p: Pulled<Bytes>, policy: ReconnectPolicy, attempt: nat, net: Network, at: Gauge, found: Start,
                  call: Call, inFlight: bool)
    requires LosesFirst(policy, attempt, net, at, found, call, inFlight) && IsSend(p, net, at, call, found)
    ensures p.r == Err(ConnectionLost) && p.pos == SendOutcome(net, at, call, found).pos
    ensures Decision(policy, attempt, call.readOnly, FlagAfter(net, at, call, found, inFlight, p.r), p.r) == None
  {
    assert Unfold(0);
    assert UnfoldOn(Calls, 0);
  }

  lemma RegainedAnswers(net: Network, dial: nat, call: Call, now: Gauge, s: Start)
    requires Regainable(net, dial, call) && dial < |net.script| && Welcomes(net.script[dial].incoming)
    requires s == Regained(net, dial, now.pos)
    requires dial < now.pos <= dial + 10 + FrameSize(FirstFrame(net.script[dial].incoming).value)
    ensures Answerable(net, now, NO_DEADLINE, s, call.payload, call.chunked)
    ensures ExpectedReply(s, call.chunked) == ReplyRegained(net, dial, call)
  {
    assert UnfoldOn(Servers, 0);
    assert ReplyAt(s, call.chunked) == ReplyAt(Regained(net, dial, 0), call.chunked);
  }

  lemma RegainableMeans(net: Network, dial: nat, call: Call)
    requires Regainable(net, dial, call)
    ensures dial < |net.script| && Welcomes(net.script[dial].incoming)
    ensures Connectable(net, dial, call.tls, call.connectTimeout, call.hello)
  {
    assert UnfoldOn(Servers, 0);
  }

  /** Connecting to such a server succeeds, and the next send on it is answered. */
  lemma Regain(p: Pulled<HelloInfo>, net: Network, at: Gauge, now: Gauge, call: Call)
    requires net.Clocked() && Regainable(net, at.pos, call) && now.pos == p.pos
    requires IsConnect(p, net, at, call.tls, call.connectTimeout, call.hello)
    ensures p.r.Ok?
    ensures var s := Start(p.pos, true, p.left, p.r.value.maxMessageSize);
            && Answerable(net, now, NO_DEADLINE, s, call.payload, call.chunked)
            && ExpectedReply(s, call.chunked) == ReplyRegained(net, at.pos, call)
  {
    RegainableMeans(net, at.pos, call);
    ConnectArrives(p, net, at, call.tls, call.connectTimeout, call.hello);
    RegainedAnswers(net, at.pos, call, now, Start(p.pos, true, p.left, p.r.value.maxMessageSize));
  }

  lemma ReplyNeverLost(s: Start, chunked: bool)
    requires IsReply(chunked, ReplyAt(s, chunked))
    ensures ExpectedReply(s, chunked) != Err(ConnectionLost)
  {
    if chunked {
      var group := ReplyAt(s, chunked);
      assert WellTagged(group[|group| - 1]);
    }
  }

  /** What a send decides when nothing happens to it, and when it loses the connection. */
  lemma SendDecides(p: Pulled<Bytes>, decision: Option<Result<Bytes>>, policy: ReconnectPolicy, attempt: nat,
                    net: Network, at: Gauge, found: Start, call: Call, inFlight: bool)
    requires net.Clocked() && IsSend(p, net, at, call, found)
    requires decision
          == Decision(policy, attempt, call.readOnly, FlagAfter(net, at, call, found, inFlight, p.r), p.r)
    ensures Answerable(net, at, call.deadline, found, call.payload, call.chunked) ==>
      decision == Some(ExpectedReply(found, call.chunked))
    ensures Recoverable(policy, attempt, net, at, found, call, inFlight) ==>
      decision == None && p.pos == SendOutcome(net, at, call, found).pos
  {
    if Answerable(net, at, call.deadline, found, call.payload, call.chunked) {
      AnswerArrives(p, net, at, call.deadline, call.payload, found, call.chunked);
      var later := ReplyIsThere(net, at, call.deadline, found, call.payload, call.chunked);
      ReplyNeverLost(found, call.chunked);
    }
    if Recoverable(policy, attempt, net, at, found, call, inFlight) {
      LostFirst(p, policy, attempt, net, at, found, call, inFlight);
    }
  }

  /** The connection regained is one on which nothing will happen to the next send. */
  ghost predicate Restored(net: Network, now: Gauge, found: Start, call: Call, reply: Result<Bytes>) {
    && Answerable(net, now, NO_DEADLINE, found, call.payload, call.chunked)
    && ExpectedReply(found, call.chunked) == reply
  }

  lemma DialIsNear(net: Network, dial: nat, call: Call)
    requires Regainable(net, dial, call)
    ensures dial < |net.script|
  {
    assert UnfoldOn(Servers, 0);
  }

  /** What a recovery amounts to: a failed backoff, or whatever the reconnect raised that is no lost connection. */
  ghost predicate IsRecovery(r: Result<()>, paused: Result<Gauge>, reopened: Pulled<HelloInfo>, net: Network,
                             start: Gauge, end: Gauge, deadline: Deadline, tls: bool, timeout: real, hello: Bytes) {
    forall k: nat {:trigger UnfoldOn(Recovering, k)} | UnfoldOn(Recovering, k) ::
      match paused
      case Err(e) => r == Err(e) && BackoffFails(net, deadline, end, e)
      case Ok(at) =>
        && Passes(net.spent, start, at) && reopened.pos == end.pos
        && IsConnect(reopened, net, at, tls, timeout, hello)
        && (reopened.r.Err? ==> reopened.left == [])
        && r == if reopened.r.Ok? || reopened.r == Err(ConnectionLost) then Ok(()) else Err(reopened.r.error)
  }

  lemma RecoveryMeans(r: Result<()>, paused: Result<Gauge>, reopened: Pulled<HelloInfo>, net: Network, start: Gauge,
                      end: Gauge, deadline: Deadline, tls: bool, timeout: real, hello: Bytes)
    requires IsRecovery(r, paused, reopened, net, start, end, deadline, tls, timeout, hello)
    ensures match paused
            case Err(e) => r == Err(e) && BackoffFails(net, deadline, end, e)
            case Ok(at) =>
              && Passes(net.spent, start, at) && reopened.pos == end.pos
              && IsConnect(reopened, net, at, tls, timeout, hello)
              && (reopened.r.Err? ==> reopened.left == [])
              && r == if reopened.r.Ok? || reopened.r == Err(ConnectionLost) then Ok(()) else Err(reopened.r.error)
  {
    assert UnfoldOn(Recovering, 0);
  }

  lemma RecoveryEnds(r: Result<()>, paused: Result<Gauge>, reopened: Pulled<HelloInfo>, net: Network, start: Gauge,
                     recovering: Gauge, end: Gauge, call: Call, left: Bytes)
    requires Passes(net.spent, start, recovering)
    requires IsRecovery(r, paused, reopened, net, recovering, end, call.deadline, call.tls, call.connectTimeout,
                        call.hello)
    ensures r.Err? ==> EndsFor(Err(r.error), net, start, end, call, left)
  {
    RecoveryMeans(r, paused, reopened, net, recovering, end, call.deadline, call.tls, call.connectTimeout, call.hello);
    if paused.Err? {
      EndsWithBackoff(paused.error, net, start, end, call, left);
    } else if r.Err? {
      EndsWithConnect(r.error, net, start, paused.value, end, call, left);
    }
  }

  lemma RecoverySucceeds(paused: Result<Gauge>, reopened: Pulled<HelloInfo>, policy: ReconnectPolicy, attempt: nat,
                         net: Network, start: Gauge, recovering: Gauge, end: Gauge, found: Start, regained: Start,
                         call: Call, flag: bool)
    requires net.Clocked() && recovering.pos <= |net.script|
    requires Recoverable(policy, attempt, net, start, found, call, flag) ==>
      recovering.pos == SendOutcome(net, start, call, found).pos
    requires Rested(policy, net.script, recovering.pos, attempt + 1, call.deadline, paused)
    requires paused.Ok? ==>
      && IsConnect(reopened, net, paused.value, call.tls, call.connectTimeout, call.hello) && reopened.pos == end.pos
      && (reopened.r.Ok? ==> regained == Start(reopened.pos, true, reopened.left, reopened.r.value.maxMessageSize))
    ensures Recoverable(policy, attempt, net, start, found, call, flag) ==>
      && paused.Ok? && reopened.r.Ok?
      && Restored(net, end, regained, call,
                  ReplyRegained(net, NextDial(policy, attempt, net, start, found, call), call))
  {
    if Recoverable(policy, attempt, net, start, found, call, flag) {
      DialIsNear(net, NextDial(policy, attempt, net, start, found, call), call);
      assert paused.Ok? && paused.value.pos == NextDial(policy, attempt, net, start, found, call) by {
        assert Unfold(0) && UnfoldOn(Rests, 0);
      }
      Regain(reopened, net, paused.value, end, call);
    }
  }

  function CallDeadline(at: Gauge, timeout: Option<real>): Deadline {
    if timeout.None? then NO_DEADLINE else Deadline(Some(at.now + timeout.value))
  }

  lemma SleptWithinTimeout(at: Gauge, end: Gauge, timeout: Option<real>)
    requires SleptWithin(at, end, CallDeadline(at, timeout))
    ensures timeout.Some? && timeout.value >= 0.0 ==> end.slept - at.slept <= timeout.value
  {
    SleptMeans(at, end, CallDeadline(at, timeout));
  }

  /** A client's state between attempts: the moment, the connection as it is found, and the flag. */
  datatype Standing = Standing(at: Gauge, found: Start, inFlight: bool)

  /** One attempt goes well if nothing happens to it, and prepares the next one if it can recover. */
  ghost predicate GoesWell(policy: ReconnectPolicy, attempt: nat, net: Network, call: Call, before: Standing,
                           r: Option<Result<Bytes>>, after: Standing) {
    forall k: nat {:trigger UnfoldOn(Attempting, k)} | UnfoldOn(Attempting, k) ::
      && (Answerable(net, before.at, call.deadline, before.found, call.payload, call.chunked) ==>
            r == Some(ExpectedReply(before.found, call.chunked)))
      && (Recoverable(policy, attempt, net, before.at, before.found, call, before.inFlight) ==>
            && r.None?
            && Restored(net, after.at, after.found, call,
                        ReplyRegained(net, NextDial(policy, attempt, net, before.at, before.found, call), call)))
  }

  lemma SendGoesWell(p: Pulled<Bytes>, r: Option<Result<Bytes>>, policy: ReconnectPolicy, attempt: nat, net: Network,
                     call: Call, before: Standing, after: Standing)
    requires net.Clocked() && IsSend(p, net, before.at, call, before.found) && r.Some?
    requires r == Decision(policy, attempt, call.readOnly,
                           FlagAfter(net, before.at, call, before.found, before.inFlight, p.r), p.r)
    ensures GoesWell(policy, attempt, net, call, before, r, after)
  {
    SendDecides(p, r, policy, attempt, net, before.at, before.found, call, before.inFlight);
  }

  /** A send that lost its connection in a way that may be tried again has brought the script to this place. */
  ghost predicate LostAt(policy: ReconnectPolicy, attempt: nat, net: Network, call: Call, before: Standing, pos: nat) {
    forall k: nat {:trigger UnfoldOn(Losing, k)} | UnfoldOn(Losing, k) ::
      exists p: Pulled<Bytes> ::
        && IsSend(p, net, before.at, call, before.found) && p.pos == pos
        && Decision(policy, attempt, call.readOnly,
                    FlagAfter(net, before.at, call, before.found, before.inFlight, p.r), p.r) == None
  }

  lemma LosesAt(p: Pulled<Bytes>, policy: ReconnectPolicy, attempt: nat, net: Network, call: Call, before: Standing)
    requires IsSend(p, net, before.at, call, before.found)
    requires Decision(policy, attempt, call.readOnly,
                      FlagAfter(net, before.at, call, before.found, before.inFlight, p.r), p.r) == None
    ensures LostAt(policy, attempt, net, call, before, p.pos)
  {
  }

  lemma RecoveryGoesWell(recovered: Result<()>, paused: Result<Gauge>, reopened: Pulled<HelloInfo>,
                         policy: ReconnectPolicy, attempt: nat, net: Network, call: Call, before: Standing,
                         recovering: Gauge, after: Standing)
    requires net.Clocked() && recovering.pos <= |net.script|
    requires LostAt(policy, attempt, net, call, before, recovering.pos)
    requires IsRecovery(recovered, paused, reopened, net, recovering, after.at, call.deadline, call.tls,
                        call.connectTimeout, call.hello)
    requires Rested(policy, net.script, recovering.pos, attempt + 1, call.deadline, paused)
    requires paused.Ok? && reopened.r.Ok? ==>
      after.found == Start(reopened.pos, true, reopened.left, reopened.r.value.maxMessageSize)
    ensures GoesWell(policy, attempt, net, call, before, if recovered.Ok? then None else Some(Err(recovered.error)),
                     after)
  {
    assert exists p: Pulled<Bytes> ::
        && IsSend(p, net, before.at, call, before.found) && p.pos == recovering.pos
        && Decision(policy, attempt, call.readOnly,
                    FlagAfter(net, before.at, call, before.found, before.inFlight, p.r), p.r) == None by {
      assert UnfoldOn(Losing, 0);
    }
    var p: Pulled<Bytes> :|
      && IsSend(p, net, before.at, call, before.found) && p.pos == recovering.pos
      && Decision(policy, attempt, call.readOnly,
                  FlagAfter(net, before.at, call, before.found, before.inFlight, p.r), p.r) == None;
    RecoveryMeans(recovered, paused, reopened, net, recovering, after.at, call.deadline, call.tls, call.connectTimeout,
                  call.hello);
    SendDecides(p, None, policy, attempt, net, before.at, before.found, call, before.inFlight);
    RecoverySucceeds(paused, reopened, policy, attempt, net, before.at, recovering, after.at, before.found, after.found,
                     call, before.inFlight);
  }

  lemma RecoveryDone(recovered: Result<()>, paused: Result<Gauge>, reopened: Pulled<HelloInfo>,
                     policy: ReconnectPolicy, attempt: nat, net: Network, call: Call, before: Standing,
                     recovering: Gauge, after: Standing, left: Bytes)
    requires net.Valid() && recovering.pos <= |net.script| && Passes(net.spent, before.at, recovering)
    requires LostAt(policy, attempt, net, call, before, recovering.pos)
    requires IsRecovery(recovered, paused, reopened, net, recovering, after.at, call.deadline, call.tls,
                        call.connectTimeout, call.hello)
    requires Rested(policy, net.script, recovering.pos, attempt + 1, call.deadline, paused)
    requires paused.Ok? && reopened.r.Ok? ==>
      after.found == Start(reopened.pos, true, reopened.left, reopened.r.value.maxMessageSize)
    ensures GoesWell(policy, attempt, net, call, before, if recovered.Ok? then None else Some(Err(recovered.error)),
                     after)
    ensures recovered.Err? ==> EndsFor(Err(recovered.error), net, before.at, after.at, call, left)
  {
    RecoveryEnds(recovered, paused, reopened, net, before.at, recovering, after.at, call, left);
    RecoveryGoesWell(recovered, paused, reopened, policy, attempt, net, call, before, recovering, after);
  }

  /** A send is either the end of the call, or lost its connection. */
  lemma SendEndsOrLoses(p: Pulled<Bytes>, r: Option<Result<Bytes>>, policy: ReconnectPolicy, attempt: nat,
                        net: Network, call: Call, before: Standing, after: Standing)
    requires net.Clocked() && IsSend(p, net, before.at, call, before.found) && p.pos == after.at.pos
    requires r == Decision(policy, attempt, call.readOnly,
                           FlagAfter(net, before.at, call, before.found, before.inFlight, p.r), p.r)
    ensures r.Some? ==> GoesWell(policy, attempt, net, call, before, r, after)
    ensures r.Some? ==> EndsFor(r.value, net, before.at, after.at, call, p.left)
    ensures r.None? ==> LostAt(policy, attempt, net, call, before, after.at.pos)
  {
    if r.Some? {
      EndsWithSend(p.r, net, before.at, after.at, call, p.left, before.found);
      SendGoesWell(p, r, policy, attempt, net, call, before, after);
    } else {
      LosesAt(p, policy, attempt, net, call, before);
    }
  }

  /** A call that goes well, after so many attempts. */
  ghost predicate OnTrack(policy: ReconnectPolicy, net: Network, call: Call, start: Standing, attempt: nat,
                          now: Standing) {
    forall k: nat {:trigger UnfoldOn(Attempting, k)} | UnfoldOn(Attempting, k) ::
      && (Answerable(net, start.at, call.deadline, start.found, call.payload, call.chunked) ==>
            attempt == 0 && now == start)
      && (Recoverable(policy, 0, net, start.at, start.found, call, start.inFlight) ==>
            || (attempt == 0 && now == start)
            || (attempt == 1
                && Restored(net, now.at, now.found, call,
                            ReplyRegained(net, NextDial(policy, 0, net, start.at, start.found, call), call))))
  }

  /**
   * A call to which nothing happens returns the next reply, after one send. One
   * that loses its connection at first and can recover returns the reply of the
   * server it finds then, after two.
   */
  ghost predicate Fulfilled(policy: ReconnectPolicy, net: Network, call: Call, start: Standing, r: Result<Bytes>,
                            a: Effort, b: Effort) {
    forall k: nat {:trigger UnfoldOn(Attempting, k)} | UnfoldOn(Attempting, k) ::
      && (Answerable(net, start.at, call.deadline, start.found, call.payload, call.chunked) ==>
            r == ExpectedReply(start.found, call.chunked) && b.sends == a.sends + 1)
      && (Recoverable(policy, 0, net, start.at, start.found, call, start.inFlight) ==>
            && r == ReplyRegained(net, NextDial(policy, 0, net, start.at, start.found, call), call)
            && b.sends == a.sends + 2)
  }

  lemma StartsOnTrack(policy: ReconnectPolicy, net: Network, call: Call, start: Standing)
    ensures OnTrack(policy, net, call, start, 0, start)
  {
  }

  lemma StaysOnTrack(policy: ReconnectPolicy, net: Network, call: Call, start: Standing, attempt: nat, now: Standing,
                     r: Option<Result<Bytes>>, next: Standing, a: Effort, c: Effort)
    requires OnTrack(policy, net, call, start, attempt, now)
    requires GoesWell(policy, attempt, net, call, now, r, next) && c.sends == a.sends + attempt + 1
    ensures r.None? ==> OnTrack(policy, net, call, start, attempt + 1, next)
    ensures r.Some? ==> Fulfilled(policy, net, call, start, r.value, a, c)
  {
    assert UnfoldOn(Attempting, 0);
  }

  /** The same without the effort: what is returned when nothing happens, and when the connection can be regained. */
  ghost predicate Served(policy: ReconnectPolicy, net: Network, call: Call, start: Standing, r: Result<Bytes>) {
    forall k: nat {:trigger UnfoldOn(Attempting, k)} | UnfoldOn(Attempting, k) ::
      && (Answerable(net, start.at, call.deadline, start.found, call.payload, call.chunked) ==>
            r == ExpectedReply(start.found, call.chunked))
      && (Recoverable(policy, 0, net, start.at, start.found, call, start.inFlight) ==>
            r == ReplyRegained(net, NextDial(policy, 0, net, start.at, start.found, call), call))
  }

  lemma FulfilledIsServed(policy: ReconnectPolicy, net: Network, call: Call, start: Standing, r: Result<Bytes>,
                          a: Effort, b: Effort)
    requires Fulfilled(policy, net, call, start, r, a, b)
    ensures Served(policy, net, call, start, r)
  {
    assert UnfoldOn(Attempting, 0);
  }

  lemma NothingServed(policy: ReconnectPolicy, net: Network, call: Call, start: Standing, r: Result<Bytes>)
    requires start.at.pos >= |net.script| && call.deadline.at.Some?
    ensures Served(policy, net, call, start, r)
  {
    assert UnfoldOn(Calls, 0);
  }

  /** Where a call with this timeout stands once it has its deadline. */
  ghost function CallStart(net: Network, before: Standing, timeout: Option<real>): Standing {
    if timeout.None? then before
    else
      var at := net.Later(before.at, 1);
      Standing(at, before.found.(pos := at.pos), before.inFlight)
  }

  /**
   * What a call with this timeout comes to: the deadline counts from the first
   * reading of the clock; if it goes well it is answered, and otherwise it raises
   * what its last send, a backoff or a reconnect did.
   */
  ghost predicate Concludes(policy: ReconnectPolicy, net: Network, call: Call, before: Standing, timeout: Option<real>,
                            r: Result<Bytes>, end: Gauge, left: Bytes) {
    forall k: nat {:trigger UnfoldOn(Concluding, k)} | UnfoldOn(Concluding, k) ::
      var start := CallStart(net, before, timeout);
      var timed := call.(deadline := CallDeadline(start.at, timeout));
      Served(policy, net, timed, start, r) && EndsFor(r, net, start.at, end, timed, left)
  }

  lemma CallConcludes(policy: ReconnectPolicy, net: Network, call: Call, before: Standing, timeout: Option<real>,
                      start: Standing, r: Result<Bytes>, end: Gauge, left: Bytes, a: Effort, b: Effort)
    requires start == CallStart(net, before, timeout) && call.deadline == CallDeadline(start.at, timeout)
    requires Fulfilled(policy, net, call, start, r, a, b) && EndsFor(r, net, start.at, end, call, left)
    ensures Concludes(policy, net, call, before, timeout, r, end, left)
  {
    FulfilledIsServed(policy, net, call, start, r, a, b);
  }

  /** A call that cannot even begin is no exception. */
  lemma NeverBegins(policy: ReconnectPolicy, net: Network, call: Call, before: Standing, timeout: Option<real>,
                    end: Gauge, left: Bytes)
    requires timeout.Some? && before.at.pos >= |net.script| && end.pos >= |net.script|
    ensures Concludes(policy, net, call, before, timeout, Err(Interrupted), end, left)
  {
    var start := CallStart(net, before, timeout);
    var timed := call.(deadline := CallDeadline(start.at, timeout));
    NothingServed(policy, net, timed, start, Err(Interrupted));
    EndsWithBackoff(Interrupted, net, start.at, end, timed, left);
  }

  /** A call is not hurried exactly if its timeout is longer than all the operations to come take together. */
  lemma UnhurriedIffTimeoutLasts(net: Network, before: Standing, timeout: real)
    requires before.at.pos < |net.script|
    ensures var start := CallStart(net, before, Some(timeout));
            Unhurried(net, start.at, CallDeadline(start.at, Some(timeout))) <==>
            net.spent(|net.script|) - net.spent(before.at.pos + 1) < timeout
  {
  }

  /** A call after so many attempts, each of which lost its connection and left budget for another. */
  ghost predicate Underway(policy: ReconnectPolicy, net: Network, call: Call, start: Standing, a: Effort, attempt: nat,
                           now: Standing, b: Effort) {
    forall k: nat {:trigger UnfoldOn(Attempting, k)} | UnfoldOn(Attempting, k) ::
      && OnTrack(policy, net, call, start, attempt, now)
      && Turns(policy, a, b, call.payload == call.hello, attempt)
      && SleptWithin(start.at, now.at, call.deadline) && RoundsWithin(start.at, call.deadline, net.least, attempt)
  }

  lemma CallBegins(policy: ReconnectPolicy, net: Network, call: Call, start: Standing, a: Effort)
    ensures Underway(policy, net, call, start, a, 0, start, a)
  {
    StartsOnTrack(policy, net, call, start);
    NoTurns(policy, a, call.payload == call.hello);
  }

  lemma IsUnderway(policy: ReconnectPolicy, net: Network, call: Call, start: Standing, a: Effort, attempt: nat,
                   now: Standing, b: Effort)
    requires Underway(policy, net, call, start, a, attempt, now, b)
    ensures OnTrack(policy, net, call, start, attempt, now)
    ensures Turns(policy, a, b, call.payload == call.hello, attempt)
    ensures SleptWithin(start.at, now.at, call.deadline) && RoundsWithin(start.at, call.deadline, net.least, attempt)
  {
    assert UnfoldOn(Attempting, 0);
  }

  lemma UnderwayWith(policy: ReconnectPolicy, net: Network, call: Call, start: Standing, a: Effort, attempt: nat,
                     now: Standing, b: Effort)
    requires OnTrack(policy, net, call, start, attempt, now)
    requires Turns(policy, a, b, call.payload == call.hello, attempt)
    requires SleptWithin(start.at, now.at, call.deadline) && RoundsWithin(start.at, call.deadline, net.least, attempt)
    ensures Underway(policy, net, call, start, a, attempt, now, b)
  {
  }

  /** One more attempt ends the call, within every budget, or keeps it underway. */
  lemma AttemptMade(policy: ReconnectPolicy, net: Network, call: Call, start: Standing, a: Effort, attempt: nat,
                    now: Standing, b: Effort, r: Option<Result<Bytes>>, next: Standing, c: Effort, left: Bytes)
    requires net.Valid() && now.at.pos <= next.at.pos <= |net.script| && start.at.pos + attempt <= now.at.pos
    requires Passes(net.spent, start.at, now.at) && Passes(net.spent, now.at, next.at)
    requires Underway(policy, net, call, start, a, attempt, now, b)
    requires GoesWell(policy, attempt, net, call, now, r, next) && Turn(b, c, call.payload == call.hello, r)
    requires SleptWithin(now.at, next.at, call.deadline)
    requires r.None? && call.deadline.at.Some? ==> now.at.now + net.least <= call.deadline.at.value
    requires policy.Exhausted(attempt + 1) ==> c.dials == b.dials && r.Some?
    requires r.Some? ==> EndsFor(r.value, net, now.at, next.at, call, left)
    ensures r.None? ==> Underway(policy, net, call, start, a, attempt + 1, next, c)
    ensures r.Some? ==>
      && EndsFor(r.value, net, start.at, next.at, call, left) && Fulfilled(policy, net, call, start, r.value, a, c)
      && InBudget(policy, a, c, call.payload == call.hello, r.value)
      && InTime(start.at, call.deadline, net.least, a, c)
    ensures SleptWithin(start.at, next.at, call.deadline)
    ensures policy.Exhausted(attempt + 1) ==> SpentUp(policy, a, c)
  {
    IsUnderway(policy, net, call, start, a, attempt, now, b);
    OneMoreTurn(policy, a, b, c, call.payload == call.hello, attempt, r);
    StaysOnTrack(policy, net, call, start, attempt, now, r, next, a, c);
    OneMoreAttempt(net, start.at, now.at, next.at, call.deadline, attempt, r.None?);
    if r.Some? {
      EndsLater(r.value, net, start.at, now.at, next.at, call, left);
      StaysInTime(start.at, call.deadline, net.least, a, c, attempt);
    } else {
      UnderwayWith(policy, net, call, start, a, attempt + 1, next, c);
    }
  }
}
