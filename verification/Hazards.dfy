/**
 * Runs in which the client, as written, goes wrong: each starts from a sound
 * connection and reaches a state that the guarantees elsewhere exclude.
 */
module Hazards {
  import opened Core
  import opened Framing
  import opened Reconnect
  import opened Transport
  import opened Reads
  import opened Exchanges
  import opened Connections
  import opened Pairing
  import opened Delivery

  // ---------- a frame that nobody sent ----------

  /** A `recv` that hands over at least so many bytes, if they are there. */
  predicate Delivers(script: seq<Choice>, pos: nat, size: nat) {
    pos < |script| && script[pos].fault == Fine && script[pos].amount >= size
  }

  /** The outcome of setting the time left for a poll begun at this moment. */
  ghost function PollTimed(net: Network, at: Gauge, interval: real): Timed {
    TimeoutOutcome(net, net.Later(at, 1), PollDeadline(net, at, interval))
  }

  /** The header arrives in one piece, but no payload byte before the interval ends. */
  ghost predicate PollLosesHeader(net: Network, at: Gauge, interval: real) {
    var timed := PollTimed(net, at, interval);
    && at.pos < |net.script| && timed.r.Ok? && Delivers(net.script, timed.pos, HEADER_SIZE)
    && timed.pos + 1 < |net.script| && net.script[timed.pos + 1].fault == TimedOut
  }

  ghost function AfterLostHeader(net: Network, at: Gauge, interval: real): Gauge {
    var lost := PollTimed(net, at, interval).pos + 2;
    net.Later(at, if at.pos <= lost then lost - at.pos else 0)
  }

  /** Header and payload arrive in one piece each. */
  ghost predicate PollGetsFrame(net: Network, at: Gauge, interval: real, size: nat) {
    var timed := PollTimed(net, at, interval);
    && at.pos < |net.script| && timed.r.Ok? && Delivers(net.script, timed.pos, HEADER_SIZE)
    && Delivers(net.script, timed.pos + 1, size)
  }

  lemma HeaderInOnePiece(script: seq<Choice>, pos: nat, payload: Bytes, later: Bytes, maxSize: nat)
    requires Encodable(payload) && |payload| <= maxSize && Delivers(script, pos, HEADER_SIZE)
    ensures FramePull(script, pos, EncodeFrame(payload) + later, maxSize)
         == Pull(script, pos + 1, payload + later, |payload|, [])
  {
    var inbox, header := EncodeFrame(payload) + later, EncodeSize(|payload|);
    SizeRoundTrip(|payload|, maxSize);
    assert inbox[..HEADER_SIZE] == header && inbox[HEADER_SIZE..] == payload + later;
    assert PullSome(script, pos, inbox, HEADER_SIZE) == Pulled(Ok(header), pos + 1, payload + later);
    EmptyIsNeutral(header);
    assert Pull(script, pos, inbox, HEADER_SIZE, []) == Pulled(Ok(header), pos + 1, payload + later);
  }

  lemma PayloadInOnePiece(script: seq<Choice>, pos: nat, payload: Bytes, later: Bytes)
    requires Delivers(script, pos, |payload|)
    ensures var p := Pull(script, pos, payload + later, |payload|, []);
            p.r == Ok(payload) && p.left == later
  {
    TailOf(payload, later);
    EmptyIsNeutral(payload);
    EmptyIsNeutral(later);
    if payload != [] {
      assert PullSome(script, pos, payload + later, |payload|) == Pulled(Ok(payload), pos + 1, later);
    }
  }

  lemma LostHeaderOutcome(net: Network, at: Gauge, interval: real, payload: Bytes, later: Bytes, maxSize: nat)
    requires Encodable(payload) && 0 < |payload| <= maxSize && PollLosesHeader(net, at, interval)
    ensures PollOutcome(net, at, Some(interval), EncodeFrame(payload) + later, maxSize)
         == Pulled(Ok(None), PollTimed(net, at, interval).pos + 2, payload + later)
  {
    var pos := PollTimed(net, at, interval).pos;
    HeaderInOnePiece(net.script, pos, payload, later, maxSize);
    PullStarts(net.script, pos + 1, payload + later, |payload|);
  }

  lemma LosesHeader(p: Pulled<Option<Bytes>>, net: Network, at: Gauge, interval: real, payload: Bytes, later: Bytes,
                    maxSize: nat)
    requires Encodable(payload) && 0 < |payload| <= maxSize && PollLosesHeader(net, at, interval)
    requires IsPoll(p, net, at, Some(interval), EncodeFrame(payload) + later, maxSize)
    ensures p == Pulled(Ok(None), PollTimed(net, at, interval).pos + 2, payload + later)
  {
    LostHeaderOutcome(net, at, interval, payload, later, maxSize);
    assert Unfold(0);
  }

  lemma FrameOutcomeInPieces(net: Network, at: Gauge, interval: real, payload: Bytes, later: Bytes, maxSize: nat)
    requires Encodable(payload) && |payload| <= maxSize && PollGetsFrame(net, at, interval, |payload|)
    ensures var p := PollOutcome(net, at, Some(interval), EncodeFrame(payload) + later, maxSize);
            p.r == Ok(Some(payload)) && p.left == later
  {
    var pos := PollTimed(net, at, interval).pos;
    HeaderInOnePiece(net.script, pos, payload, later, maxSize);
    PayloadInOnePiece(net.script, pos + 1, payload, later);
  }

  lemma GetsFrame(p: Pulled<Option<Bytes>>, net: Network, at: Gauge, interval: real, payload: Bytes, later: Bytes,
                  maxSize: nat)
    requires Encodable(payload) && |payload| <= maxSize && PollGetsFrame(net, at, interval, |payload|)
    requires IsPoll(p, net, at, Some(interval), EncodeFrame(payload) + later, maxSize)
    ensures p.r == Ok(Some(payload)) && p.left == later
  {
    FrameOutcomeInPieces(net, at, interval, payload, later, maxSize);
    assert Unfold(0);
  }

  method PollTimesOut(connection: Connection, interval: real, payload: Bytes, later: Bytes)
    returns (r: Result<Option<Bytes>>)
    requires connection.Valid() && connection.sock.Some?
    requires Encodable(payload) && 0 < |payload| <= connection.maxMessageSize
    requires connection.Unread() == EncodeFrame(payload) + later
    requires PollLosesHeader(connection.net, connection.net.Time(), interval)
    modifies connection.net`pos, connection.net`now, connection.net`inboxes
    ensures connection.Valid() && r == Ok(None) && connection.Unread() == payload + later
    ensures connection.net.Since(old(connection.net.Time()))
    ensures connection.net.pos == old(PollTimed(connection.net, connection.net.Time(), interval).pos) + 2
  {
    ghost var net, at := connection.net, connection.net.Time();
    r := connection.NextFrame(Some(interval));
    LosesHeader(Pulled(r, net.pos, connection.Unread()), net, at, interval, payload, later, connection.maxMessageSize);
  }

  method PollSucceeds(connection: Connection, interval: real, payload: Bytes, later: Bytes)
    returns (r: Result<Option<Bytes>>)
    requires connection.Valid() && connection.sock.Some?
    requires Encodable(payload) && |payload| <= connection.maxMessageSize
    requires connection.Unread() == EncodeFrame(payload) + later
    requires PollGetsFrame(connection.net, connection.net.Time(), interval, |payload|)
    modifies connection.net`pos, connection.net`now, connection.net`inboxes
    ensures connection.Valid() && r == Ok(Some(payload)) && connection.Unread() == later
  {
    ghost var net, at := connection.net, connection.net.Time();
    r := connection.NextFrame(Some(interval));
    GetsFrame(Pulled(r, net.pos, connection.Unread()), net, at, interval, payload, later, connection.maxMessageSize);
  }

  /**
   * A poll interval that ends between a header and its payload. The payload is
   * a frame in itself, and the next poll yields that frame, which nobody sent.
   */
  method PollForgesFrame(connection: Connection, interval: real, inner: Bytes, later: Bytes)
    returns (first: Result<Option<Bytes>>, second: Result<Option<Bytes>>)
    requires connection.Valid() && connection.sock.Some?
    requires Encodable(inner) && FrameSize(inner) < SIZE_LIMIT && FrameSize(inner) <= connection.maxMessageSize
    requires connection.Unread() == EncodeFrame(EncodeFrame(inner)) + later
    requires PollLosesHeader(connection.net, connection.net.Time(), interval)
    requires PollGetsFrame(connection.net, AfterLostHeader(connection.net, connection.net.Time(), interval), interval,
                           |inner|)
    modifies connection.net`pos, connection.net`now, connection.net`inboxes
    ensures connection.Valid() && first == Ok(None) && second == Ok(Some(inner)) && connection.Unread() == later
  {
    ghost var at := connection.net.Time();
    first := PollTimesOut(connection, interval, EncodeFrame(inner), later);
    NothingSlept(connection.net, at, connection.net.Time());
    second := PollSucceeds(connection, interval, inner, later);
  }

  /** Four bytes arrive in one piece. */
  ghost predicate PollGetsHeader(net: Network, at: Gauge, interval: real) {
    var timed := PollTimed(net, at, interval);
    at.pos < |net.script| && timed.r.Ok? && Delivers(net.script, timed.pos, HEADER_SIZE)
  }

  /** The least size that a header with this first byte can stand for. */
  function LeadingSize(stream: Bytes): nat
    requires stream != []
  {
    var first: int := stream[0];
    first * 0x100_0000
  }

  lemma FirstDigitCounts(header: Bytes)
    requires |header| == HEADER_SIZE
    ensures FromBigEndian(header) >= LeadingSize(header)
  {
    assert header[..3][..2] == header[..2] && header[..2][..1] == header[..1] && header[..1][..0] == [];
    var first: int := header[0];
    assert FromBigEndian(header[..1]) == first;
    assert FromBigEndian(header[..2]) >= first * 0x100;
    assert FromBigEndian(header[..3]) >= first * 0x1_0000;
  }

  lemma TooLargeOutcome(net: Network, at: Gauge, interval: real, stream: Bytes, maxSize: nat)
    requires PollGetsHeader(net, at, interval) && |stream| >= HEADER_SIZE && maxSize < LeadingSize(stream)
    ensures PollOutcome(net, at, Some(interval), stream, maxSize)
         == Pulled(Err(Corrupted), PollTimed(net, at, interval).pos + 1, stream[HEADER_SIZE..])
  {
    var pos, header := PollTimed(net, at, interval).pos, stream[..HEADER_SIZE];
    assert PullSome(net.script, pos, stream, HEADER_SIZE) == Pulled(Ok(header), pos + 1, stream[HEADER_SIZE..]);
    EmptyIsNeutral(header);
    FirstDigitCounts(header);
  }

  lemma GetsTooLarge(p: Pulled<Option<Bytes>>, net: Network, at: Gauge, interval: real, stream: Bytes, maxSize: nat)
    requires PollGetsHeader(net, at, interval) && |stream| >= HEADER_SIZE && maxSize < LeadingSize(stream)
    requires IsPoll(p, net, at, Some(interval), stream, maxSize)
    ensures p.r == Err(Corrupted) && p.left == stream[HEADER_SIZE..]
  {
    TooLargeOutcome(net, at, interval, stream, maxSize);
    assert Unfold(0);
  }

  method PollRefuses(connection: Connection, interval: real) returns (r: Result<Option<Bytes>>)
    requires connection.Valid() && connection.sock.Some? && |connection.Unread()| >= HEADER_SIZE
    requires connection.maxMessageSize < LeadingSize(connection.Unread())
    requires PollGetsHeader(connection.net, connection.net.Time(), interval)
    modifies connection.net`pos, connection.net`now, connection.net`inboxes
    ensures connection.Valid() && r == Err(Corrupted) && connection.Unread() == old(connection.Unread())[HEADER_SIZE..]
  {
    ghost var net, at, stream := connection.net, connection.net.Time(), connection.Unread();
    r := connection.NextFrame(Some(interval));
    GetsTooLarge(Pulled(r, net.pos, connection.Unread()), net, at, interval, stream, connection.maxMessageSize);
  }

  /**
   * The same for a payload that is text: its first four bytes are read as a size
   * far beyond the limit, and the stream ends although nothing on the wire was
   * wrong. An event starts with "ok|", so this is what happens to events.
   */
  method PollCorruptsStream(connection: Connection, interval: real, payload: Bytes, later: Bytes)
    returns (first: Result<Option<Bytes>>, second: Result<Option<Bytes>>)
    requires connection.Valid() && connection.sock.Some?
    requires Encodable(payload) && 0 < |payload| <= connection.maxMessageSize < LeadingSize(payload)
    requires |payload| + |later| >= HEADER_SIZE
    requires connection.Unread() == EncodeFrame(payload) + later
    requires PollLosesHeader(connection.net, connection.net.Time(), interval)
    requires PollGetsHeader(connection.net, AfterLostHeader(connection.net, connection.net.Time(), interval), interval)
    modifies connection.net`pos, connection.net`now, connection.net`inboxes
    ensures connection.Valid() && first == Ok(None) && second == Err(Corrupted)
    ensures connection.Unread() == (payload + later)[HEADER_SIZE..]
  {
    ghost var at := connection.net.Time();
    first := PollTimesOut(connection, interval, payload, later);
    NothingSlept(connection.net, at, connection.net.Time());
    second := PollRefuses(connection, interval);
  }

  // ---------- a reply that is owed ----------

  /** The moment at which a request started now has been written. */
  ghost function AfterWrite(net: Network, at: Gauge, deadline: Deadline): Gauge {
    var written := TimeoutOutcome(net, at, deadline).pos + 1;
    net.Later(at, if at.pos <= written then written - at.pos else 0)
  }

  method WritesOnly(connection: Connection, command: Command, deadline: Deadline)
    requires connection.Valid() && connection.sock.Some?
    requires connection.WriteReachesSocket(command.payload, deadline)
    requires connection.WriteChoice(deadline).fault == Fine
    modifies connection`requestInFlight, connection.net`pos, connection.net`now, connection.net`log
    ensures connection.Valid() && connection.requestInFlight
    ensures connection.WroteWhole(old(connection.net.log), command.payload)
    ensures connection.net.Since(old(connection.net.Time()))
    ensures connection.net.pos == old(TimeoutOutcome(connection.net, connection.net.Time(), deadline).pos) + 1
  {
    var written := connection.WriteRequest(command, deadline);
  }

  method ReadTimesOut(connection: Connection, deadline: Deadline) returns (lost: Result<Bytes>)
    requires connection.Valid() && connection.sock.Some?
    requires RecvTimesOut(connection.net, connection.net.Time(), deadline)
    modifies connection.net`pos, connection.net`now, connection.net`inboxes
    ensures connection.Valid() && lost == Err(Timeout) && connection.Unread() == old(connection.Unread())
  {
    ghost var net, at, inbox := connection.net, connection.net.Time(), connection.Unread();
    lost := connection.ReadFrame(deadline);
    RecvTimesOutMeans(Pulled(lost, net.pos, connection.Unread()), net, at, deadline, inbox, connection.maxMessageSize);
  }

  /** The two halves of `send`, up to the exception: the request leaves whole, then the first `recv` times out. */
  method LosesReply(connection: Connection, command: Command, deadline: Deadline) returns (lost: Result<Bytes>)
    requires connection.Valid() && connection.sock.Some?
    requires connection.WriteReachesSocket(command.payload, deadline)
    requires connection.WriteChoice(deadline).fault == Fine
    requires RecvTimesOut(connection.net, AfterWrite(connection.net, connection.net.Time(), deadline), deadline)
    modifies connection`requestInFlight, connection.net`pos, connection.net`now, connection.net`log
    modifies connection.net`inboxes
    ensures connection.Valid() && lost == Err(Timeout) && connection.requestInFlight
    ensures connection.WroteWhole(old(connection.net.log), command.payload)
    ensures connection.Unread() == old(connection.Unread())
  {
    ghost var start := connection.net.Time();
    WritesOnly(connection, command, deadline);
    NothingSlept(connection.net, start, connection.net.Time());
    lost := ReadTimesOut(connection, deadline);
  }

  lemma TakesFirst(a: Link, b: Link, response: Bytes, owed: Bytes, later: Bytes)
    requires Exchanged(a, b, Exchange(false, [response], Ok(response)))
    requires Encodable(owed) && a.unread == EncodeFrame(owed) + later
    ensures response == owed && b.unread == later && !b.inFlight
  {
    assert Unfold(0);
    assert EncodeAll([response]) == EncodeFrame(response);
    FrameIsInjective(owed, response, later, b.unread);
  }

  /**
   * A call whose request left whole and whose reply had not begun to arrive
   * when its time ran out. The socket stays open and the flag up. The next call
   * on the connection gets the reply of the first one, takes the flag down, and
   * leaves its own reply to whoever comes next.
   */
  method LateReply(connection: Connection, first: Command, second: Command, deadline: Deadline, owed: Bytes, own: Bytes,
                   later: Bytes)
    returns (lost: Result<Bytes>, reply: Result<Bytes>)
    requires connection.Valid() && connection.sock.Some? && !connection.requestInFlight
    requires Encodable(owed) && Encodable(own)
    requires connection.Unread() == EncodeFrame(owed) + (EncodeFrame(own) + later)
    requires connection.WriteReachesSocket(first.payload, deadline) && connection.WriteChoice(deadline).fault == Fine
    requires RecvTimesOut(connection.net, AfterWrite(connection.net, connection.net.Time(), deadline), deadline)
    modifies connection`requestInFlight, connection.net`pos, connection.net`now, connection.net`log
    modifies connection.net`inboxes
    ensures connection.Valid() && lost == Err(Timeout)
    ensures reply.Ok? ==> reply == Ok(owed) && !connection.requestInFlight
    ensures reply.Ok? ==> connection.Unread() == EncodeFrame(own) + later
  {
    lost := LosesReply(connection, first, deadline);
    ghost var before := connection.State();
    reply := connection.Send(second, NO_DEADLINE);
    if reply.Ok? {
      TakesFirst(before, connection.State(), reply.value, owed, EncodeFrame(own) + later);
    }
  }

  // ---------- a request that broke off ----------

  lemma WroteTwo(before: seq<Write>, middle: seq<Write>, after: seq<Write>, wire: nat, x: Bytes, y: Bytes)
    requires Attempted(before, middle, wire, x) && Attempted(middle, after, wire, y)
    ensures after == before + [Last(middle), Last(after)]
  {
    AttemptedMeans(before, middle, wire, x);
    AttemptedMeans(middle, after, wire, y);
  }

  method BreaksOff(connection: Connection, command: Command, deadline: Deadline) returns (r: Result<()>)
    requires connection.Valid() && connection.sock.Some?
    requires connection.WriteReachesSocket(command.payload, deadline)
    requires connection.WriteChoice(deadline).fault == TimedOut
    requires 0 < connection.WriteChoice(deadline).amount < FrameSize(command.payload)
    modifies connection`requestInFlight, connection.net`pos, connection.net`now, connection.net`log
    ensures connection.Valid() && r == Err(Timeout) && connection.requestInFlight
    ensures Attempted(old(connection.net.log), connection.net.log, connection.sock.value, command.payload)
    ensures Last(connection.net.log).sent == old(connection.WriteChoice(deadline).amount)
    ensures connection.net.pos == old(TimeoutOutcome(connection.net, connection.net.Time(), deadline).pos) + 1
  {
    r := connection.WriteRequest(command, deadline);
  }

  /** A request without deadline on a socket that takes it. */
  method WriteWhole(connection: Connection, command: Command) returns (r: Result<()>)
    requires connection.Valid() && connection.sock.Some? && Encodable(command.payload)
    requires |command.payload| <= connection.maxMessageSize
    requires Delivers(connection.net.script, connection.net.pos, 0)
    requires Delivers(connection.net.script, connection.net.pos + 1, 0)
    modifies connection`requestInFlight, connection.net`pos, connection.net`now, connection.net`log
    ensures connection.Valid() && r == Ok(())
    ensures connection.WroteWhole(old(connection.net.log), command.payload)
  {
    r := connection.WriteRequest(command, NO_DEADLINE);
  }

  /**
   * A request of which only a part left before its time ran out, and the next
   * one, written whole on the same socket. The flag is up in between and the
   * socket open, so the pool hands the connection out again. The server never
   * receives the second request.
   */
  method BrokenOffRequest(connection: Connection, first: Command, second: Command, deadline: Deadline)
    returns (broken: Result<()>, written: Result<()>)
    requires connection.Valid() && connection.sock.Some? && CleanOn(connection.net.log, connection.sock.value)
    requires ZeroFree(second.payload) && |first.payload| < 0x100_0000
    requires 0 < |second.payload| <= connection.maxMessageSize && |second.payload| < 0x100_0000
    requires connection.WriteReachesSocket(first.payload, deadline)
    requires connection.WriteChoice(deadline).fault == TimedOut
    requires 0 < connection.WriteChoice(deadline).amount < FrameSize(first.payload)
    requires var next := TimeoutOutcome(connection.net, connection.net.Time(), deadline).pos + 1;
             Delivers(connection.net.script, next, 0) && Delivers(connection.net.script, next + 1, 0)
    modifies connection`requestInFlight, connection.net`pos, connection.net`now, connection.net`log
    ensures connection.Valid() && broken == Err(Timeout) && written == Ok(()) && connection.sock.Some?
    ensures Last(connection.net.log).payload == second.payload && Whole(Last(connection.net.log))
    ensures WellFormedLog(old(connection.net.log), |connection.net.inboxes|)
    ensures WellFormedLog(connection.net.log, |connection.net.inboxes|)
    ensures Count(Received(connection.net.log, |connection.net.inboxes|, connection.sock.value), second.payload)
         <= Count(Received(old(connection.net.log), |connection.net.inboxes|, connection.sock.value), second.payload)
  {
    ghost var net, before, wires := connection.net, connection.net.log, |connection.net.inboxes|;
    ValidLogMeans(before, wires);
    broken := BreaksOff(connection, first, deadline);
    ghost var middle := net.log;
    written := WriteWhole(connection, second);
    ValidLogMeans(net.log, wires);
    WroteTwo(before, middle, net.log, connection.sock.value, first.payload, second.payload);
    NextRequestArrivesIff(before, wires, Last(middle), Last(net.log));
  }
}
