/** One connection: the request/response exchange over a socket and the flag that guards retries. */
module Connections {
  import opened Core
  import opened Text
  import opened Framing
  import opened Reconnect
  import opened Transport
  import opened Reads
  import opened Responses
  import opened Chunked
  import opened Exchanges

  /** `HELLO 1`, or `HELLO 1 AUTH <token>` when there is a non-empty token. */
  function Hello(token: Option<Bytes>): Command {
    var plain: Bytes := [72, 69, 76, 76, 79, 32, 49];
    var auth: Bytes := [32, 65, 85, 84, 72, 32];
    Command(if token.Some? && token.value != [] then plain + auth + token.value else plain, true)
  }

  lemma HelloText(token: Bytes)
    ensures Hello(None).payload == Hello(Some([])).payload == Ascii("HELLO 1")
    ensures token != [] ==> Hello(Some(token)).payload == Ascii("HELLO 1 AUTH ") + token
  {
  }

  /** The number of requests started on a socket. */
  ghost function RequestsOn(log: seq<Write>, wire: nat): nat {
    if log == [] then 0
    else RequestsOn(log[..|log| - 1], wire) + if log[|log| - 1].wire == wire then 1 else 0
  }

  lemma OneMoreRequest(before: seq<Write>, after: seq<Write>, wire: nat, payload: Bytes)
    requires Attempted(before, after, wire, payload)
    ensures RequestsOn(after, wire) == RequestsOn(before, wire) + 1
  {
    AttemptedMeans(before, after, wire, payload);
  }

  lemma {:induction false} NothingAskedYet(log: seq<Write>, wires: nat)
    requires ValidLog(log, wires)
    ensures RequestsOn(log, wires) == 0
  {
    if log != [] {
      NothingAskedYet(log[..|log| - 1], wires);
    }
  }

  /** One socket as the caller sees it: requests started, replies still to be read, the flag. */
  datatype Link = Link(requests: nat, unread: Bytes, inFlight: bool)

  /** A call on a link: what kind of reply it reads, the frames it took, how it ended. */
  datatype Exchange = Exchange(chunked: bool, frames: seq<Bytes>, result: Result<Bytes>)

  /** Frames read so far from `inbox`, none of which ends the reply. */
  ghost predicate Collected(inbox: Bytes, frames: seq<Bytes>, unread: Bytes) {
    && (forall f <- frames :: Encodable(f) && WellTagged(f) && Continues(f))
    && inbox == EncodeAll(frames) + unread
  }

  lemma NothingCollected(inbox: Bytes)
    ensures Collected(inbox, [], inbox)
  {
    EmptyIsNeutral(inbox);
  }

  /** A complete chunked reply taken from the head of `inbox`. */
  ghost predicate TookGroup(inbox: Bytes, frames: seq<Bytes>, unread: Bytes) {
    && IsGroup(frames)
    && (forall f <- frames :: Encodable(f))
    && inbox == EncodeAll(frames) + unread
  }

  /** Reading one more frame of a chunked reply, which may be its last. */
  lemma OneMoreFrame(inbox: Bytes, frames: seq<Bytes>, before: Bytes, frame: Bytes, unread: Bytes)
    requires Collected(inbox, frames, before)
    requires Encodable(frame) && WellTagged(frame) && before == EncodeFrame(frame) + unread
    ensures forall f <- frames + [frame] :: WellTagged(f)
    ensures ConcatData(frames + [frame]) == ConcatData(frames) + Data(frame)
    ensures Continues(frame) ==> Collected(inbox, frames + [frame], unread)
    ensures !Continues(frame) ==> TookGroup(inbox, frames + [frame], unread)
  {
    EncodeAllAppend(frames, [frame]);
    assert EncodeAll([frame]) == EncodeFrame(frame);
    ConcatDataAppend(frames, [frame]);
    assert ConcatData([frame]) == Data(frame);
    Reassociate(EncodeAll(frames), EncodeFrame(frame), unread);
    if !Continues(frame) {
      GroupEndsHere(frames, frame);
    }
  }

  /** A whole reply came off the stream and decides how the call ends. */
  ghost predicate TookReply(stream: Bytes, left: Bytes, e: Exchange) {
    && (forall f <- e.frames :: Encodable(f)) && stream == EncodeAll(e.frames) + left
    && IsReply(e.chunked, e.frames) && e.result == ReplyValue(e.chunked, e.frames)
  }

  /** Reading stopped inside a frame, before the end of the reply. */
  ghost predicate BrokeOffInReply(stream: Bytes, left: Bytes, e: Exchange) {
    && e.result.Err? && (!e.chunked ==> e.frames == [])
    && exists middle :: Collected(stream, e.frames, middle) && BrokenOff(middle, left)
  }

  /** A chunked reply held a frame that is not tagged as one. */
  ghost predicate TookUntagged(stream: Bytes, left: Bytes, e: Exchange) {
    && e.result.Err? && e.chunked && e.frames != [] && !WellTagged(e.frames[|e.frames| - 1])
    && (forall i | 0 <= i < |e.frames| - 1 :: Continues(e.frames[i]))
    && (forall f <- e.frames :: Encodable(f)) && stream == EncodeAll(e.frames) + left
  }

  /** All the ways in which a call can leave the stream it reads its reply from. */
  ghost predicate Consumed(stream: Bytes, left: Bytes, e: Exchange) {
    forall k: nat {:trigger Unfold(k)} | Unfold(k) ::
      TookReply(stream, left, e) || BrokeOffInReply(stream, left, e) || TookUntagged(stream, left, e)
  }

  /** What one call does to a link, unless its write broke off: nothing, or one request and one attempt to read. */
  ghost predicate Exchanged(a: Link, b: Link, e: Exchange) {
    || (e.result.Err? && b == a)
    || (&& b.requests == a.requests + 1 && b.inFlight == e.result.Err?
        && Consumed(a.unread, b.unread, e))
  }

  /** A greeting that is accepted, and the message size it negotiates. */
  ghost predicate Accepts(greeting: Bytes, maxSize: nat) {
    && ParseHello(greeting).Ok? && ParseHello(greeting).value.version == PROTOCOL_VERSION
    && ParseHello(greeting).value.maxMessageSize == maxSize
  }

  /** A call for a single frame that was answered with this one. */
  ghost predicate AnsweredOn(a: Link, b: Link, reply: Bytes) {
    forall k: nat {:trigger UnfoldOn(Links, k)} | UnfoldOn(Links, k) ::
      Exchanged(a, b, Exchange(false, [reply], Ok(reply)))
  }

  /** A link right after the greeting, on a socket dialled at this point of the script, and the limit in force. */
  ghost predicate GreetedAt(script: seq<Choice>, i: nat, link: Link, maxSize: nat) {
    i < |script| &&
    exists greeting ::
      AnsweredOn(Link(0, script[i].incoming, false), link, greeting) && Accepts(greeting, maxSize)
  }

  /** A link right after the greeting, on a socket dialled at some point of the script. */
  ghost predicate Greeted(script: seq<Choice>, link: Link) {
    forall k: nat {:trigger UnfoldOn(Links, k)} | UnfoldOn(Links, k) ::
      exists i, maxSize :: GreetedAt(script, i, link, maxSize)
  }

  lemma FailedExchange(a: Link, b: Link, chunked: bool, e: Error)
    requires b == a || (b.requests == a.requests + 1 && b.inFlight && BrokenOff(a.unread, b.unread))
    ensures Exchanged(a, b, Exchange(chunked, [], Err(e)))
  {
    NothingCollected(a.unread);
  }

  /** A request that left whole and the attempt to read its one-frame reply. */
  lemma SingleExchange(a: Link, b: Link, p: Pulled<Bytes>, start: nat, end: nat, maxSize: nat)
    requires b.requests == a.requests + 1 && b.inFlight == p.r.Err? && b.unread == p.left
    requires TakesFrame(p, start, end, a.unread, maxSize)
    ensures Exchanged(a, b, Exchange(false, if p.r.Ok? then [p.r.value] else [], p.r))
  {
    assert Unfold(0);
    if p.r.Ok? {
      assert EncodeAll([p.r.value]) == EncodeFrame(p.r.value);
    } else {
      FailedExchange(a, b, false, p.r.error);
    }
  }

  lemma ChunkedExchange(a: Link, b: Link, e: Exchange)
    requires b.requests == a.requests + 1 && b.inFlight == e.result.Err?
    requires Consumed(a.unread, b.unread, e)
    ensures Exchanged(a, b, e)
  {
  }

  lemma UntaggedFrame(inbox: Bytes, frames: seq<Bytes>, before: Bytes, frame: Bytes, left: Bytes, e: Error)
    requires Collected(inbox, frames, before)
    requires Encodable(frame) && !WellTagged(frame) && before == EncodeFrame(frame) + left
    ensures TookUntagged(inbox, left, Exchange(true, frames + [frame], Err(e)))
  {
    EncodeAllAppend(frames, [frame]);
    assert EncodeAll([frame]) == EncodeFrame(frame);
    Reassociate(EncodeAll(frames), EncodeFrame(frame), left);
  }

  /** What feeding one more frame of a chunked reply means for the stream it came from. */
  lemma FedFrame(inbox: Bytes, frames: seq<Bytes>, before: Bytes, frame: Bytes, left: Bytes)
    requires Collected(inbox, frames, before)
    requires Encodable(frame) && before == EncodeFrame(frame) + left
    ensures var step := FeedStep(ConcatData(frames), frame);
            match step.result
            case Ok(None) =>
              Collected(inbox, frames + [frame], left) && step.body == ConcatData(frames + [frame])
            case Ok(Some(response)) => Consumed(inbox, left, Exchange(true, frames + [frame], Ok(response)))
            case Err(e) => Consumed(inbox, left, Exchange(true, frames + [frame], Err(e)))
  {
    if WellTagged(frame) {
      OneMoreFrame(inbox, frames, before, frame, left);
    } else {
      UntaggedFrame(inbox, frames, before, frame, left, Corrupted);
    }
  }

  lemma GroupFailure(stream: Bytes, frames: seq<Bytes>, middle: Bytes, left: Bytes, e: Error)
    requires Collected(stream, frames, middle) && BrokenOff(middle, left)
    ensures Consumed(stream, left, Exchange(true, frames, Err(e)))
  {
  }

  /** One more attempt to read a frame of a chunked reply: it is fed, or the reply breaks off. */
  lemma ReadForChunk(inbox: Bytes, frames: seq<Bytes>, before: Bytes, p: Pulled<Bytes>, start: nat, end: nat,
                     maxSize: nat)
    requires Collected(inbox, frames, before) && TakesFrame(p, start, end, before, maxSize)
    ensures p.r.Err? ==> Consumed(inbox, p.left, Exchange(true, frames, Err(p.r.error)))
    ensures p.r.Ok? ==>
      var step := FeedStep(ConcatData(frames), p.r.value);
      match step.result
      case Ok(None) =>
        Collected(inbox, frames + [p.r.value], p.left) && step.body == ConcatData(frames + [p.r.value])
      case Ok(Some(response)) => Consumed(inbox, p.left, Exchange(true, frames + [p.r.value], Ok(response)))
      case Err(e) => Consumed(inbox, p.left, Exchange(true, frames + [p.r.value], Err(e)))
  {
    assert Unfold(0);
    if p.r.Ok? {
      FedFrame(inbox, frames, before, p.r.value, p.left);
    } else {
      GroupFailure(inbox, frames, before, p.left, p.r.error);
    }
  }

  class Connection {
    const net: Network
    const token: Option<Bytes>
    const tls: bool
    const connectTimeout: real

    var sock: Option<nat>
    var maxMessageSize: nat
    var role: Bytes
    var authRequired: bool
    var requestInFlight: bool
    ghost var sends: nat // requests made through a client, greetings not counted

    constructor (net: Network, token: Option<Bytes>, tls: bool, connectTimeout: real)
      requires net.Valid()
      ensures Valid() && this.net == net && this.token == token
      ensures sock == None && !requestInFlight && maxMessageSize == DEFAULT_MAX_MESSAGE_SIZE
    {
      this.net, this.token, this.tls, this.connectTimeout := net, token, tls, connectTimeout;
      sock, maxMessageSize, role, authRequired, requestInFlight := None, DEFAULT_MAX_MESSAGE_SIZE, [], false, false;
      sends := 0;
    }

    ghost predicate Valid()
      reads this, net
    {
      net.Valid() && (sock.Some? ==> sock.value < |net.inboxes|)
    }

    ghost function Unread(): Bytes
      requires Valid()
      reads this, net
    {
      if sock.None? then [] else net.inboxes[sock.value]
    }

    ghost function State(): Link
      requires Valid()
      reads this, net
    {
      Link(if sock.None? then 0 else RequestsOn(net.log, sock.value), Unread(), requestInFlight)
    }

    /** Since `before`, at most one frame was started, on this connection's socket. */
    ghost predicate StartedAtMostOne(before: seq<Write>, payload: Bytes)
      reads this, net
    {
      net.log == before || (sock.Some? && Attempted(before, net.log, sock.value, payload))
    }

    /** Since `before`, exactly this frame left, and all of it. */
    ghost predicate WroteWhole(before: seq<Write>, payload: Bytes)
      reads this, net
    {
      && sock.Some? && Attempted(before, net.log, sock.value, payload) && Whole(Last(net.log))
    }

    method ApplyTimeout(deadline: Deadline) returns (r: Result<()>)
      requires Valid()
      modifies net`pos, net`now
      ensures Valid() && net.Since(old(net.Time()))
      ensures Timed(r, net.pos) == TimeoutOutcome(net, old(net.Time()), deadline)
      ensures r == Err(InvalidValue) <==>
              && deadline.at.Some? && old(net.pos) + 2 <= |net.script|
              && net.Later(old(net.Time()), 1).now < deadline.at.value < net.Later(old(net.Time()), 2).now
      ensures r.Err? && deadline.at.None? ==>
        r.error == Interrupted || (r.error == ConnectionLost && !AllFine(net.script))
      ensures r.Ok? && deadline.at.Some? ==> old(net.now) + net.least <= deadline.at.value
    {
      NegativeTimeoutIff(net, old(net.Time()), deadline);
      var _ :- net.CheckDeadline(deadline);
      if deadline.at.Some? {
        AnOperationTakesTime(net, old(net.Time()), net.Time());
      }
      var remaining :- net.Remaining(deadline);
      r := net.SetTimeout(remaining);
    }

    /** Nothing stops a request made now before its bytes go to the socket. */
    ghost predicate WriteReachesSocket(payload: Bytes, deadline: Deadline)
      reads this, net
    {
      ReachesSocket(net, net.Time(), deadline, payload, maxMessageSize, sock.Some?)
    }

    /** The environment's choice for the `sendall` of a request started now. */
    ghost function WriteChoice(deadline: Deadline): Choice
      requires TimeoutOutcome(net, net.Time(), deadline).pos < |net.script|
      reads net
    {
      net.script[TimeoutOutcome(net, net.Time(), deadline).pos]
    }

    method PrepareRequest(payload: Bytes, deadline: Deadline) returns (r: Result<()>)
      requires Valid()
      modifies net`pos, net`now
      ensures Valid() && net.Since(old(net.Time()))
      ensures Timed(r, net.pos)
           == PreparedOutcome(net, old(net.Time()), deadline, payload, maxMessageSize, sock.Some?)
      ensures r.Ok? ==> sock.Some? && Encodable(payload) && |payload| <= maxMessageSize
      ensures r.Ok? ==> Timed(r, net.pos) == TimeoutOutcome(net, old(net.Time()), deadline)
      ensures r.Ok? && deadline.at.Some? ==> old(net.now) + net.least <= deadline.at.value
      ensures |payload| > maxMessageSize ==>
        r == Err(Protocol(MESSAGE_SIZE_EXCEEDS_MAXIMUM)) && net.pos == old(net.pos)
      ensures |payload| <= maxMessageSize && sock.None? ==> r == Err(ConnectionLost)
    {
      var _ :- CheckRequestSize(payload, maxMessageSize);
      if sock.None? {
        return Err(ConnectionLost);
      }
      var _ :- ApplyTimeout(deadline);
      return if Encodable(payload) then Ok(()) else Err(SizeOverflow);
    }

    method WriteRequest(command: Command, deadline: Deadline) returns (r: Result<()>)
      requires Valid()
      modifies this`requestInFlight, net`pos, net`now, net`log
      ensures Valid() && net.Since(old(net.Time()))
      ensures StartedAtMostOne(old(net.log), command.payload)
      ensures r.Ok? ==> WroteWhole(old(net.log), command.payload) && requestInFlight
      ensures WroteWhole(old(net.log), command.payload) ==> requestInFlight
      ensures net.log == old(net.log) ==> r.Err? && requestInFlight == old(requestInFlight)
      ensures WroteWhole(old(net.log), command.payload) && AllFine(net.script) ==> r.Ok?
      ensures |command.payload| > maxMessageSize ==>
        r == Err(Protocol(MESSAGE_SIZE_EXCEEDS_MAXIMUM)) && net.log == old(net.log) && net.pos == old(net.pos)
      ensures |command.payload| <= maxMessageSize && sock.None? ==> r == Err(ConnectionLost)
      ensures IsRequest(Timed(r, net.pos), net, old(net.Time()), deadline, command.payload, maxMessageSize, sock.Some?)
      // the flag goes up for a whole frame and for a timeout, and for nothing else
      ensures requestInFlight <==>
              || old(requestInFlight)
              || RaisesFlag(net, old(net.Time()), deadline, command.payload, maxMessageSize, sock.Some?)
      ensures net.log != old(net.log) && deadline.at.Some? ==> old(net.now) + net.least <= deadline.at.value
      ensures !old(WriteReachesSocket(command.payload, deadline)) ==> net.log == old(net.log)
      ensures old(WriteReachesSocket(command.payload, deadline)) ==>
        var choice := old(WriteChoice(deadline));
        && net.pos == TimeoutOutcome(net, old(net.Time()), deadline).pos + 1
        && r == Outcome(choice, ()) && Attempted(old(net.log), net.log, sock.value, command.payload)
        && Last(net.log).sent == SentBy(choice, FrameSize(command.payload))
        && (choice.fault == TimedOut ==> requestInFlight)
    {
      RaisesFlagIf(net, net.Time(), deadline, command.payload, maxMessageSize, sock.Some?);
      var _ :- PrepareRequest(command.payload, deadline);
      var sent := net.SendAll(sock.value, command.payload);
      if sent.Err? {
        if sent.error == Timeout {
          requestInFlight := true;
        }
        return sent;
      }
      requestInFlight := true;
      return Ok(());
    }

    /** One `recv` and the check that the server has not closed. */
    method ReadSome(size: nat) returns (r: Result<Bytes>)
      requires Valid() && sock.Some? && size > 0
      modifies net`pos, net`now, net`inboxes
      ensures Valid() && net.Since(old(net.Time()))
      ensures |net.inboxes| == |old(net.inboxes)|
      ensures Pulled(r, net.pos, Unread()) == PullSome(net.script, old(net.pos), old(Unread()), size)
    {
      var chunk :- net.Recv(sock.value, size);
      if chunk == [] {
        return Err(ConnectionLost);
      }
      return Ok(chunk);
    }

    method ReadExactly(size: nat) returns (r: Result<Bytes>)
      requires Valid() && sock.Some?
      modifies net`pos, net`now, net`inboxes
      ensures Valid() && net.Since(old(net.Time()))
      ensures |net.inboxes| == |old(net.inboxes)|
      ensures Pulled(r, net.pos, Unread()) == Pull(net.script, old(net.pos), old(Unread()), size, [])
    {
      var buffer: Bytes := [];
      while |buffer| < size
        invariant Valid() && net.Since(old(net.Time()))
        invariant |net.inboxes| == |old(net.inboxes)|
        invariant Pull(net.script, net.pos, Unread(), size, buffer)
               == Pull(net.script, old(net.pos), old(Unread()), size, [])
        decreases size - |buffer|
      {
        var chunk :- ReadSome(size - |buffer|);
        buffer := buffer + chunk;
      }
      return Ok(buffer);
    }

    method ReadFrame(deadline: Deadline) returns (r: Result<Bytes>)
      requires Valid()
      modifies net`pos, net`now, net`inboxes
      ensures Valid() && net.Since(old(net.Time()))
      ensures |net.inboxes| == |old(net.inboxes)|
      ensures r.Ok? && deadline.at.Some? ==> old(net.now) + net.least <= deadline.at.value
      ensures if sock.None? then r == Err(ConnectionLost) && net.pos == old(net.pos) else
        IsFrame(Pulled(r, net.pos, Unread()), net, old(net.Time()), deadline, old(Unread()), maxMessageSize)
    {
      if sock.None? {
        return Err(ConnectionLost);
      }
      var _ :- ApplyTimeout(deadline);
      var header :- ReadExactly(HEADER_SIZE);
      var size :- DecodeFrameSize(header, maxMessageSize);
      if size == 0 {
        return Ok([]);
      }
      r := ReadExactly(size);
    }

    /** The next frame of a reply: taken off the stream, or broken off. */
    method ReadReply(deadline: Deadline) returns (r: Result<Bytes>)
      requires Valid()
      modifies net`pos, net`now, net`inboxes
      ensures Valid() && net.Since(old(net.Time()))
      ensures |net.inboxes| == |old(net.inboxes)|
      ensures r.Ok? ==> sock.Some?
      ensures TakesFrame(Pulled(r, net.pos, Unread()), old(net.pos), |net.script|, old(Unread()), maxMessageSize)
      ensures sock.Some? ==>
        IsFrame(Pulled(r, net.pos, Unread()), net, old(net.Time()), deadline, old(Unread()), maxMessageSize)
    {
      NothingTaken(Unread());
      r := ReadFrame(deadline);
      if sock.Some? {
        FrameTakes(Pulled(r, net.pos, Unread()), net, old(net.Time()), deadline, old(Unread()), maxMessageSize);
      }
    }

    /** The writing half of an exchange, which ends it if it fails. */
    method SendRequest(command: Command, deadline: Deadline, chunked: bool) returns (r: Result<()>)
      requires Valid()
      modifies this`requestInFlight, net`pos, net`now, net`log
      ensures Valid() && net.Since(old(net.Time()))
      ensures StartedAtMostOne(old(net.log), command.payload)
      ensures r.Ok? ==> WroteWhole(old(net.log), command.payload)
      ensures WroteWhole(old(net.log), command.payload) ==> requestInFlight
      ensures r.Err? && net.log == old(net.log) ==> requestInFlight == old(requestInFlight)
      ensures r.Err? && (net.log == old(net.log) || WroteWhole(old(net.log), command.payload)) ==>
        Exchanged(old(State()), State(), Exchange(chunked, [], Err(r.error)))
      ensures r.Ok? ==> State() == Link(old(State()).requests + 1, old(State()).unread, true)
      ensures requestInFlight <==>
              || old(requestInFlight)
              || RaisesFlag(net, old(net.Time()), deadline, command.payload, maxMessageSize, sock.Some?)
      ensures IsRequest(Timed(r, net.pos), net, old(net.Time()), deadline, command.payload, maxMessageSize, sock.Some?)
    {
      r := WriteRequest(command, deadline);
      if net.log == old(net.log) {
        FailedExchange(old(State()), State(), chunked, r.error);
      } else {
        OneMoreRequest(old(net.log), net.log, sock.value, command.payload);
        if r.Err? && requestInFlight {
          NothingTaken(Unread());
          FailedExchange(old(State()), State(), chunked, r.error);
        }
      }
    }

    method Send(command: Command, deadline: Deadline) returns (r: Result<Bytes>)
      requires Valid()
      modifies this`requestInFlight, net`pos, net`now, net`log, net`inboxes
      ensures Valid() && net.Since(old(net.Time()))
      ensures |net.inboxes| == |old(net.inboxes)|
      ensures StartedAtMostOne(old(net.log), command.payload)
      ensures r.Ok? ==> WroteWhole(old(net.log), command.payload) && !requestInFlight
      ensures r.Err? && WroteWhole(old(net.log), command.payload) ==> requestInFlight
      ensures r.Err? && net.log == old(net.log) ==> requestInFlight == old(requestInFlight)
      ensures r.Ok? ==> Exchanged(old(State()), State(), Exchange(false, [r.value], r))
      ensures r.Err? && (net.log == old(net.log) || WroteWhole(old(net.log), command.payload)) ==>
        Exchanged(old(State()), State(), Exchange(false, [], r))
      ensures IsAnswer(Pulled(r, net.pos, Unread()), net, old(net.Time()), deadline, command.payload, maxMessageSize,
                       sock.Some?, old(Unread()), false)
      ensures requestInFlight <==>
        r.Err? && (|| old(requestInFlight)
                   || RaisesFlag(net, old(net.Time()), deadline, command.payload, maxMessageSize, sock.Some?))
    {
      ghost var begun, inbox := net.Time(), Unread();
      var written := SendRequest(command, deadline, false);
      if written.Err? {
        NothingAnswered(Timed(written, net.pos), net, begun, deadline, command.payload, maxMessageSize, sock.Some?,
                        inbox, false);
        return Err(written.error);
      }
      ghost var middle := net.Time();
      r := ReadReply(deadline);
      if r.Ok? {
        requestInFlight := false;
      }
      SingleExchange(old(State()), State(), Pulled(r, net.pos, Unread()), middle.pos, |net.script|, maxMessageSize);
      FrameIsReading(Pulled(r, net.pos, Unread()), net, middle, deadline, inbox, maxMessageSize);
      ReadAfterRequest(Timed(written, middle.pos), Pulled(r, net.pos, Unread()), net, begun, middle, deadline,
                       command.payload, maxMessageSize, sock.Some?, inbox, false);
    }

    /** The reading half of a chunked exchange: frames until one ends the reply. */
    method ReadChunked(deadline: Deadline) returns (r: Result<Bytes>, ghost frames: seq<Bytes>)
      requires Valid()
      modifies net`pos, net`now, net`inboxes
      ensures Valid() && net.Since(old(net.Time()))
      ensures |net.inboxes| == |old(net.inboxes)|
      ensures Consumed(old(Unread()), Unread(), Exchange(true, frames, r))
      ensures sock.Some? ==>
        IsReading(Pulled(r, net.pos, Unread()), net, old(net.Time()), deadline, old(Unread()), maxMessageSize, true)
    {
      frames := [];
      var assembler := new ChunkAssembler();
      ghost var inbox := Unread();
      NothingCollected(inbox);
      NothingReadYet(net, deadline, maxMessageSize, net.Time(), inbox);
      while true
        invariant Valid() && net.Since(old(net.Time()))
        invariant |net.inboxes| == |old(net.inboxes)|
        invariant Collected(inbox, frames, Unread())
        invariant assembler.body == ConcatData(frames)
        invariant GoesOn(net, deadline, maxMessageSize, old(net.Time()), inbox, net.Time(), Unread(), assembler.body)
        decreases |net.script| - net.pos
      {
        ghost var before, start, body := Unread(), net.Time(), assembler.body;
        var frame := ReadReply(deadline);
        ghost var p := Pulled(frame, net.pos, Unread());
        ReadForChunk(inbox, frames, before, p, start.pos, |net.script|, maxMessageSize);
        if sock.Some? {
          OneMoreChunk(p, net, deadline, maxMessageSize, old(net.Time()), inbox, start, net.Time(), before, body);
        }
        if frame.Err? {
          return Err(frame.error), frames;
        }
        var response := assembler.Feed(frame.value);
        frames := frames + [frame.value];
        if response.Err? {
          return Err(response.error), frames;
        }
        if response.value.Some? {
          return Ok(response.value.value), frames;
        }
      }
    }

    method SendChunked(command: Command, deadline: Deadline) returns (r: Result<Bytes>, ghost frames: seq<Bytes>)
      requires Valid()
      modifies this`requestInFlight, net`pos, net`now, net`log, net`inboxes
      ensures Valid() && net.Since(old(net.Time()))
      ensures |net.inboxes| == |old(net.inboxes)|
      ensures StartedAtMostOne(old(net.log), command.payload)
      ensures r.Ok? ==> WroteWhole(old(net.log), command.payload) && !requestInFlight
      ensures r.Err? && WroteWhole(old(net.log), command.payload) ==> requestInFlight
      ensures r.Err? && net.log == old(net.log) ==> requestInFlight == old(requestInFlight)
      ensures net.log == old(net.log) || WroteWhole(old(net.log), command.payload) ==>
        Exchanged(old(State()), State(), Exchange(true, frames, r))
      ensures IsAnswer(Pulled(r, net.pos, Unread()), net, old(net.Time()), deadline, command.payload, maxMessageSize,
                       sock.Some?, old(Unread()), true)
      ensures requestInFlight <==>
        r.Err? && (|| old(requestInFlight)
                   || RaisesFlag(net, old(net.Time()), deadline, command.payload, maxMessageSize, sock.Some?))
    {
      frames := [];
      ghost var begun, inbox := net.Time(), Unread();
      var written := SendRequest(command, deadline, true);
      if written.Err? {
        NothingAnswered(Timed(written, net.pos), net, begun, deadline, command.payload, maxMessageSize, sock.Some?,
                        inbox, true);
        return Err(written.error), frames;
      }
      ghost var middle := net.Time();
      r, frames := ReadChunked(deadline);
      if r.Ok? {
        requestInFlight := false;
      }
      ChunkedExchange(old(State()), State(), Exchange(true, frames, r));
      ReadAfterRequest(Timed(written, middle.pos), Pulled(r, net.pos, Unread()), net, begun, middle, deadline,
                       command.payload, maxMessageSize, sock.Some?, inbox, true);
    }

    /** One step of a running stream; `None` means that no frame arrived within the poll interval. */
    method NextFrame(pollInterval: Option<real>) returns (r: Result<Option<Bytes>>)
      requires Valid() && sock.Some?
      modifies net`pos, net`now, net`inboxes
      ensures Valid() && net.Since(old(net.Time()))
      ensures |net.inboxes| == |old(net.inboxes)|
      ensures IsPoll(Pulled(r, net.pos, Unread()), net, old(net.Time()), pollInterval, old(Unread()), maxMessageSize)
      ensures TakesPoll(Pulled(r, net.pos, Unread()), old(net.pos), net.script, pollInterval.Some?, old(Unread()),
                        maxMessageSize)
      ensures DropsOnlyWithinFrame(Pulled(r, net.pos, Unread()), net, old(net.Time()), pollInterval, old(Unread()))
    {
      ghost var start, inbox := net.Time(), Unread();
      var deadline := net.StartDeadline(pollInterval);
      if deadline.Err? {
        PollInterrupted(net, start, pollInterval, inbox, maxMessageSize);
        r := Err(deadline.error);
      } else {
        ghost var begun := net.Time();
        var frame := ReadFrame(deadline.value);
        PollIsFrame(Pulled(frame, net.pos, Unread()), net, start, begun, pollInterval, deadline.value, inbox,
                    maxMessageSize);
        r := PollResult(frame, pollInterval.Some?);
      }
      PollTakes(Pulled(r, net.pos, Unread()), net, start, pollInterval, inbox, maxMessageSize);
      PollDropsIff(Pulled(r, net.pos, Unread()), net, start, pollInterval, inbox, maxMessageSize);
    }

    /**
     * The generator's loop after the request, driven until it raises: the frames
     * it yields, and the gaps its poll timeouts leave, are the stream up to the
     * read that failed, and it raises what that read does.
     */
    method Follow(pollInterval: Option<real>)
      returns (items: seq<Option<Bytes>>, end: Error, ghost history: seq<Stretch>, ghost last: Bytes,
               ghost final: Gauge)
      requires Valid() && sock.Some?
      modifies net`pos, net`now, net`inboxes
      ensures Valid() && net.Since(old(net.Time()))
      ensures items == Items(history)
      ensures Followed(old(Unread()), history, last, maxMessageSize, net, pollInterval)
      ensures BrokenOff(last, Unread())
      ensures Passes(net.spent, old(net.Time()), final)
      ensures IsPoll(Pulled(Err(end), net.pos, Unread()), net, final, pollInterval, last, maxMessageSize)
      ensures AllFine(net.script) && pollInterval.None? ==>
        end == Interrupted || Reading(Frames(history), end) == ReadStream(old(Unread()), maxMessageSize)
    {
      items, history := [], [];
      NothingFollowed(Unread(), maxMessageSize, net, pollInterval);
      while true
        invariant Valid() && net.Since(old(net.Time()))
        invariant items == Items(history)
        invariant Followed(old(Unread()), history, Unread(), maxMessageSize, net, pollInterval)
        decreases |net.script| - net.pos
      {
        last, final := Unread(), net.Time();
        var frame := NextFrame(pollInterval);
        ghost var p := Pulled(frame, net.pos, Unread());
        if frame.Err? {
          FollowEnds(old(Unread()), history, p, final.pos, last, maxMessageSize, net, pollInterval);
          return items, frame.error, history, last, final;
        }
        FollowMore(old(Unread()), history, p, final, last, maxMessageSize, net, pollInterval);
        history := history + [NextStretch(last, frame.value, Unread(), final)];
        items := items + [frame.value];
      }
    }

    /**
     * The stream generator driven until it raises. If the request fails, it
     * yields nothing and raises what the request does.
     */
    method OpenStream(command: Command, pollInterval: Option<real>)
      returns (items: seq<Option<Bytes>>, end: Error, ghost asked: Timed, ghost history: seq<Stretch>,
               ghost last: Bytes, ghost final: Gauge)
      requires Valid()
      modifies this`requestInFlight, net`pos, net`now, net`log, net`inboxes
      ensures Valid() && net.Since(old(net.Time()))
      ensures items == Items(history)
      ensures Followed(old(Unread()), history, last, maxMessageSize, net, pollInterval)
      ensures BrokenOff(last, Unread())
      ensures StartedAtMostOne(old(net.log), command.payload)
      ensures IsRequest(asked, net, old(net.Time()), NO_DEADLINE, command.payload, maxMessageSize, sock.Some?)
      ensures asked.r.Err? ==>
        end == asked.r.error && items == [] && net.pos == asked.pos && Unread() == old(Unread())
      ensures asked.r.Ok? ==>
        && WroteWhole(old(net.log), command.payload) && asked.pos <= final.pos
        && IsPoll(Pulled(Err(end), net.pos, Unread()), net, final, pollInterval, last, maxMessageSize)
      ensures !WroteWhole(old(net.log), command.payload) ==> items == []
      ensures WroteWhole(old(net.log), command.payload) && AllFine(net.script) && pollInterval.None? ==>
        end == Interrupted || Reading(Frames(history), end) == ReadStream(old(Unread()), maxMessageSize)
    {
      var started := WriteRequest(command, NO_DEADLINE);
      asked, final := Timed(started, net.pos), net.Time();
      if started.Err? {
        NothingTaken(Unread());
        NothingFollowed(Unread(), maxMessageSize, net, pollInterval);
        return [], started.error, asked, [], Unread(), final;
      }
      items, end, history, last, final := Follow(pollInterval);
    }

    method Close()
      modifies this`sock
      ensures sock == None
    {
      sock := None;
    }

    /** What the server's greeting negotiated is in force. */
    ghost predicate Negotiated(greeting: Bytes)
      reads this
    {
      ParseHello(greeting) == Ok(HelloInfo(PROTOCOL_VERSION, maxMessageSize, authRequired, role))
    }

    /** An outcome with the parameters that are in force after it. */
    ghost function Terms(r: Result<()>): Result<HelloInfo>
      reads this
    {
      if r.Ok? then Ok(HelloInfo(PROTOCOL_VERSION, maxMessageSize, authRequired, role)) else Err(r.error)
    }

    /**
     * Take over what the greeting says. It is accepted exactly if it parses and
     * speaks this version of the protocol, whatever else it asks for.
     */
    method Negotiate(greeting: Bytes) returns (r: Result<()>)
      modifies this`maxMessageSize, this`authRequired, this`role
      ensures r.Ok? <==> ParseHello(greeting).Ok? && ParseHello(greeting).value.version == PROTOCOL_VERSION
      ensures r.Ok? ==> Negotiated(greeting)
      ensures r.Err? ==> r.error == if ParseHello(greeting).Err? then ParseHello(greeting).error else Corrupted
      ensures r.Err? ==> maxMessageSize == old(maxMessageSize) && !r.error.IsConnectionError()
      ensures Terms(r) == Accepted(greeting)
    {
      var info :- ParseHello(greeting);
      if info.version != PROTOCOL_VERSION {
        return Err(Corrupted);
      }
      maxMessageSize := info.maxMessageSize;
      authRequired := info.authRequired;
      role := info.role;
      return Ok(());
    }

    /** Send the greeting and read the reply to it, within the connect timeout. */
    method Greet() returns (r: Result<Bytes>)
      requires Valid() && sock.Some?
      modifies this`requestInFlight, net`pos, net`now, net`log, net`inboxes
      ensures Valid() && net.Since(old(net.Time()))
      ensures |net.inboxes| == |old(net.inboxes)|
      ensures StartedAtMostOne(old(net.log), Hello(token).payload)
      ensures r.Ok? ==> WroteWhole(old(net.log), Hello(token).payload) && !requestInFlight
      ensures r.Ok? ==> AnsweredOn(old(State()), State(), r.value)
      ensures r.Err? && net.log == old(net.log) ==> requestInFlight == old(requestInFlight)
      ensures IsGreeting(Pulled(r, net.pos, Unread()), net, old(net.Time()), connectTimeout, Hello(token).payload,
                         maxMessageSize, old(Unread()))
    {
      ghost var start, stream := net.Time(), Unread();
      var deadline := net.StartDeadline(Some(connectTimeout));
      if deadline.Err? {
        NoTimeToGreet(net, start, connectTimeout, Hello(token).payload, maxMessageSize, stream);
        return Err(deadline.error);
      }
      ghost var begun := net.Time();
      r := Send(Hello(token), deadline.value);
      AnswerIsGreeting(Pulled(r, net.pos, Unread()), net, start, begun, connectTimeout, deadline.value,
                       Hello(token).payload, maxMessageSize, stream);
    }

    /** The greeting and what it negotiates; `g` is the outcome of the exchange itself. */
    method Handshake() returns (r: Result<()>, ghost g: Pulled<Bytes>)
      requires Valid() && sock.Some?
      modifies this`requestInFlight, this`maxMessageSize, this`authRequired, this`role
      modifies net`pos, net`now, net`log, net`inboxes
      ensures Valid() && net.Since(old(net.Time()))
      ensures |net.inboxes| == |old(net.inboxes)|
      ensures StartedAtMostOne(old(net.log), Hello(token).payload)
      ensures r.Ok? ==> WroteWhole(old(net.log), Hello(token).payload) && !requestInFlight
      ensures r.Ok? ==> g.r.Ok? && Negotiated(g.r.value)
      ensures r.Ok? ==> AnsweredOn(old(State()), State(), g.r.value)
      ensures r.Err? && net.log == old(net.log) ==> requestInFlight == old(requestInFlight)
      ensures r.Err? ==> maxMessageSize == old(maxMessageSize)
      ensures IsGreeting(g, net, old(net.Time()), connectTimeout, Hello(token).payload, old(maxMessageSize),
                         old(Unread()))
      ensures Pulled(Terms(r), net.pos, if r.Ok? then Unread() else []) == Concluded(g)
    {
      var greeting := Greet();
      g := Pulled(greeting, net.pos, Unread());
      if greeting.Err? {
        return Err(greeting.error), g;
      }
      r := Negotiate(greeting.value);
    }

    /** The connection as whoever uses it next will find it. */
    ghost function Found(): Start
      requires Valid()
      reads this, net
    {
      Start(net.pos, sock.Some?, Unread(), maxMessageSize)
    }

    /** Since `before`, at most one greeting was started, on a socket opened since then. */
    ghost predicate GreetedAtMostOnce(before: seq<Write>, wires: nat)
      reads net
    {
      net.log == before || Attempted(before, net.log, wires, Hello(token).payload)
    }

    /** A failed dial leaves the connection as it was; a failed greeting leaves it closed, with the default limit. */
    method Connect() returns (r: Result<()>)
      requires Valid()
      modifies this, net`pos, net`now, net`log, net`inboxes, net`dials
      ensures Valid() && net.Since(old(net.Time()))
      ensures |old(net.inboxes)| <= |net.inboxes| <= |old(net.inboxes)| + 1
      ensures sends == old(sends)
      ensures old(net.dials) <= net.dials <= old(net.dials) + 1
      ensures r != Err(Interrupted) ==> net.dials == old(net.dials) + 1
      ensures GreetedAtMostOnce(old(net.log), |old(net.inboxes)|)
      ensures net.log != old(net.log) ==> net.dials == old(net.dials) + 1
      ensures r.Ok? ==> sock == Some(|old(net.inboxes)|) && !requestInFlight
      ensures r.Ok? ==> net.log != old(net.log) && Whole(Last(net.log))
      ensures r.Ok? ==> GreetedAt(net.script, old(net.pos), State(), maxMessageSize)
      // the outcome is the one the script prescribes, and a failure has a cause
      ensures IsConnect(Pulled(Terms(r), net.pos, if r.Ok? then Unread() else []), net, old(net.Time()), tls,
                        connectTimeout, Hello(token).payload)
      ensures r.Err? && r.error.IsConnectionError() ==> CannotConnect(net, old(net.pos), net.pos, tls, connectTimeout)
      ensures r.Err? && !r.error.IsConnectionError() ==>
        RefusesServer(net, old(net.pos), net.pos, tls, connectTimeout, Hello(token).payload, r.error)
      ensures |net.inboxes| == |old(net.inboxes)| ==>
        && r.Err? && net.log == old(net.log) && sock == old(sock)
        && requestInFlight == old(requestInFlight) && maxMessageSize == old(maxMessageSize)
      ensures r.Err? && |net.inboxes| > |old(net.inboxes)| ==>
        && sock == None && maxMessageSize == DEFAULT_MAX_MESSAGE_SIZE
        && (requestInFlight ==> net.log != old(net.log))
    {
      ghost var start, hello := net.Time(), Hello(token).payload;
      var dialled := net.Dial(tls);
      if dialled.Err? {
        NotDialled(Timed(Err(dialled.error), net.pos), net, start, tls, connectTimeout, hello);
        r := Err(dialled.error);
      } else {
        ghost var open := net.Time();
        sock := Some(dialled.value);
        maxMessageSize := DEFAULT_MAX_MESSAGE_SIZE;
        requestInFlight := false;
        NothingAskedYet(net.log, dialled.value);
        ghost var g;
        r, g := Handshake();
        GreetedAfterDial(g, net, start, open, tls, connectTimeout, hello);
        if r.Err? {
          Close();
        }
      }
      if r.Err? {
        ConnectFails(Pulled(Err(r.error), net.pos, []), net, start, tls, connectTimeout, hello);
      }
    }

    method Reconnect() returns (r: Result<()>)
      requires Valid()
      modifies this, net`pos, net`now, net`log, net`inboxes, net`dials
      ensures Valid() && net.Since(old(net.Time()))
      ensures |old(net.inboxes)| <= |net.inboxes| <= |old(net.inboxes)| + 1
      ensures sends == old(sends)
      ensures old(net.dials) <= net.dials <= old(net.dials) + 1
      ensures r != Err(Interrupted) ==> net.dials == old(net.dials) + 1
      ensures GreetedAtMostOnce(old(net.log), |old(net.inboxes)|)
      ensures net.log != old(net.log) ==> net.dials == old(net.dials) + 1
      ensures r.Ok? ==> sock == Some(|old(net.inboxes)|) && !requestInFlight
      ensures r.Ok? ==> net.log != old(net.log) && Whole(Last(net.log))
      ensures r.Ok? ==> GreetedAt(net.script, old(net.pos), State(), maxMessageSize)
      ensures IsConnect(Pulled(Terms(r), net.pos, Unread()), net, old(net.Time()), tls, connectTimeout,
                        Hello(token).payload)
      ensures r.Err? && r.error.IsConnectionError() ==> CannotConnect(net, old(net.pos), net.pos, tls, connectTimeout)
      ensures r.Err? && !r.error.IsConnectionError() ==>
        RefusesServer(net, old(net.pos), net.pos, tls, connectTimeout, Hello(token).payload, r.error)
      ensures r.Err? ==> sock == None && maxMessageSize in {old(maxMessageSize), DEFAULT_MAX_MESSAGE_SIZE}
      ensures r.Err? && requestInFlight ==> net.log != old(net.log) || old(requestInFlight)
    {
      Close();
      r := Connect();
    }
  }
}
