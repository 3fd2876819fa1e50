/** What the reading half of a connection makes of a script: bytes, frames, and what a timeout throws away. */
module Reads {
  import opened Core
  import opened Framing
  import opened Reconnect
  import opened Transport

  function SocketSet(script: seq<Choice>, pos: nat): Timed {
    if pos >= |script| then Timed(Err(Interrupted), pos)
    else Timed(if script[pos].fault == Fine then Ok(()) else Err(ConnectionLost), pos + 1)
  }

  /** Check the deadline, read the clock again for the time left, and set it on the socket. */
  ghost function TimeoutOutcome(net: Network, start: Gauge, deadline: Deadline): Timed {
    var n := |net.script|;
    if deadline.at.None? then SocketSet(net.script, start.pos)
    else if start.pos >= n then Timed(Err(Interrupted), start.pos)
    else if deadline.at.value <= net.Later(start, 1).now then Timed(Err(Timeout), start.pos + 1)
    else if start.pos + 1 >= n then Timed(Err(Interrupted), start.pos + 1)
    else if deadline.at.value < net.Later(start, 2).now then Timed(Err(InvalidValue), start.pos + 2)
    else SocketSet(net.script, start.pos + 2)
  }

  /**
   * The time left is negative exactly when it ran out between the two readings
   * of the clock; that is the one way to a `ValueError`.
   */
  lemma NegativeTimeoutIff(net: Network, start: Gauge, deadline: Deadline)
    ensures TimeoutOutcome(net, start, deadline).r == Err(InvalidValue) <==>
            && deadline.at.Some? && start.pos + 2 <= |net.script|
            && net.Later(start, 1).now < deadline.at.value < net.Later(start, 2).now
  {
  }

  /** A read: its result, the environment choices used up by then, and the bytes left unread. */
  datatype Pulled<+T> = Pulled(r: Result<T>, pos: nat, left: Bytes)

  /** One `recv` and the check that the server has not closed. */
  function PullSome(script: seq<Choice>, pos: nat, inbox: Bytes, size: nat): (p: Pulled<Bytes>)
    requires size > 0
    ensures p.r.Ok? ==> 0 < |p.r.value| <= size && inbox == p.r.value + p.left && p.pos == pos + 1 <= |script|
    ensures p.r.Err? ==> p.left == inbox && pos <= p.pos && (pos <= |script| ==> p.pos <= |script|)
    ensures p.r.Err? ==> p.r.error in {Interrupted, Timeout, ConnectionLost}
    ensures p.r == Err(Interrupted) ==> p.pos == pos >= |script|
    ensures p.r.Err? && FineBetween(script, pos, p.pos) ==>
      p.r.error == Interrupted || (p.r.error == ConnectionLost && inbox == [])
  {
    if pos >= |script| then Pulled(Err(Interrupted), pos, inbox)
    else
      var n := ReceivedBy(script[pos], |inbox|, size);
      match Outcome(script[pos], inbox[..n])
      case Err(e) => Pulled(Err(e), pos + 1, inbox)
      case Ok(chunk) => Pulled(if n == 0 then Err(ConnectionLost) else Ok(chunk), pos + 1, inbox[n..])
  }

  /** `recv` until `size` bytes are there, given those that are. */
  function Pull(script: seq<Choice>, pos: nat, inbox: Bytes, size: nat, got: Bytes): Pulled<Bytes>
    decreases size - |got|
  {
    if |got| >= size then Pulled(Ok(got), pos, inbox)
    else
      var some := PullSome(script, pos, inbox, size - |got|);
      match some.r
      case Err(_) => some
      case Ok(chunk) => Pull(script, some.pos, some.left, size, got + chunk)
  }

  /** One byte string is the end of another. */
  predicate Tail(stream: Bytes, left: Bytes) {
    |left| <= |stream| && stream[|stream| - |left|..] == left
  }

  lemma TailOf(part: Bytes, left: Bytes)
    ensures Tail(part + left, left)
    ensures (part + left)[..|part|] == part && (part + left)[|part|..] == left
  {
  }

  lemma TailOfTail(part: Bytes, rest: Bytes, left: Bytes)
    requires Tail(rest, left)
    ensures Tail(part + rest, left)
  {
    assert (part + rest)[|part + rest| - |left|..] == rest[|rest| - |left|..];
  }

  /** A read takes what it returns off the front; one that fails has taken less than it was asked for. */
  lemma {:induction false} PullTakes(script: seq<Choice>, pos: nat, inbox: Bytes, size: nat, got: Bytes)
    requires pos <= |script| && |got| <= size
    ensures var p := Pull(script, pos, inbox, size, got);
            && pos <= p.pos <= |script| && Tail(inbox, p.left)
            && (p.r.Ok? ==> |p.r.value| == size && got + inbox == p.r.value + p.left && (|got| < size ==> pos < p.pos))
            && (p.r.Err? ==> |got| + |inbox| - |p.left| < size)
            && (p.r.Err? ==> p.r.error in {Interrupted, Timeout, ConnectionLost})
            && (p.r == Err(Interrupted) ==> p.pos == |script|)
            && (p.r.Err? && FineBetween(script, pos, p.pos) ==>
                  p.r.error == Interrupted || (p.r.error == ConnectionLost && |got| + |inbox| < size))
    decreases size - |got|
  {
    if |got| < size {
      var some := PullSome(script, pos, inbox, size - |got|);
      if some.r.Ok? {
        var chunk := some.r.value;
        PullTakes(script, some.pos, some.left, size, got + chunk);
        Reassociate(got, chunk, some.left);
        TailOfTail(chunk, some.left, Pull(script, some.pos, some.left, size, got + chunk).left);
      }
    }
  }

  /** What a reader knows once it has the header. */
  lemma ReadHeader(header: Bytes, rest: Bytes, maxSize: nat)
    requires |header| == HEADER_SIZE
    ensures match DecodeFrameSize(header, maxSize)
            case Err(e) => FromBigEndian(header) > 0 && ReadStream(header + rest, maxSize) == Reading([], e)
            case Ok(size) =>
              && size <= maxSize && size == FromBigEndian(header)
              && (|rest| < size ==> ReadStream(header + rest, maxSize) == Reading([], ConnectionLost))
  {
    assert (header + rest)[..HEADER_SIZE] == header;
  }

  lemma ReadPayload(header: Bytes, payload: Bytes, rest: Bytes, maxSize: nat)
    requires DecodeFrameSize(header, maxSize) == Ok(|payload|)
    ensures Encodable(payload) && header + (payload + rest) == EncodeFrame(payload) + rest
  {
    HeaderIsEncodedSize(header, maxSize);
    Reassociate(header, payload, rest);
  }

  lemma {:induction false} PullShrinks(script: seq<Choice>, pos: nat, inbox: Bytes, size: nat, got: Bytes)
    ensures |Pull(script, pos, inbox, size, got).left| <= |inbox|
    decreases size - |got|
  {
    if |got| < size {
      var some := PullSome(script, pos, inbox, size - |got|);
      if some.r.Ok? {
        PullShrinks(script, some.pos, some.left, size, got + some.r.value);
      }
    }
  }

  /** Header, size check, payload. */
  function FramePull(script: seq<Choice>, pos: nat, inbox: Bytes, maxSize: nat): Pulled<Bytes> {
    var header := Pull(script, pos, inbox, HEADER_SIZE, []);
    match header.r
    case Err(_) => header
    case Ok(digits) =>
      match DecodeFrameSize(digits, maxSize)
      case Err(e) => Pulled(Err(e), header.pos, header.left)
      case Ok(size) => Pull(script, header.pos, header.left, size, [])
  }

  /** Reading stopped before the end of the frame at the head of the stream; what it had read is gone. */
  predicate BrokenOff(stream: Bytes, left: Bytes) {
    && Tail(stream, left)
    && var lost := |stream| - |left|;
       lost < HEADER_SIZE || lost < HEADER_SIZE + FromBigEndian(stream[..HEADER_SIZE])
  }

  /** A frame read is the head of the stream; a read that fails breaks off inside the frame at its head. */
  lemma FramePullTakes(script: seq<Choice>, pos: nat, inbox: Bytes, maxSize: nat)
    requires pos <= |script|
    ensures var p := FramePull(script, pos, inbox, maxSize);
            && pos <= p.pos <= |script|
            && (p.r.Ok? ==>
                  && |p.r.value| <= maxSize && pos < p.pos
                  && Encodable(p.r.value) && inbox == EncodeFrame(p.r.value) + p.left)
            && (p.r.Err? ==> BrokenOff(inbox, p.left))
            && (p.r.Err? && FineBetween(script, pos, p.pos) ==>
                  p.r.error == Interrupted || ReadStream(inbox, maxSize) == Reading([], p.r.error))
            && (p.r.Err? && !p.r.error.IsConnectionError() ==>
                  || (p.r.error == Interrupted && p.pos == |script|)
                  || ReadStream(inbox, maxSize) == Reading([], p.r.error))
  {
    var header := Pull(script, pos, inbox, HEADER_SIZE, []);
    PullTakes(script, pos, inbox, HEADER_SIZE, []);
    if header.r.Ok? {
      var digits := header.r.value;
      EmptyIsNeutral(inbox);
      TailOf(digits, header.left);
      ReadHeader(digits, header.left, maxSize);
      var size := DecodeFrameSize(digits, maxSize);
      if size.Ok? {
        var payload := Pull(script, header.pos, header.left, size.value, []);
        PullTakes(script, header.pos, header.left, size.value, []);
        TailOfTail(digits, header.left, payload.left);
        if payload.r.Ok? {
          EmptyIsNeutral(header.left);
          ReadPayload(digits, payload.r.value, payload.left, maxSize);
        }
      }
    }
  }

  /** Without faults to come, a read gets what has arrived, in at most one `recv` for each byte. */
  lemma {:induction false} PullArrives(script: seq<Choice>, pos: nat, inbox: Bytes, size: nat, got: Bytes)
    requires FineBetween(script, pos, |script|) && |got| <= size
    requires pos + size <= |script| + |got| && size <= |got| + |inbox|
    ensures var p, n := Pull(script, pos, inbox, size, got), size - |got|;
            p.r == Ok(got + inbox[..n]) && p.left == inbox[n..] && pos <= p.pos <= pos + n
    decreases size - |got|
  {
    var n := size - |got|;
    if n == 0 {
      EmptyIsNeutral(got);
    } else {
      var some := PullSome(script, pos, inbox, n);
      var chunk := some.r.value;
      PullArrives(script, some.pos, some.left, size, got + chunk);
      assert got + chunk + some.left[..n - |chunk|] == got + inbox[..n];
    }
  }

  /** Without faults to come, a frame that has arrived whole is read, and nothing after it. */
  lemma FrameArrives(script: seq<Choice>, pos: nat, frame: Bytes, later: Bytes, maxSize: nat)
    requires FineBetween(script, pos, |script|) && pos + FrameSize(frame) <= |script|
    requires Encodable(frame) && |frame| <= maxSize
    ensures var p := FramePull(script, pos, EncodeFrame(frame) + later, maxSize);
            p.r == Ok(frame) && p.left == later && pos < p.pos <= pos + FrameSize(frame)
  {
    var inbox, digits := EncodeFrame(frame) + later, EncodeSize(|frame|);
    assert inbox[..HEADER_SIZE] == digits && inbox[HEADER_SIZE..] == frame + later;
    SizeRoundTrip(|frame|, maxSize);
    PullArrives(script, pos, inbox, HEADER_SIZE, []);
    PullTakes(script, pos, inbox, HEADER_SIZE, []);
    EmptyIsNeutral(digits);
    var header := Pull(script, pos, inbox, HEADER_SIZE, []);
    PullArrives(script, header.pos, frame + later, |frame|, []);
    TailOf(frame, later);
    EmptyIsNeutral(frame);
  }

  /** A frame on an open socket: set the time left, then read. */
  ghost function FrameOutcome(net: Network, start: Gauge, deadline: Deadline, inbox: Bytes, maxSize: nat)
    : Pulled<Bytes>
  {
    var timed := TimeoutOutcome(net, start, deadline);
    match timed.r
    case Err(e) => Pulled(Err(e), timed.pos, inbox)
    case Ok(_) => FramePull(net.script, timed.pos, inbox, maxSize)
  }

  /** The deadline, if there is one, is not reached within the script, if nothing sleeps. */
  ghost predicate Unhurried(net: Network, at: Gauge, deadline: Deadline) {
    deadline.at.Some? && at.pos <= |net.script| ==> net.Later(at, |net.script| - at.pos).now < deadline.at.value
  }

  lemma UnhurriedLater(net: Network, at: Gauge, deadline: Deadline, operations: nat)
    requires Unhurried(net, at, deadline)
    ensures Unhurried(net, net.Later(at, operations), deadline)
  {
  }

  /** The choices used up by setting the time left. */
  function SettingCost(deadline: Deadline): nat {
    if deadline.at.Some? then 3 else 1
  }

  lemma TimeoutPasses(net: Network, at: Gauge, deadline: Deadline)
    requires net.Clocked() && Unhurried(net, at, deadline)
    requires FineBetween(net.script, at.pos, |net.script|) && at.pos + SettingCost(deadline) <= |net.script|
    ensures TimeoutOutcome(net, at, deadline) == Timed(Ok(()), at.pos + SettingCost(deadline))
  {
    if deadline.at.Some? {
      ClockGoesOn(net, at.pos + 1, |net.script|);
      ClockGoesOn(net, at.pos + 2, |net.script|);
    }
  }

  /** With time left and no faults to come, a frame that has arrived whole is read. */
  lemma FrameArrivesInTime(net: Network, at: Gauge, deadline: Deadline, frame: Bytes, later: Bytes, maxSize: nat)
    requires net.Clocked() && Unhurried(net, at, deadline) && FineBetween(net.script, at.pos, |net.script|)
    requires at.pos + SettingCost(deadline) + FrameSize(frame) <= |net.script|
    requires Encodable(frame) && |frame| <= maxSize
    ensures var p := FrameOutcome(net, at, deadline, EncodeFrame(frame) + later, maxSize);
            p.r == Ok(frame) && p.left == later
            && at.pos < p.pos <= at.pos + SettingCost(deadline) + FrameSize(frame)
  {
    TimeoutPasses(net, at, deadline);
    FrameArrives(net.script, at.pos + SettingCost(deadline), frame, later, maxSize);
  }

  lemma NothingTaken(stream: Bytes)
    ensures BrokenOff(stream, stream)
  {
  }

  /** This is what reading one frame on an open socket comes to. */
  ghost predicate IsFrame(p: Pulled<Bytes>, net: Network, start: Gauge, deadline: Deadline, inbox: Bytes,
                          maxSize: nat) {
    forall k: nat {:trigger Unfold(k)} | Unfold(k) :: p == FrameOutcome(net, start, deadline, inbox, maxSize)
  }

  /** What any attempt to read a frame does, however it ends. */
  ghost predicate TakesFrame(p: Pulled<Bytes>, start: nat, end: nat, inbox: Bytes, maxSize: nat) {
    && start <= p.pos <= end && (p.r.Ok? ==> start < p.pos)
    && forall k: nat {:trigger Unfold(k)} | Unfold(k) ::
         && (p.r.Ok? ==>
               |p.r.value| <= maxSize && Encodable(p.r.value) && inbox == EncodeFrame(p.r.value) + p.left)
         && (p.r.Err? ==> BrokenOff(inbox, p.left))
  }

  /** The time had run out by the clock at this position. */
  ghost predicate Expired(net: Network, start: Gauge, deadline: Deadline, pos: nat) {
    deadline.at.Some? && start.pos <= pos && deadline.at.value <= net.Later(start, pos - start.pos).now
  }

  lemma FrameOutcomeTakes(net: Network, start: Gauge, deadline: Deadline, inbox: Bytes, maxSize: nat)
    requires start.pos <= |net.script|
    ensures var p := FrameOutcome(net, start, deadline, inbox, maxSize);
            && TakesFrame(p, start.pos, |net.script|, inbox, maxSize)
            && (p.r.Err? && FineBetween(net.script, start.pos, p.pos) ==>
                  || p.r.error == Interrupted
                  || (p.r.error in {Timeout, InvalidValue} && Expired(net, start, deadline, p.pos))
                  || ReadStream(inbox, maxSize) == Reading([], p.r.error))
            && (p.r.Err? && !p.r.error.IsConnectionError() ==>
                  || (p.r.error == Interrupted && p.pos == |net.script|)
                  || (p.r.error == InvalidValue && Expired(net, start, deadline, p.pos))
                  || ReadStream(inbox, maxSize) == Reading([], p.r.error))
  {
    NothingTaken(inbox);
    var timed := TimeoutOutcome(net, start, deadline);
    if timed.r.Ok? {
      FramePullTakes(net.script, timed.pos, inbox, maxSize);
    }
  }

  lemma FrameTakes(p: Pulled<Bytes>, net: Network, start: Gauge, deadline: Deadline, inbox: Bytes, maxSize: nat)
    requires start.pos <= |net.script| && IsFrame(p, net, start, deadline, inbox, maxSize)
    ensures TakesFrame(p, start.pos, |net.script|, inbox, maxSize)
  {
    assert p == FrameOutcome(net, start, deadline, inbox, maxSize) by {
      assert Unfold(0);
    }
    FrameOutcomeTakes(net, start, deadline, inbox, maxSize);
  }

  ghost predicate RecvTimesOut(net: Network, start: Gauge, deadline: Deadline) {
    var timed := TimeoutOutcome(net, start, deadline);
    timed.r.Ok? && timed.pos < |net.script| && net.script[timed.pos].fault == TimedOut
  }

  /** The first `recv` decides whether a read takes anything. */
  lemma PullStarts(script: seq<Choice>, pos: nat, inbox: Bytes, size: nat)
    requires pos < |script| && size > 0
    ensures var p := Pull(script, pos, inbox, size, []);
            match script[pos].fault
            case TimedOut => p == Pulled(Err(Timeout), pos + 1, inbox)
            case Failed => p == Pulled(Err(ConnectionLost), pos + 1, inbox)
            case Fine => p.r != Err(ConnectionLost) ==> |p.left| < |inbox|
  {
    var some := PullSome(script, pos, inbox, size);
    if some.r.Ok? {
      PullShrinks(script, some.pos, some.left, size, [] + some.r.value);
    }
  }

  lemma RecvTimesOutMeans(p: Pulled<Bytes>, net: Network, start: Gauge, deadline: Deadline, inbox: Bytes, maxSize: nat)
    requires RecvTimesOut(net, start, deadline) && IsFrame(p, net, start, deadline, inbox, maxSize)
    ensures p == Pulled(Err(Timeout), TimeoutOutcome(net, start, deadline).pos + 1, inbox)
  {
    assert Unfold(0);
    PullStarts(net.script, TimeoutOutcome(net, start, deadline).pos, inbox, HEADER_SIZE);
  }

  /** A frame's timeout drops bytes exactly when it was not the first `recv` for that frame that timed out. */
  lemma TimeoutDropsIff(script: seq<Choice>, pos: nat, inbox: Bytes, maxSize: nat)
    requires pos < |script| && FramePull(script, pos, inbox, maxSize).r == Err(Timeout)
    ensures FramePull(script, pos, inbox, maxSize).left == inbox <==> script[pos].fault == TimedOut
  {
    PullStarts(script, pos, inbox, HEADER_SIZE);
    var header := Pull(script, pos, inbox, HEADER_SIZE, []);
    if header.r.Ok? && DecodeFrameSize(header.r.value, maxSize).Ok? {
      PullShrinks(script, header.pos, header.left, DecodeFrameSize(header.r.value, maxSize).value, []);
    }
  }

  /**
   * A read goes on as long as every `recv` brings bytes. It raises a timeout if
   * the last one timed out, and has lost the connection if the last one failed or
   * if there was nothing left to receive.
   */
  ghost predicate ReadsOn(e: Option<Error>, to: nat, left: Bytes, script: seq<Choice>, pos: nat) {
    match e
    case None => FineBetween(script, pos, to)
    case Some(Interrupted) => to >= |script| && FineBetween(script, pos, to)
    case Some(error) =>
      && pos < to <= |script| && FineBetween(script, pos, to - 1)
      && match script[to - 1].fault
         case TimedOut => error == Timeout
         case Failed => error == ConnectionLost
         case Fine => error == ConnectionLost && left == []
  }

  function ErrorOf<T>(r: Result<T>): Option<Error> {
    if r.Err? then Some(r.error) else None
  }

  lemma ReadsOnFrom(e: Option<Error>, to: nat, left: Bytes, script: seq<Choice>, pos: nat)
    requires pos < |script| && script[pos].fault == Fine && pos + 1 <= to && ReadsOn(e, to, left, script, pos + 1)
    ensures ReadsOn(e, to, left, script, pos)
  {
  }

  lemma {:induction false} PullReadsOn(script: seq<Choice>, pos: nat, inbox: Bytes, size: nat, got: Bytes)
    requires pos <= |script|
    ensures var p := Pull(script, pos, inbox, size, got);
            pos <= p.pos <= |script| && ReadsOn(ErrorOf(p.r), p.pos, p.left, script, pos)
    decreases size - |got|
  {
    if |got| < size {
      var some := PullSome(script, pos, inbox, size - |got|);
      if some.r.Ok? {
        PullReadsOn(script, some.pos, some.left, size, got + some.r.value);
        var p := Pull(script, some.pos, some.left, size, got + some.r.value);
        ReadsOnFrom(ErrorOf(p.r), p.pos, p.left, script, pos);
      }
    }
  }

  /** The same for a frame, unless its header is malformed. */
  lemma FrameReadsOn(script: seq<Choice>, pos: nat, inbox: Bytes, maxSize: nat)
    requires pos <= |script|
    ensures var p := FramePull(script, pos, inbox, maxSize);
            if p.r == Err(Corrupted) then FineBetween(script, pos, p.pos)
            else ReadsOn(ErrorOf(p.r), p.pos, p.left, script, pos)
  {
    PullReadsOn(script, pos, inbox, HEADER_SIZE, []);
    var header := Pull(script, pos, inbox, HEADER_SIZE, []);
    if header.r.Ok? && DecodeFrameSize(header.r.value, maxSize).Ok? {
      PullReadsOn(script, header.pos, header.left, DecodeFrameSize(header.r.value, maxSize).value, []);
    }
  }

  // ---------- a stream as frames with gaps ----------

  /**
   * What one read made of the stream: a frame, or bytes, perhaps none, thrown
   * away by the timeout of a poll that began at some moment.
   */
  datatype Stretch = Frame(payload: Bytes) | Gap(lost: Bytes, at: Gauge)

  function Spelled(s: Stretch): Bytes
    requires s.Frame? ==> Encodable(s.payload)
  {
    match s
    case Frame(payload) => EncodeFrame(payload)
    case Gap(lost, _) => lost
  }

  /**
   * The stream is these frames and gaps in this order, followed by what is
   * left; every gap lies inside the frame a reader would have seen there.
   */
  ghost predicate Heard(stream: Bytes, history: seq<Stretch>, left: Bytes, maxSize: nat) {
    if history == [] then stream == left
    else
      var last := history[|history| - 1];
      && (last.Frame? ==> Encodable(last.payload) && |last.payload| <= maxSize)
      && Heard(stream, history[..|history| - 1], Spelled(last) + left, maxSize)
      && (last.Gap? ==> BrokenOff(last.lost + left, left))
  }

  lemma HearFrame(stream: Bytes, history: seq<Stretch>, before: Bytes, payload: Bytes, left: Bytes, maxSize: nat)
    requires Heard(stream, history, before, maxSize)
    requires Encodable(payload) && |payload| <= maxSize && before == EncodeFrame(payload) + left
    ensures Heard(stream, history + [Frame(payload)], left, maxSize)
  {
    assert (history + [Frame(payload)])[..|history|] == history;
  }

  /** The bytes a read that broke off has thrown away. */
  function LostBetween(before: Bytes, left: Bytes): Bytes {
    if |left| <= |before| then before[..|before| - |left|] else []
  }

  lemma LostAddsUp(before: Bytes, left: Bytes)
    requires Tail(before, left)
    ensures LostBetween(before, left) + left == before
  {
  }

  lemma HearGap(stream: Bytes, history: seq<Stretch>, before: Bytes, left: Bytes, at: Gauge, maxSize: nat)
    requires Heard(stream, history, before, maxSize) && BrokenOff(before, left)
    ensures Heard(stream, history + [Gap(LostBetween(before, left), at)], left, maxSize)
  {
    var gap := Gap(LostBetween(before, left), at);
    LostAddsUp(before, left);
    assert (history + [gap])[..|history|] == history;
  }

  function Frames(history: seq<Stretch>): seq<Bytes> {
    if history == [] then []
    else
      var last := history[|history| - 1];
      Frames(history[..|history| - 1]) + if last.Frame? then [last.payload] else []
  }

  /** There are only frames. */
  ghost predicate Gapless(history: seq<Stretch>) {
    forall i | 0 <= i < |history| :: history[i].Frame?
  }

  /** No timeout threw a byte away. */
  ghost predicate Untouched(history: seq<Stretch>) {
    forall i | 0 <= i < |history| && history[i].Gap? :: history[i].lost == []
  }

  /** What a consumer of the stream sees of it. */
  function Items(history: seq<Stretch>): seq<Option<Bytes>> {
    seq(|history|, i requires 0 <= i < |history| => if history[i].Frame? then Some(history[i].payload) else None)
  }

  lemma {:induction false} FramesAreEncodable(stream: Bytes, history: seq<Stretch>, left: Bytes, maxSize: nat)
    requires Heard(stream, history, left, maxSize)
    ensures forall f <- Frames(history) :: Encodable(f)
  {
    if history != [] {
      var last := history[|history| - 1];
      FramesAreEncodable(stream, history[..|history| - 1], Spelled(last) + left, maxSize);
    }
  }

  function TotalLost(history: seq<Stretch>): nat {
    if history == [] then 0
    else
      var last := history[|history| - 1];
      TotalLost(history[..|history| - 1]) + if last.Gap? then |last.lost| else 0
  }

  lemma {:induction false} UntouchedLosesNothing(history: seq<Stretch>)
    ensures Untouched(history) <==> TotalLost(history) == 0
  {
    if history != [] {
      var init := history[..|history| - 1];
      UntouchedLosesNothing(init);
      assert forall i | 0 <= i < |init| :: init[i] == history[i];
    }
  }

  /** Every byte of the stream is accounted for, and without gaps the stream is its frames and the rest. */
  lemma {:induction false} BytesAccountedFor(stream: Bytes, history: seq<Stretch>, left: Bytes, maxSize: nat)
    requires Heard(stream, history, left, maxSize)
    requires forall f <- Frames(history) :: Encodable(f)
    ensures |stream| == |EncodeAll(Frames(history))| + TotalLost(history) + |left|
    ensures TotalLost(history) == 0 ==> stream == EncodeAll(Frames(history)) + left
  {
    if history == [] {
      EmptyIsNeutral(left);
    } else {
      var init, last := history[..|history| - 1], history[|history| - 1];
      FramesAreEncodable(stream, init, Spelled(last) + left, maxSize);
      BytesAccountedFor(stream, init, Spelled(last) + left, maxSize);
      if last.Frame? {
        EncodeAllAppend(Frames(init), [last.payload]);
        assert EncodeAll([last.payload]) == EncodeFrame(last.payload);
        Reassociate(EncodeAll(Frames(init)), EncodeFrame(last.payload), left);
      } else {
        EmptyIsNeutral(Frames(init));
        EmptyIsNeutral(left);
      }
    }
  }

  /** The frames yielded are the first of those sent, and what is unread is the others. */
  ghost predicate InOrder(payloads: seq<Bytes>, frames: seq<Bytes>, left: Bytes)
    requires forall p <- payloads :: Encodable(p)
  {
    && |frames| <= |payloads| && frames == payloads[..|frames|]
    && left == EncodeAll(payloads[|frames|..])
  }

  lemma InOrderAddsUp(payloads: seq<Bytes>, frames: seq<Bytes>, left: Bytes)
    requires forall p <- payloads :: Encodable(p)
    requires forall f <- frames :: Encodable(f)
    requires InOrder(payloads, frames, left)
    ensures |EncodeAll(payloads)| == |EncodeAll(frames)| + |left|
  {
    EncodeAllAppend(frames, payloads[|frames|..]);
    assert payloads == frames + payloads[|frames|..];
  }

  /** A polled reader keeps step with the stream exactly as long as every timeout found its frame untouched. */
  lemma InOrderIffUntouched(payloads: seq<Bytes>, history: seq<Stretch>, left: Bytes, maxSize: nat)
    requires forall p <- payloads :: Encodable(p)
    requires Heard(EncodeAll(payloads), history, left, maxSize)
    ensures InOrder(payloads, Frames(history), left) <==> Untouched(history)
  {
    var frames := Frames(history);
    FramesAreEncodable(EncodeAll(payloads), history, left, maxSize);
    BytesAccountedFor(EncodeAll(payloads), history, left, maxSize);
    UntouchedLosesNothing(history);
    if Untouched(history) {
      FramedPrefix(frames, left, payloads);
    }
    if InOrder(payloads, frames, left) {
      InOrderAddsUp(payloads, frames, left);
    }
  }

  /** Without polling there are no gaps, and the stream reads as the frames so far and then the rest. */
  lemma {:induction false} HeardExactly(stream: Bytes, history: seq<Stretch>, left: Bytes, maxSize: nat)
    requires Heard(stream, history, left, maxSize) && Gapless(history)
    ensures ReadStream(stream, maxSize) == Prepend(Frames(history), ReadStream(left, maxSize))
  {
    var rest := ReadStream(left, maxSize).frames;
    if history == [] {
      EmptyIsNeutral(rest);
    } else {
      var init, last := history[..|history| - 1], history[|history| - 1];
      HeardExactly(stream, init, EncodeFrame(last.payload) + left, maxSize);
      ReadOneFrame(last.payload, left, maxSize);
      Reassociate(Frames(init), [last.payload], rest);
    }
  }

  /** What a reader makes of one poll: a frame, or the bytes lost to a timeout. */
  function NextStretch(before: Bytes, item: Option<Bytes>, left: Bytes, at: Gauge): Stretch {
    if item.Some? then Frame(item.value) else Gap(LostBetween(before, left), at)
  }

  lemma HearMore(stream: Bytes, history: seq<Stretch>, before: Bytes, item: Option<Bytes>, left: Bytes, at: Gauge,
                 maxSize: nat)
    requires Heard(stream, history, before, maxSize)
    requires match item
      case Some(f) => Encodable(f) && |f| <= maxSize && before == EncodeFrame(f) + left
      case None => BrokenOff(before, left)
    ensures Heard(stream, history + [NextStretch(before, item, left, at)], left, maxSize)
    ensures Items(history + [NextStretch(before, item, left, at)]) == Items(history) + [item]
  {
    match item {
      case Some(f) => HearFrame(stream, history, before, f, left, maxSize);
      case None => HearGap(stream, history, before, left, at, maxSize);
    }
  }

  /** A reader without gaps that fails as the rest of the stream says ends as the whole stream says. */
  lemma EndsAsStream(stream: Bytes, history: seq<Stretch>, left: Bytes, maxSize: nat, end: Error)
    requires Heard(stream, history, left, maxSize) && Gapless(history)
    requires ReadStream(left, maxSize) == Reading([], end)
    ensures Reading(Frames(history), end) == ReadStream(stream, maxSize)
  {
    HeardExactly(stream, history, left, maxSize);
    EmptyIsNeutral(Frames(history));
  }

  // ---------- polling ----------

  /** With polling, a timeout is no error but the absence of a frame. */
  function PollResult(frame: Result<Bytes>, polling: bool): Result<Option<Bytes>> {
    match frame
    case Ok(payload) => Ok(Some(payload))
    case Err(e) => if polling && e == Timeout then Ok(None) else Err(e)
  }

  ghost function PollDeadline(net: Network, start: Gauge, interval: real): Deadline {
    Deadline(Some(net.Later(start, 1).now + interval))
  }

  function Polled(p: Pulled<Bytes>, polling: bool): Pulled<Option<Bytes>> {
    Pulled(PollResult(p.r, polling), p.pos, p.left)
  }

  /** One poll: a frame within the interval, or nothing. */
  ghost function PollOutcome(net: Network, start: Gauge, pollInterval: Option<real>, inbox: Bytes, maxSize: nat)
    : Pulled<Option<Bytes>>
  {
    if pollInterval.None? then Polled(FrameOutcome(net, start, NO_DEADLINE, inbox, maxSize), false)
    else if start.pos >= |net.script| then Pulled(Err(Interrupted), start.pos, inbox)
    else
      var deadline := PollDeadline(net, start, pollInterval.value);
      Polled(FrameOutcome(net, net.Later(start, 1), deadline, inbox, maxSize), true)
  }

  /** This is what one poll on an open socket comes to. */
  ghost predicate IsPoll(p: Pulled<Option<Bytes>>, net: Network, start: Gauge, pollInterval: Option<real>, inbox: Bytes,
                         maxSize: nat) {
    forall k: nat {:trigger Unfold(k)} | Unfold(k) :: p == PollOutcome(net, start, pollInterval, inbox, maxSize)
  }

  lemma PollIsFrame(p: Pulled<Bytes>, net: Network, start: Gauge, begun: Gauge, pollInterval: Option<real>,
                    deadline: Deadline, inbox: Bytes, maxSize: nat)
    requires match pollInterval
      case None => begun == start && deadline == NO_DEADLINE
      case Some(interval) =>
        start.pos < |net.script| && begun == net.Later(start, 1) && deadline == Deadline(Some(begun.now + interval))
    requires IsFrame(p, net, begun, deadline, inbox, maxSize)
    ensures IsPoll(Polled(p, pollInterval.Some?), net, start, pollInterval, inbox, maxSize)
  {
    assert Unfold(0);
  }

  lemma PollInterrupted(net: Network, start: Gauge, pollInterval: Option<real>, inbox: Bytes, maxSize: nat)
    requires pollInterval.Some? && start.pos >= |net.script|
    ensures IsPoll(Pulled(Err(Interrupted), start.pos, inbox), net, start, pollInterval, inbox, maxSize)
  {
  }

  /** A frame that is there is yielded, in any pieces, if nothing fails and the interval, if any, is long enough. */
  lemma PollArrives(net: Network, start: Gauge, pollInterval: Option<real>, frame: Bytes, later: Bytes, maxSize: nat)
    requires net.Clocked() && FineBetween(net.script, start.pos, |net.script|)
    requires Encodable(frame) && |frame| <= maxSize && start.pos + 4 + FrameSize(frame) <= |net.script|
    requires pollInterval.Some? ==> net.spent(|net.script|) - net.spent(start.pos + 1) < pollInterval.value
    ensures var p := PollOutcome(net, start, pollInterval, EncodeFrame(frame) + later, maxSize);
            p.r == Ok(Some(frame)) && p.left == later
  {
    if pollInterval.None? {
      FrameArrivesInTime(net, start, NO_DEADLINE, frame, later, maxSize);
    } else {
      FrameArrivesInTime(net, net.Later(start, 1), PollDeadline(net, start, pollInterval.value), frame, later, maxSize);
    }
  }

  /** A poll yields nothing only when polling, and only if an operation timed out or the interval had passed. */
  lemma PollYieldsNothing(net: Network, start: Gauge, pollInterval: Option<real>, inbox: Bytes, maxSize: nat)
    requires start.pos <= |net.script| && PollOutcome(net, start, pollInterval, inbox, maxSize).r == Ok(None)
    ensures var p := PollOutcome(net, start, pollInterval, inbox, maxSize);
            && pollInterval.Some? && start.pos < p.pos <= |net.script|
            && (net.script[p.pos - 1].fault == TimedOut
                || pollInterval.value <= net.spent(p.pos) - net.spent(start.pos + 1))
  {
    var begun, deadline := net.Later(start, 1), PollDeadline(net, start, pollInterval.value);
    var timed := TimeoutOutcome(net, begun, deadline);
    if timed.r.Ok? {
      FrameReadsOn(net.script, timed.pos, inbox, maxSize);
    }
  }

  /** A poll yields the frame at the head of the stream, or breaks off inside it. */
  ghost predicate TakesPoll(p: Pulled<Option<Bytes>>, start: nat, script: seq<Choice>, polling: bool, inbox: Bytes,
                            maxSize: nat) {
    && start <= p.pos <= |script| && (p.r.Ok? ==> start < p.pos)
    && (p.r == Ok(None) ==> polling) && (p.r == Err(Timeout) ==> !polling)
    && forall k: nat {:trigger Unfold(k)} | Unfold(k) ::
         match p.r
         case Ok(Some(frame)) =>
           && Encodable(frame) && |frame| <= maxSize && inbox == EncodeFrame(frame) + p.left
         case Ok(None) => BrokenOff(inbox, p.left)
         case Err(e) =>
           && BrokenOff(inbox, p.left)
           && (FineBetween(script, start, p.pos) ==>
                 e == Interrupted || (polling && e == InvalidValue) || ReadStream(inbox, maxSize) == Reading([], e))
  }

  lemma PollTakes(p: Pulled<Option<Bytes>>, net: Network, start: Gauge, pollInterval: Option<real>, inbox: Bytes,
                  maxSize: nat)
    requires start.pos <= |net.script| && IsPoll(p, net, start, pollInterval, inbox, maxSize)
    ensures TakesPoll(p, start.pos, net.script, pollInterval.Some?, inbox, maxSize)
  {
    assert p == PollOutcome(net, start, pollInterval, inbox, maxSize) by {
      assert Unfold(0);
    }
    assert Unfold(0);
    NothingTaken(inbox);
    if pollInterval.None? {
      FrameOutcomeTakes(net, start, NO_DEADLINE, inbox, maxSize);
    } else if start.pos < |net.script| {
      FrameOutcomeTakes(net, net.Later(start, 1), PollDeadline(net, start, pollInterval.value), inbox, maxSize);
    }
  }

  /** The interval ended before the first `recv` for the frame, or during it. */
  ghost predicate PollFoundFrameUntouched(net: Network, start: Gauge, interval: real) {
    var timed := TimeoutOutcome(net, net.Later(start, 1), PollDeadline(net, start, interval));
    timed.r == Err(Timeout) || (timed.pos < |net.script| && net.script[timed.pos].fault == TimedOut)
  }

  /** A poll that yields nothing drops bytes exactly when its interval ended after the frame had begun to arrive. */
  ghost predicate DropsOnlyWithinFrame(p: Pulled<Option<Bytes>>, net: Network, start: Gauge, pollInterval: Option<real>,
                                       inbox: Bytes) {
    forall k: nat {:trigger Unfold(k)} | Unfold(k) ::
      p.r == Ok(None) && pollInterval.Some? ==>
        (p.left == inbox <==> PollFoundFrameUntouched(net, start, pollInterval.value))
  }

  lemma PollDropsIff(p: Pulled<Option<Bytes>>, net: Network, start: Gauge, pollInterval: Option<real>, inbox: Bytes,
                     maxSize: nat)
    requires IsPoll(p, net, start, pollInterval, inbox, maxSize)
    ensures DropsOnlyWithinFrame(p, net, start, pollInterval, inbox)
  {
    assert Unfold(0);
    if p.r == Ok(None) && pollInterval.Some? {
      var interval := pollInterval.value;
      var timed := TimeoutOutcome(net, net.Later(start, 1), PollDeadline(net, start, interval));
      if timed.r.Ok? && timed.pos < |net.script| {
        TimeoutDropsIff(net.script, timed.pos, inbox, maxSize);
      }
    }
  }

  /** How polling shows in a history: only polls leave gaps, and those that found their frame untouched empty ones. */
  ghost predicate Gaps(net: Network, pollInterval: Option<real>, history: seq<Stretch>) {
    forall i | 0 <= i < |history| && history[i].Gap? ::
      && pollInterval.Some?
      && (history[i].lost == [] <==> PollFoundFrameUntouched(net, history[i].at, pollInterval.value))
  }

  /** Following a stream: what became of its bytes so far, and what is left. */
  ghost predicate Followed(stream: Bytes, history: seq<Stretch>, left: Bytes, maxSize: nat, net: Network,
                           pollInterval: Option<real>) {
    forall k: nat {:trigger Unfold(k)} | Unfold(k) ::
      Heard(stream, history, left, maxSize) && Gaps(net, pollInterval, history)
  }

  lemma NothingFollowed(stream: Bytes, maxSize: nat, net: Network, pollInterval: Option<real>)
    ensures Followed(stream, [], stream, maxSize, net, pollInterval)
  {
  }

  lemma FollowMore(stream: Bytes, history: seq<Stretch>, p: Pulled<Option<Bytes>>, at: Gauge, before: Bytes,
                   maxSize: nat, net: Network, pollInterval: Option<real>)
    requires Followed(stream, history, before, maxSize, net, pollInterval)
    requires TakesPoll(p, at.pos, net.script, pollInterval.Some?, before, maxSize) && p.r.Ok?
    requires DropsOnlyWithinFrame(p, net, at, pollInterval, before)
    ensures var next := NextStretch(before, p.r.value, p.left, at);
            && Followed(stream, history + [next], p.left, maxSize, net, pollInterval)
            && Items(history + [next]) == Items(history) + [p.r.value]
            && Frames(history + [next]) == Frames(history) + if p.r.value.Some? then [p.r.value.value] else []
  {
    assert Unfold(0);
    HearMore(stream, history, before, p.r.value, p.left, at, maxSize);
    var next := NextStretch(before, p.r.value, p.left, at);
    assert (history + [next])[..|history|] == history;
  }

  lemma FollowEnds(stream: Bytes, history: seq<Stretch>, p: Pulled<Option<Bytes>>, start: nat, before: Bytes,
                   maxSize: nat, net: Network, pollInterval: Option<real>)
    requires Followed(stream, history, before, maxSize, net, pollInterval)
    requires TakesPoll(p, start, net.script, pollInterval.Some?, before, maxSize) && p.r.Err?
    ensures BrokenOff(before, p.left)
    ensures FineBetween(net.script, start, p.pos) && pollInterval.None? ==>
      p.r.error == Interrupted || Reading(Frames(history), p.r.error) == ReadStream(stream, maxSize)
  {
    assert Unfold(0);
    if FineBetween(net.script, start, p.pos) && pollInterval.None? && p.r.error != Interrupted {
      EndsAsStream(stream, history, before, maxSize, p.r.error);
    }
  }

  /** A polled reader keeps step with the stream exactly as long as every poll that gave up had read nothing. */
  lemma PolledInOrderIff(payloads: seq<Bytes>, history: seq<Stretch>, left: Bytes, maxSize: nat, net: Network,
                         interval: real)
    requires forall p <- payloads :: Encodable(p)
    requires Followed(EncodeAll(payloads), history, left, maxSize, net, Some(interval))
    ensures InOrder(payloads, Frames(history), left) <==>
            forall i | 0 <= i < |history| && history[i].Gap? ::
              PollFoundFrameUntouched(net, history[i].at, interval)
  {
    assert Unfold(0);
    InOrderIffUntouched(payloads, history, left, maxSize);
  }
}
