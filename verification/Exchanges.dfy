/** What becomes of a request, of its reply and of a reconnect, as functions of the script. */
module Exchanges {
  import opened Core
  import opened Framing
  import opened Reconnect
  import opened Transport
  import opened Reads
  import opened Responses
  import opened Chunked

  const DEFAULT_MAX_MESSAGE_SIZE: nat := 4096
  const PROTOCOL_VERSION: nat := 1

  // ---------- requests ----------

  /** The checks before `sendall`, in their order. */
  ghost function PreparedOutcome(net: Network, start: Gauge, deadline: Deadline, payload: Bytes, maxSize: nat,
                                 open: bool): (t: Timed)
    ensures start.pos <= t.pos && (start.pos <= |net.script| ==> t.pos <= |net.script|)
  {
    if |payload| > maxSize then Timed(Err(Protocol(MESSAGE_SIZE_EXCEEDS_MAXIMUM)), start.pos)
    else if !open then Timed(Err(ConnectionLost), start.pos)
    else
      var timed := TimeoutOutcome(net, start, deadline);
      if timed.r.Ok? && !Encodable(payload) then Timed(Err(SizeOverflow), timed.pos) else timed
  }

  /** What becomes of a request: the checks, then whatever the script does to `sendall`. */
  ghost function RequestOutcome(net: Network, start: Gauge, deadline: Deadline, payload: Bytes, maxSize: nat,
                                open: bool): (t: Timed)
    ensures start.pos <= t.pos && (start.pos <= |net.script| ==> t.pos <= |net.script|)
  {
    var prepared := PreparedOutcome(net, start, deadline, payload, maxSize, open);
    if prepared.r.Err? then prepared
    else if prepared.pos >= |net.script| then Timed(Err(Interrupted), prepared.pos)
    else Timed(Outcome(net.script[prepared.pos], ()), prepared.pos + 1)
  }

  /** Nothing stops a request before its bytes go to the socket; the choice there decides the rest. */
  ghost predicate ReachesSocket(net: Network, start: Gauge, deadline: Deadline, payload: Bytes, maxSize: nat,
                                open: bool) {
    var prepared := PreparedOutcome(net, start, deadline, payload, maxSize, open);
    prepared.r.Ok? && prepared.pos < |net.script|
  }

  /**
   * A request raises the flag if the whole frame left, or may have: `sendall`
   * succeeded or timed out. A broken socket leaves the flag as it was.
   */
  ghost predicate RaisesFlag(net: Network, start: Gauge, deadline: Deadline, payload: Bytes, maxSize: nat, open: bool) {
    forall k: nat {:trigger UnfoldOn(Flags, k)} | UnfoldOn(Flags, k) ::
      && ReachesSocket(net, start, deadline, payload, maxSize, open)
      && net.script[PreparedOutcome(net, start, deadline, payload, maxSize, open).pos].fault != Failed
  }

  lemma RaisesFlagIf(net: Network, start: Gauge, deadline: Deadline, payload: Bytes, maxSize: nat, open: bool)
    ensures RaisesFlag(net, start, deadline, payload, maxSize, open) <==>
            && ReachesSocket(net, start, deadline, payload, maxSize, open)
            && net.script[PreparedOutcome(net, start, deadline, payload, maxSize, open).pos].fault != Failed
  {
    assert UnfoldOn(Flags, 0);
  }

  /** This is what a request comes to. */
  ghost predicate IsRequest(t: Timed, net: Network, start: Gauge, deadline: Deadline, payload: Bytes, maxSize: nat,
                            open: bool) {
    forall k: nat {:trigger Unfold(k)} | Unfold(k) ::
      t == RequestOutcome(net, start, deadline, payload, maxSize, open)
  }

  /** A request that loses the connection does so for a reason. */
  lemma RequestLost(t: Timed, net: Network, start: Gauge, deadline: Deadline, payload: Bytes, maxSize: nat, open: bool)
    requires IsRequest(t, net, start, deadline, payload, maxSize, open)
    requires t.r.Err? && t.r.error.IsConnectionError()
    ensures !open || !FineBetween(net.script, start.pos, t.pos) || Expired(net, start, deadline, t.pos)
  {
    assert Unfold(0);
    assert open && !Expired(net, start, deadline, t.pos) ==> net.script[t.pos - 1].fault != Fine;
  }

  /** With time left and no faults to come, a request that is not too long leaves an open connection. */
  lemma RequestLeaves(net: Network, at: Gauge, deadline: Deadline, payload: Bytes, maxSize: nat)
    requires net.Clocked() && Unhurried(net, at, deadline) && FineBetween(net.script, at.pos, |net.script|)
    requires |payload| <= maxSize && Encodable(payload) && at.pos + SettingCost(deadline) < |net.script|
    ensures RequestOutcome(net, at, deadline, payload, maxSize, true)
         == Timed(Ok(()), at.pos + SettingCost(deadline) + 1)
  {
    TimeoutPasses(net, at, deadline);
  }

  /** Without a deadline, what the script does to `sendall` is what the request comes to. */
  lemma RequestByFault(net: Network, at: Gauge, payload: Bytes, maxSize: nat)
    requires |payload| <= maxSize && Encodable(payload)
    requires at.pos + 1 < |net.script| && net.script[at.pos].fault == Fine
    ensures var fault := net.script[at.pos + 1].fault;
            && RequestOutcome(net, at, NO_DEADLINE, payload, maxSize, true)
               == Timed(if fault == Fine then Ok(()) else Err(if fault == TimedOut then Timeout else ConnectionLost),
                        at.pos + 2)
            && (RaisesFlag(net, at, NO_DEADLINE, payload, maxSize, true) <==> fault != Failed)
  {
    RaisesFlagIf(net, at, NO_DEADLINE, payload, maxSize, true);
  }

  // ---------- replies ----------

  /** The shape of a reply: one frame, or a group of frames for a chunked command. */
  ghost predicate IsReply(chunked: bool, frames: seq<Bytes>) {
    if chunked then IsGroup(frames) else |frames| == 1
  }

  ghost function ReplyValue(chunked: bool, frames: seq<Bytes>): Result<Bytes>
    requires IsReply(chunked, frames)
  {
    if chunked then Answer(frames) else Ok(frames[0])
  }

  /** Frames fed to an assembler until one ends the reply. */
  ghost function ChunksOutcome(net: Network, start: Gauge, deadline: Deadline, inbox: Bytes, maxSize: nat, body: Bytes)
    : Pulled<Bytes>
    decreases |net.script| - start.pos
  {
    if start.pos > |net.script| then Pulled(Err(Interrupted), start.pos, inbox)
    else
      FrameOutcomeTakes(net, start, deadline, inbox, maxSize);
      var p := FrameOutcome(net, start, deadline, inbox, maxSize);
      match p.r
      case Err(e) => p
      case Ok(frame) =>
        var step := FeedStep(body, frame);
        match step.result
        case Err(e) => Pulled(Err(e), p.pos, p.left)
        case Ok(Some(response)) => Pulled(Ok(response), p.pos, p.left)
        case Ok(None) => ChunksOutcome(net, net.Later(start, p.pos - start.pos), deadline, p.left, maxSize, step.body)
  }

  /** The reading half of an exchange. */
  ghost function ReplyOutcome(net: Network, start: Gauge, deadline: Deadline, inbox: Bytes, maxSize: nat, chunked: bool)
    : Pulled<Bytes>
  {
    if chunked then ChunksOutcome(net, start, deadline, inbox, maxSize, [])
    else FrameOutcome(net, start, deadline, inbox, maxSize)
  }

  /** This is what reading a reply comes to. */
  ghost predicate IsReading(p: Pulled<Bytes>, net: Network, start: Gauge, deadline: Deadline, inbox: Bytes,
                            maxSize: nat, chunked: bool) {
    forall k: nat {:trigger Unfold(k)} | Unfold(k) ::
      p == ReplyOutcome(net, start, deadline, inbox, maxSize, chunked)
  }

  lemma FrameIsReading(p: Pulled<Bytes>, net: Network, start: Gauge, deadline: Deadline, inbox: Bytes, maxSize: nat)
    requires IsFrame(p, net, start, deadline, inbox, maxSize)
    ensures IsReading(p, net, start, deadline, inbox, maxSize, false)
  {
  }

  /** What is still to be read, after some frames, decides the whole. */
  ghost predicate GoesOn(net: Network, deadline: Deadline, maxSize: nat, start: Gauge, inbox: Bytes, now: Gauge,
                         left: Bytes, body: Bytes) {
    forall k: nat {:trigger Unfold(k)} | Unfold(k) ::
      ChunksOutcome(net, start, deadline, inbox, maxSize, []) == ChunksOutcome(net, now, deadline, left, maxSize, body)
  }

  lemma NothingReadYet(net: Network, deadline: Deadline, maxSize: nat, start: Gauge, inbox: Bytes)
    ensures GoesOn(net, deadline, maxSize, start, inbox, start, inbox, [])
  {
  }

  /** One more frame ends the reply, or leaves the rest of it to be read. */
  lemma OneMoreChunk(p: Pulled<Bytes>, net: Network, deadline: Deadline, maxSize: nat, start: Gauge, inbox: Bytes,
                     now: Gauge, next: Gauge, before: Bytes, body: Bytes)
    requires now.pos <= |net.script| && GoesOn(net, deadline, maxSize, start, inbox, now, before, body)
    requires IsFrame(p, net, now, deadline, before, maxSize)
    requires Passes(net.spent, now, next) && next.slept == now.slept && next.pos == p.pos
    ensures p.r.Err? ==> IsReading(Pulled(Err(p.r.error), p.pos, p.left), net, start, deadline, inbox, maxSize, true)
    ensures p.r.Ok? ==>
      var step := FeedStep(body, p.r.value);
      match step.result
      case Ok(None) => GoesOn(net, deadline, maxSize, start, inbox, next, p.left, step.body)
      case Ok(Some(response)) =>
        IsReading(Pulled(Ok(response), p.pos, p.left), net, start, deadline, inbox, maxSize, true)
      case Err(e) => IsReading(Pulled(Err(e), p.pos, p.left), net, start, deadline, inbox, maxSize, true)
  {
    assert Unfold(0);
    NothingSlept(net, now, next);
  }

  /** A request and the read of its reply. */
  ghost function AnswerOutcome(net: Network, start: Gauge, deadline: Deadline, payload: Bytes, maxSize: nat, open: bool,
                               inbox: Bytes, chunked: bool): Pulled<Bytes>
  {
    var written := RequestOutcome(net, start, deadline, payload, maxSize, open);
    if written.r.Err? then Pulled(Err(written.r.error), written.pos, inbox)
    else ReplyOutcome(net, net.Later(start, written.pos - start.pos), deadline, inbox, maxSize, chunked)
  }

  /** This is what `send` and `send_chunked` come to. */
  ghost predicate IsAnswer(p: Pulled<Bytes>, net: Network, start: Gauge, deadline: Deadline, payload: Bytes,
                           maxSize: nat, open: bool, inbox: Bytes, chunked: bool) {
    forall k: nat {:trigger Unfold(k)} | Unfold(k) ::
      p == AnswerOutcome(net, start, deadline, payload, maxSize, open, inbox, chunked)
  }

  lemma NothingAnswered(written: Timed, net: Network, start: Gauge, deadline: Deadline, payload: Bytes, maxSize: nat,
                        open: bool, inbox: Bytes, chunked: bool)
    requires IsRequest(written, net, start, deadline, payload, maxSize, open) && written.r.Err?
    ensures IsAnswer(Pulled(Err(written.r.error), written.pos, inbox), net, start, deadline, payload, maxSize, open,
                     inbox, chunked)
  {
    assert Unfold(0);
  }

  lemma ReadAfterRequest(written: Timed, p: Pulled<Bytes>, net: Network, start: Gauge, middle: Gauge,
                         deadline: Deadline, payload: Bytes, maxSize: nat, open: bool, inbox: Bytes, chunked: bool)
    requires IsRequest(written, net, start, deadline, payload, maxSize, open) && written.r.Ok?
    requires Passes(net.spent, start, middle) && middle.pos == written.pos && middle.slept == start.slept
    requires IsReading(p, net, middle, deadline, inbox, maxSize, chunked)
    ensures IsAnswer(p, net, start, deadline, payload, maxSize, open, inbox, chunked)
  {
    NothingSlept(net, start, middle);
    assert Unfold(0);
  }

  // ---------- replies that do not arrive ----------

  lemma EmptyReadingLost(stream: Bytes, maxSize: nat, e: Error)
    requires ReadStream(stream, maxSize) == Reading([], e) && e.IsConnectionError()
    ensures e == ConnectionLost
  {
  }

  /** The server's bytes end before the reply does. */
  ghost predicate EndsTooEarly(stream: Bytes, maxSize: nat, chunked: bool) {
    var whole := ReadStream(stream, maxSize);
    whole.ending == ConnectionLost && if chunked then FirstEnd(whole.frames) == |whole.frames| else whole.frames == []
  }

  lemma FrameLost(p: Pulled<Bytes>, net: Network, start: Gauge, deadline: Deadline, inbox: Bytes, maxSize: nat)
    requires start.pos <= |net.script| && p == FrameOutcome(net, start, deadline, inbox, maxSize)
    requires p.r.Err? && p.r.error.IsConnectionError()
    ensures !FineBetween(net.script, start.pos, p.pos) || Expired(net, start, deadline, p.pos)
         || ReadStream(inbox, maxSize) == Reading([], ConnectionLost)
  {
    FrameOutcomeTakes(net, start, deadline, inbox, maxSize);
    if ReadStream(inbox, maxSize) == Reading([], p.r.error) {
      EmptyReadingLost(inbox, maxSize, p.r.error);
    }
  }

  lemma StartsLater(net: Network, a: Gauge, b: Gauge, deadline: Deadline, pos: nat)
    requires a.pos <= b.pos && b == net.Later(a, b.pos - a.pos)
    ensures Expired(net, b, deadline, pos) ==> Expired(net, a, deadline, pos)
    ensures !FineBetween(net.script, b.pos, pos) ==> !FineBetween(net.script, a.pos, pos)
  {
  }

  lemma ChunkTaken(net: Network, start: Gauge, deadline: Deadline, inbox: Bytes, maxSize: nat)
    requires start.pos <= |net.script| && FrameOutcome(net, start, deadline, inbox, maxSize).r.Ok?
    ensures var p := FrameOutcome(net, start, deadline, inbox, maxSize);
            && start.pos < p.pos <= |net.script|
            && ReadStream(inbox, maxSize) == Prepend([p.r.value], ReadStream(p.left, maxSize))
  {
    FrameOutcomeTakes(net, start, deadline, inbox, maxSize);
    assert Unfold(0);
    var p := FrameOutcome(net, start, deadline, inbox, maxSize);
    ReadOneFrame(p.r.value, p.left, maxSize);
  }

  lemma EndsEarlyBefore(frame: Bytes, inbox: Bytes, left: Bytes, maxSize: nat)
    requires ReadStream(inbox, maxSize) == Prepend([frame], ReadStream(left, maxSize)) && Continues(frame)
    ensures EndsTooEarly(left, maxSize, true) ==> EndsTooEarly(inbox, maxSize, true)
  {
    var later := ReadStream(left, maxSize).frames;
    assert ([frame] + later)[1..] == later;
  }

  /** A frame that can be fed loses no connection, and goes on only if it announces another one. */
  lemma FeedingLosesNothing(body: Bytes, frame: Bytes)
    ensures var step := FeedStep(body, frame);
            && (step.result.Err? ==> !step.result.error.IsConnectionError())
            && (step.result == Ok(None) ==> Continues(frame) && step.body == body + Data(frame))
  {
  }

  /** What a chunked reply comes to, by its first frame. */
  lemma ChunkByChunk(p: Pulled<Bytes>, step: Step, net: Network, start: Gauge, deadline: Deadline, inbox: Bytes,
                     maxSize: nat, body: Bytes)
    requires start.pos <= |net.script| && p == FrameOutcome(net, start, deadline, inbox, maxSize)
    requires p.r.Ok? ==> step == FeedStep(body, p.r.value)
    ensures ChunksOutcome(net, start, deadline, inbox, maxSize, body)
         == if p.r.Err? then p
            else if step.result.Err? then Pulled(Err(step.result.error), p.pos, p.left)
            else if step.result.value.Some? then Pulled(Ok(step.result.value.value), p.pos, p.left)
            else
              ChunksOutcome(net, net.Later(start, if start.pos <= p.pos then p.pos - start.pos else 0), deadline,
                            p.left, maxSize, step.body)
  {
    FrameOutcomeTakes(net, start, deadline, inbox, maxSize);
  }

  /** A lost connection is excused by a fault, the deadline, or a server whose bytes end too early. */
  ghost predicate Excused(net: Network, start: Gauge, deadline: Deadline, pos: nat, inbox: Bytes, maxSize: nat,
                          chunked: bool) {
    forall k: nat {:trigger Unfold(k)} | Unfold(k) ::
      || !FineBetween(net.script, start.pos, pos) || Expired(net, start, deadline, pos)
      || EndsTooEarly(inbox, maxSize, chunked)
  }

  lemma ExcusedBefore(net: Network, a: Gauge, b: Gauge, deadline: Deadline, pos: nat, frame: Bytes, inbox: Bytes,
                      left: Bytes, maxSize: nat)
    requires a.pos <= b.pos && b == net.Later(a, b.pos - a.pos) && Excused(net, b, deadline, pos, left, maxSize, true)
    requires ReadStream(inbox, maxSize) == Prepend([frame], ReadStream(left, maxSize)) && Continues(frame)
    ensures Excused(net, a, deadline, pos, inbox, maxSize, true)
  {
    assert Unfold(0);
    StartsLater(net, a, b, deadline, pos);
    EndsEarlyBefore(frame, inbox, left, maxSize);
  }

  lemma FrameExcused(p: Pulled<Bytes>, net: Network, start: Gauge, deadline: Deadline, inbox: Bytes, maxSize: nat,
                     chunked: bool)
    requires start.pos <= |net.script| && p == FrameOutcome(net, start, deadline, inbox, maxSize)
    requires p.r.Err? && p.r.error.IsConnectionError()
    ensures Excused(net, start, deadline, p.pos, inbox, maxSize, chunked)
  {
    FrameLost(p, net, start, deadline, inbox, maxSize);
  }

  lemma {:induction false} ChunksLost(net: Network, start: Gauge, deadline: Deadline, inbox: Bytes, maxSize: nat,
                                      body: Bytes)
    requires start.pos <= |net.script|
    ensures var p := ChunksOutcome(net, start, deadline, inbox, maxSize, body);
            p.r.Err? && p.r.error.IsConnectionError() ==>
              Excused(net, start, deadline, p.pos, inbox, maxSize, true)
    decreases |net.script| - start.pos
  {
    var p := FrameOutcome(net, start, deadline, inbox, maxSize);
    if p.r.Err? {
      ChunkByChunk(p, Step(Ok(None), body), net, start, deadline, inbox, maxSize, body);
      if p.r.error.IsConnectionError() {
        FrameExcused(p, net, start, deadline, inbox, maxSize, true);
      }
    } else {
      var step := FeedStep(body, p.r.value);
      ChunkTaken(net, start, deadline, inbox, maxSize);
      FeedingLosesNothing(body, p.r.value);
      ChunkByChunk(p, step, net, start, deadline, inbox, maxSize, body);
      if step.result == Ok(None) {
        var next := net.Later(start, p.pos - start.pos);
        ChunksLost(net, next, deadline, p.left, maxSize, step.body);
        var q := ChunksOutcome(net, next, deadline, p.left, maxSize, step.body);
        if q.r.Err? && q.r.error.IsConnectionError() {
          ExcusedBefore(net, start, next, deadline, q.pos, p.r.value, inbox, p.left, maxSize);
        }
      }
    }
  }

  lemma ReplyLost(net: Network, start: Gauge, deadline: Deadline, inbox: Bytes, maxSize: nat, chunked: bool)
    requires start.pos <= |net.script|
    ensures var p := ReplyOutcome(net, start, deadline, inbox, maxSize, chunked);
            p.r.Err? && p.r.error.IsConnectionError() ==>
              Excused(net, start, deadline, p.pos, inbox, maxSize, chunked)
  {
    if chunked {
      ChunksLost(net, start, deadline, inbox, maxSize, []);
    } else {
      var p := FrameOutcome(net, start, deadline, inbox, maxSize);
      if p.r.Err? && p.r.error.IsConnectionError() {
        FrameExcused(p, net, start, deadline, inbox, maxSize, false);
      }
    }
  }

  /**
   * A call that loses an open connection does so for a reason: a fault, the
   * deadline, or a reply that ends too early.
   */
  lemma AnswerLost(p: Pulled<Bytes>, net: Network, start: Gauge, deadline: Deadline, payload: Bytes, maxSize: nat,
                   inbox: Bytes, chunked: bool)
    requires start.pos <= |net.script| && IsAnswer(p, net, start, deadline, payload, maxSize, true, inbox, chunked)
    requires p.r.Err? && p.r.error.IsConnectionError()
    ensures !FineBetween(net.script, start.pos, p.pos) || Expired(net, start, deadline, p.pos)
         || EndsTooEarly(inbox, maxSize, chunked)
  {
    var written := RequestOutcome(net, start, deadline, payload, maxSize, true);
    assert p == AnswerOutcome(net, start, deadline, payload, maxSize, true, inbox, chunked) by {
      assert Unfold(0);
    }
    if written.r.Err? {
      RequestLost(written, net, start, deadline, payload, maxSize, true);
    } else {
      var middle := net.Later(start, written.pos - start.pos);
      ReplyLost(net, middle, deadline, inbox, maxSize, chunked);
      StartsLater(net, start, middle, deadline, p.pos);
      assert Unfold(0);
    }
  }

  // ---------- replies that arrive ----------

  /** The choices that reading these frames uses up at most. */
  ghost function ReadingCost(frames: seq<Bytes>, deadline: Deadline): nat {
    if frames == [] then 0 else SettingCost(deadline) + FrameSize(frames[0]) + ReadingCost(frames[1..], deadline)
  }

  lemma LastChunk(group: seq<Bytes>, body: Bytes)
    requires IsGroup(group) && |group| == 1
    ensures match Answer(group)
            case Ok(_) => FeedStep(body, group[0]).result == Ok(Some(Tag(TAG_OK, body + ConcatData(group))))
            case Err(e) => FeedStep(body, group[0]).result == Err(e)
  {
    assert WellTagged(group[0]) && group[1..] == [];
    EmptyIsNeutral(Data(group[0]));
  }

  lemma InnerChunk(group: seq<Bytes>, body: Bytes)
    requires IsGroup(group) && |group| > 1
    ensures IsGroup(group[1..]) && Answer(group).Ok? == Answer(group[1..]).Ok?
    ensures Answer(group).Err? ==> Answer(group) == Answer(group[1..])
    ensures FeedStep(body, group[0]) == Step(Ok(None), body + Data(group[0]))
    ensures ConcatData(group) == Data(group[0]) + ConcatData(group[1..])
  {
    assert WellTagged(group[0]) && Continues(group[0]);
    assert group[1..][|group| - 2] == group[|group| - 1];
  }

  /** The answer of a group to an assembler that holds `body` already. */
  ghost function AnswerOn(body: Bytes, group: seq<Bytes>): Result<Bytes>
    requires IsGroup(group)
  {
    match Answer(group)
    case Ok(_) => Ok(Tag(TAG_OK, body + ConcatData(group)))
    case Err(e) => Err(e)
  }

  lemma InnerAnswer(group: seq<Bytes>, body: Bytes)
    requires IsGroup(group) && |group| > 1
    ensures IsGroup(group[1..]) && FeedStep(body, group[0]) == Step(Ok(None), body + Data(group[0]))
    ensures AnswerOn(body + Data(group[0]), group[1..]) == AnswerOn(body, group)
  {
    InnerChunk(group, body);
    Reassociate(body, Data(group[0]), ConcatData(group[1..]));
  }

  /** This is what feeding frames comes to, after some have been fed. */
  ghost predicate IsChunks(p: Pulled<Bytes>, net: Network, at: Gauge, deadline: Deadline, inbox: Bytes, maxSize: nat,
                           body: Bytes) {
    forall k: nat {:trigger Unfold(k)} | Unfold(k) :: p == ChunksOutcome(net, at, deadline, inbox, maxSize, body)
  }

  lemma FrameComes(net: Network, at: Gauge, deadline: Deadline, frame: Bytes, later: Bytes, maxSize: nat)
    returns (f: Pulled<Bytes>)
    requires net.Clocked() && Unhurried(net, at, deadline) && FineBetween(net.script, at.pos, |net.script|)
    requires at.pos + SettingCost(deadline) + FrameSize(frame) <= |net.script|
    requires Encodable(frame) && |frame| <= maxSize
    ensures IsFrame(f, net, at, deadline, EncodeFrame(frame) + later, maxSize)
    ensures f.r == Ok(frame) && f.left == later
    ensures at.pos < f.pos <= at.pos + SettingCost(deadline) + FrameSize(frame)
    ensures Unhurried(net, net.Later(at, f.pos - at.pos), deadline)
  {
    FrameArrivesInTime(net, at, deadline, frame, later, maxSize);
    f := FrameOutcome(net, at, deadline, EncodeFrame(frame) + later, maxSize);
    UnhurriedLater(net, at, deadline, f.pos - at.pos);
  }

  lemma FeedFirst(p: Pulled<Bytes>, f: Pulled<Bytes>, net: Network, at: Gauge, deadline: Deadline, inbox: Bytes,
                  maxSize: nat, body: Bytes)
    requires IsChunks(p, net, at, deadline, inbox, maxSize, body) && IsFrame(f, net, at, deadline, inbox, maxSize)
    requires at.pos < f.pos && at.pos <= |net.script| && f.r.Ok?
    ensures var step := FeedStep(body, f.r.value);
            match step.result
            case Err(e) => p == Pulled(Err(e), f.pos, f.left)
            case Ok(Some(response)) => p == Pulled(Ok(response), f.pos, f.left)
            case Ok(None) =>
              IsChunks(p, net, net.Later(at, f.pos - at.pos), deadline, f.left, maxSize, step.body)
  {
    assert f == FrameOutcome(net, at, deadline, inbox, maxSize)
           && p == ChunksOutcome(net, at, deadline, inbox, maxSize, body) by {
      assert Unfold(0);
    }
    ChunkByChunk(f, FeedStep(body, f.r.value), net, at, deadline, inbox, maxSize, body);
  }

  /** A group of frames that has arrived whole is read, in any pieces, and answers what it means. */
  lemma {:induction false} ChunksArrive(p: Pulled<Bytes>, net: Network, at: Gauge, deadline: Deadline,
                                        group: seq<Bytes>, later: Bytes, maxSize: nat, body: Bytes)
    requires net.Clocked() && Unhurried(net, at, deadline) && FineBetween(net.script, at.pos, |net.script|)
    requires IsGroup(group) && Sendable(group, maxSize)
    requires at.pos + ReadingCost(group, deadline) <= |net.script|
    requires IsChunks(p, net, at, deadline, EncodeAll(group) + later, maxSize, body)
    ensures p.r == AnswerOn(body, group) && p.left == later
    ensures at.pos < p.pos <= at.pos + ReadingCost(group, deadline)
    decreases |group|
  {
    var rest := EncodeAll(group[1..]) + later;
    Reassociate(EncodeFrame(group[0]), EncodeAll(group[1..]), later);
    var f := FrameComes(net, at, deadline, group[0], rest, maxSize);
    FeedFirst(p, f, net, at, deadline, EncodeAll(group) + later, maxSize, body);
    if |group| == 1 {
      LastChunk(group, body);
      assert rest == later;
    } else {
      InnerAnswer(group, body);
      ChunksArrive(p, net, net.Later(at, f.pos - at.pos), deadline, group[1..], later, maxSize, body + Data(group[0]));
    }
  }

  lemma ReplyArrives(net: Network, at: Gauge, deadline: Deadline, frames: seq<Bytes>, later: Bytes, maxSize: nat,
                     chunked: bool)
    requires net.Clocked() && Unhurried(net, at, deadline) && FineBetween(net.script, at.pos, |net.script|)
    requires IsReply(chunked, frames) && Sendable(frames, maxSize)
    requires at.pos + ReadingCost(frames, deadline) <= |net.script|
    ensures var p := ReplyOutcome(net, at, deadline, EncodeAll(frames) + later, maxSize, chunked);
            p.r == ReplyValue(chunked, frames) && p.left == later
            && at.pos < p.pos <= at.pos + ReadingCost(frames, deadline)
  {
    if chunked {
      var p := ChunksOutcome(net, at, deadline, EncodeAll(frames) + later, maxSize, []);
      ChunksArrive(p, net, at, deadline, frames, later, maxSize, []);
      EmptyIsNeutral(ConcatData(frames));
    } else {
      assert EncodeAll(frames) == EncodeFrame(frames[0]);
      FrameArrivesInTime(net, at, deadline, frames[0], later, maxSize);
    }
  }

  /** A connection as whoever uses it next finds it: the place in the script, its stream and the limit in force. */
  datatype Start = Start(pos: nat, open: bool, stream: Bytes, maxSize: nat)

  /** The frames at the head of a stream that make up the next reply, if it is there. */
  ghost function ReplyAt(s: Start, chunked: bool): seq<Bytes> {
    var frames := ReadStream(s.stream, s.maxSize).frames;
    var size := if chunked then FirstEnd(frames) + 1 else 1;
    if size <= |frames| then frames[..size] else []
  }

  lemma HeadFrame(stream: Bytes, maxSize: nat)
    requires ReadStream(stream, maxSize).frames != []
    ensures var frame := ReadStream(stream, maxSize).frames[0];
            && Encodable(frame) && |frame| <= maxSize && FrameSize(frame) <= |stream|
            && stream == EncodeFrame(frame) + stream[FrameSize(frame)..]
            && ReadStream(stream, maxSize).frames[1..] == ReadStream(stream[FrameSize(frame)..], maxSize).frames
  {
    var header := stream[..HEADER_SIZE];
    HeaderIsEncodedSize(header, maxSize);
    var size := DecodeFrameSize(header, maxSize).value;
    assert stream == header + stream[HEADER_SIZE..HEADER_SIZE + size] + stream[HEADER_SIZE + size..];
  }

  lemma OneMoreSendable(frame: Bytes, frames: seq<Bytes>, maxSize: nat)
    requires Encodable(frame) && |frame| <= maxSize && Sendable(frames, maxSize)
    ensures Sendable([frame] + frames, maxSize) && EncodeAll([frame] + frames) == EncodeFrame(frame) + EncodeAll(frames)
  {
    assert ([frame] + frames)[1..] == frames;
  }

  lemma {:induction false} StreamBegins(stream: Bytes, maxSize: nat, k: nat) returns (later: Bytes)
    requires k <= |ReadStream(stream, maxSize).frames|
    ensures var frames := ReadStream(stream, maxSize).frames[..k];
            Sendable(frames, maxSize) && stream == EncodeAll(frames) + later
  {
    if k == 0 {
      later := stream;
    } else {
      HeadFrame(stream, maxSize);
      var frames := ReadStream(stream, maxSize).frames;
      var rest := stream[FrameSize(frames[0])..];
      later := StreamBegins(rest, maxSize, k - 1);
      OneMoreSendable(frames[0], frames[1..][..k - 1], maxSize);
      assert frames[..k] == [frames[0]] + frames[1..][..k - 1];
      Reassociate(EncodeFrame(frames[0]), EncodeAll(frames[1..][..k - 1]), later);
    }
  }

  /** An open connection, a request that is not too long, a whole reply, time enough, and no fault to come. */
  ghost predicate Answerable(net: Network, at: Gauge, deadline: Deadline, s: Start, payload: Bytes, chunked: bool) {
    forall k: nat {:trigger UnfoldOn(Calls, k)} | UnfoldOn(Calls, k) ::
      && s.open && |payload| <= s.maxSize && Encodable(payload) && at.pos == s.pos
      && IsReply(chunked, ReplyAt(s, chunked))
      && FineBetween(net.script, s.pos, |net.script|) && Unhurried(net, at, deadline)
      && s.pos + SettingCost(deadline) + 1 + ReadingCost(ReplyAt(s, chunked), deadline) <= |net.script|
  }

  ghost function ExpectedReply(s: Start, chunked: bool): Result<Bytes> {
    if IsReply(chunked, ReplyAt(s, chunked)) then ReplyValue(chunked, ReplyAt(s, chunked)) else Err(ConnectionLost)
  }

  lemma ReplyIsThere(net: Network, at: Gauge, deadline: Deadline, s: Start, payload: Bytes, chunked: bool)
    returns (later: Bytes)
    requires Answerable(net, at, deadline, s, payload, chunked)
    ensures s.open && |payload| <= s.maxSize && Encodable(payload) && at.pos == s.pos
    ensures FineBetween(net.script, s.pos, |net.script|) && Unhurried(net, at, deadline)
    ensures var frames := ReplyAt(s, chunked);
            && IsReply(chunked, frames) && Sendable(frames, s.maxSize) && s.stream == EncodeAll(frames) + later
            && s.pos + SettingCost(deadline) + 1 + ReadingCost(frames, deadline) <= |net.script|
  {
    assert UnfoldOn(Calls, 0);
    later := StreamBegins(s.stream, s.maxSize, |ReplyAt(s, chunked)|);
  }

  /**
   * A call to which nothing happens takes the next reply off the stream, in
   * whatever pieces it arrives, and answers what that means.
   */
  lemma AnswerArrives(p: Pulled<Bytes>, net: Network, at: Gauge, deadline: Deadline, payload: Bytes, s: Start,
                      chunked: bool)
    requires IsAnswer(p, net, at, deadline, payload, s.maxSize, s.open, s.stream, chunked)
    requires net.Clocked() && Answerable(net, at, deadline, s, payload, chunked)
    ensures p.r == ExpectedReply(s, chunked) && (forall f <- ReplyAt(s, chunked) :: Encodable(f))
    ensures s.stream == EncodeAll(ReplyAt(s, chunked)) + p.left
    ensures s.pos < p.pos <= s.pos + SettingCost(deadline) + 1 + ReadingCost(ReplyAt(s, chunked), deadline)
  {
    var later := ReplyIsThere(net, at, deadline, s, payload, chunked);
    RequestLeaves(net, at, deadline, payload, s.maxSize);
    var middle := net.Later(at, SettingCost(deadline) + 1);
    UnhurriedLater(net, at, deadline, SettingCost(deadline) + 1);
    ReplyArrives(net, middle, deadline, ReplyAt(s, chunked), later, s.maxSize, chunked);
    assert p == AnswerOutcome(net, at, deadline, payload, s.maxSize, s.open, s.stream, chunked) by {
      assert Unfold(0);
    }
  }

  // ---------- connecting ----------

  /** What a greeting amounts to: the parameters it offers, unless it is malformed or speaks another protocol. */
  function Accepted(greeting: Bytes): Result<HelloInfo> {
    var info :- ParseHello(greeting);
    if info.version != PROTOCOL_VERSION then Err(Corrupted) else Ok(info)
  }

  /** The connect timeout of a greeting that begins now. */
  ghost function GreetingDeadline(net: Network, start: Gauge, timeout: real): Deadline {
    Deadline(Some(net.Later(start, 1).now + timeout))
  }

  /** Greeting the server and reading its greeting, within the connect timeout. */
  ghost function GreetingOutcome(net: Network, start: Gauge, timeout: real, hello: Bytes, maxSize: nat, stream: Bytes)
    : Pulled<Bytes>
  {
    if start.pos >= |net.script| then Pulled(Err(Interrupted), start.pos, stream)
    else
      AnswerOutcome(net, net.Later(start, 1), GreetingDeadline(net, start, timeout), hello, maxSize, true, stream,
                    false)
  }

  ghost predicate IsGreeting(p: Pulled<Bytes>, net: Network, start: Gauge, timeout: real, hello: Bytes, maxSize: nat,
                             stream: Bytes) {
    forall k: nat {:trigger Unfold(k)} | Unfold(k) ::
      p == GreetingOutcome(net, start, timeout, hello, maxSize, stream)
  }

  lemma AnswerIsGreeting(p: Pulled<Bytes>, net: Network, start: Gauge, begun: Gauge, timeout: real, deadline: Deadline,
                         hello: Bytes, maxSize: nat, stream: Bytes)
    requires start.pos < |net.script| && begun == net.Later(start, 1)
    requires deadline == Deadline(Some(begun.now + timeout))
    requires IsAnswer(p, net, begun, deadline, hello, maxSize, true, stream, false)
    ensures IsGreeting(p, net, start, timeout, hello, maxSize, stream)
  {
    assert Unfold(0);
  }

  lemma NoTimeToGreet(net: Network, start: Gauge, timeout: real, hello: Bytes, maxSize: nat, stream: Bytes)
    requires start.pos >= |net.script|
    ensures IsGreeting(Pulled(Err(Interrupted), start.pos, stream), net, start, timeout, hello, maxSize, stream)
  {
  }

  /** The greeting that came, or did not, decides what a connect comes to. */
  function Concluded(g: Pulled<Bytes>): Pulled<HelloInfo> {
    var r := if g.r.Err? then Err(g.r.error) else Accepted(g.r.value);
    Pulled(r, g.pos, if r.Ok? then g.left else [])
  }

  /**
   * This is what `connect` comes to: a dial, a greeting, and the parameters it
   * negotiates, with what is left then of the stream of the socket dialled.
   */
  ghost predicate IsConnect(p: Pulled<HelloInfo>, net: Network, start: Gauge, tls: bool, timeout: real, hello: Bytes) {
    forall k: nat {:trigger Unfold(k)} | Unfold(k) ::
      var dialled := DialOutcome(net.script, start.pos, tls);
      if dialled.r.Err? then p == Pulled(Err(dialled.r.error), dialled.pos, [])
      else
        exists g ::
          && IsGreeting(g, net, net.Later(start, dialled.pos - start.pos), timeout, hello, DEFAULT_MAX_MESSAGE_SIZE,
                        net.script[start.pos].incoming)
          && p == Concluded(g)
  }

  lemma NotDialled(t: Timed, net: Network, start: Gauge, tls: bool, timeout: real, hello: Bytes)
    requires t == DialOutcome(net.script, start.pos, tls) && t.r.Err?
    ensures IsConnect(Pulled(Err(t.r.error), t.pos, []), net, start, tls, timeout, hello)
  {
  }

  lemma GreetedAfterDial(g: Pulled<Bytes>, net: Network, start: Gauge, open: Gauge, tls: bool, timeout: real,
                         hello: Bytes)
    requires start.pos < |net.script| && DialOutcome(net.script, start.pos, tls) == Timed(Ok(()), open.pos)
    requires Passes(net.spent, start, open) && open.slept == start.slept
    requires IsGreeting(g, net, open, timeout, hello, DEFAULT_MAX_MESSAGE_SIZE, net.script[start.pos].incoming)
    ensures IsConnect(Concluded(g), net, start, tls, timeout, hello)
  {
    NothingSlept(net, start, open);
  }

  /** The connect timeout has passed by this place of the script; it runs from the reading after the dial. */
  ghost predicate ConnectTimedOut(net: Network, from: nat, to: nat, tls: bool, timeout: real) {
    var begun := from + if tls then 3 else 2;
    begun <= to && timeout <= net.spent(to) - net.spent(begun)
  }

  /**
   * A connect that loses the connection does so for a reason: a fault, the
   * connect timeout, or a server that sends no whole frame.
   */
  ghost predicate CannotConnect(net: Network, from: nat, to: nat, tls: bool, timeout: real) {
    forall k: nat {:trigger Unfold(k)} | Unfold(k) ::
      || !FineBetween(net.script, from, to) || ConnectTimedOut(net, from, to, tls, timeout)
      || (from < |net.script|
          && EndsTooEarly(net.script[from].incoming, DEFAULT_MAX_MESSAGE_SIZE, false))
  }

  /**
   * A connect that raises anything else does so for a reason too: the end of the
   * script, the connect timeout at the wrong moment, a token too long for a
   * request, or a greeting that is not acceptable.
   */
  ghost predicate RefusesServer(net: Network, from: nat, to: nat, tls: bool, timeout: real, hello: Bytes, e: Error) {
    forall k: nat {:trigger Unfold(k)} | Unfold(k) ::
      || (e == Interrupted && to >= |net.script|)
      || (e == InvalidValue && ConnectTimedOut(net, from, to, tls, timeout))
      || (|hello| > DEFAULT_MAX_MESSAGE_SIZE && e == Protocol(MESSAGE_SIZE_EXCEEDS_MAXIMUM))
      || (from < |net.script|
          && var greeting := ReadStream(net.script[from].incoming, DEFAULT_MAX_MESSAGE_SIZE);
             if greeting.frames == [] then greeting.ending == e else Accepted(greeting.frames[0]) == Err(e))
  }

  /** What else than a lost connection a request raises. */
  lemma RequestRefused(net: Network, start: Gauge, deadline: Deadline, payload: Bytes, maxSize: nat)
    requires start.pos <= |net.script|
    ensures var t := RequestOutcome(net, start, deadline, payload, maxSize, true);
            t.r.Err? && !t.r.error.IsConnectionError() ==>
              || (t.r.error == Interrupted && t.pos == |net.script|)
              || (t.r.error == InvalidValue && Expired(net, start, deadline, t.pos))
              || (|payload| > maxSize && t.r.error == Protocol(MESSAGE_SIZE_EXCEEDS_MAXIMUM))
              || (!Encodable(payload) && t.r.error == SizeOverflow)
  {
  }

  lemma AnswerRefused(p: Pulled<Bytes>, net: Network, start: Gauge, deadline: Deadline, payload: Bytes, maxSize: nat,
                      inbox: Bytes)
    requires start.pos <= |net.script| && p == AnswerOutcome(net, start, deadline, payload, maxSize, true, inbox, false)
    requires p.r.Err? && !p.r.error.IsConnectionError()
    ensures || (p.r.error == Interrupted && p.pos == |net.script|)
            || (p.r.error == InvalidValue && Expired(net, start, deadline, p.pos))
            || (|payload| > maxSize && p.r.error == Protocol(MESSAGE_SIZE_EXCEEDS_MAXIMUM))
            || (!Encodable(payload) && p.r.error == SizeOverflow)
            || ReadStream(inbox, maxSize) == Reading([], p.r.error)
  {
    var written := RequestOutcome(net, start, deadline, payload, maxSize, true);
    RequestRefused(net, start, deadline, payload, maxSize);
    if written.r.Ok? {
      var middle := net.Later(start, written.pos - start.pos);
      FrameOutcomeTakes(net, middle, deadline, inbox, maxSize);
      StartsLater(net, start, middle, deadline, p.pos);
    }
  }

  lemma GreetingExpired(net: Network, open: Gauge, timeout: real, from: nat, tls: bool, pos: nat)
    requires open.pos == from + if tls then 2 else 1
    ensures Expired(net, net.Later(open, 1), GreetingDeadline(net, open, timeout), pos) ==>
      ConnectTimedOut(net, from, pos, tls, timeout)
  {
  }

  /** A greeting that does not come. */
  lemma GreetingFails(p: Pulled<Bytes>, net: Network, from: nat, open: Gauge, tls: bool, timeout: real, hello: Bytes)
    requires from < |net.script| && open.pos == (from + if tls then 2 else 1) <= |net.script|
    requires IsGreeting(p, net, open, timeout, hello, DEFAULT_MAX_MESSAGE_SIZE, net.script[from].incoming)
    requires p.r.Err?
    ensures p.r.error.IsConnectionError() ==> CannotConnect(net, from, p.pos, tls, timeout)
    ensures !p.r.error.IsConnectionError() ==> RefusesServer(net, from, p.pos, tls, timeout, hello, p.r.error)
  {
    assert p == GreetingOutcome(net, open, timeout, hello, DEFAULT_MAX_MESSAGE_SIZE, net.script[from].incoming) by {
      assert Unfold(0);
    }
    if open.pos < |net.script| {
      var begun, deadline := net.Later(open, 1), GreetingDeadline(net, open, timeout);
      var stream := net.script[from].incoming;
      GreetingExpired(net, open, timeout, from, tls, p.pos);
      if p.r.error.IsConnectionError() {
        AnswerLost(p, net, begun, deadline, hello, DEFAULT_MAX_MESSAGE_SIZE, stream, false);
      } else {
        AnswerRefused(p, net, begun, deadline, hello, DEFAULT_MAX_MESSAGE_SIZE, stream);
      }
    }
  }

  /** The frame that answers a greeting is the first one the server sends. */
  lemma GreetingIsFirst(p: Pulled<Bytes>, net: Network, open: Gauge, timeout: real, hello: Bytes, maxSize: nat,
                        stream: Bytes)
    requires open.pos <= |net.script| && IsGreeting(p, net, open, timeout, hello, maxSize, stream) && p.r.Ok?
    ensures ReadStream(stream, maxSize).frames != [] && ReadStream(stream, maxSize).frames[0] == p.r.value
  {
    assert p == GreetingOutcome(net, open, timeout, hello, maxSize, stream) by {
      assert Unfold(0);
    }
    var begun, deadline := net.Later(open, 1), GreetingDeadline(net, open, timeout);
    var written := RequestOutcome(net, begun, deadline, hello, maxSize, true);
    ChunkTaken(net, net.Later(begun, written.pos - begun.pos), deadline, stream, maxSize);
  }

  lemma NotAccepted(net: Network, from: nat, to: nat, tls: bool, timeout: real, hello: Bytes, greeting: Bytes)
    requires from < |net.script| && Accepted(greeting).Err?
    requires ReadStream(net.script[from].incoming, DEFAULT_MAX_MESSAGE_SIZE).frames != []
    requires ReadStream(net.script[from].incoming, DEFAULT_MAX_MESSAGE_SIZE).frames[0] == greeting
    ensures RefusesServer(net, from, to, tls, timeout, hello, Accepted(greeting).error)
  {
  }

  lemma NeverLost(greeting: Bytes)
    ensures Accepted(greeting).Err? ==> !Accepted(greeting).error.IsConnectionError()
  {
  }

  /** A greeting that came and was not accepted. */
  lemma GreetingRefused(p: Pulled<HelloInfo>, g: Pulled<Bytes>, net: Network, from: nat, open: Gauge, tls: bool,
                        timeout: real, hello: Bytes)
    requires from < |net.script| && open.pos <= |net.script| && g.r.Ok? && p == Concluded(g) && p.r.Err?
    requires IsGreeting(g, net, open, timeout, hello, DEFAULT_MAX_MESSAGE_SIZE, net.script[from].incoming)
    ensures !p.r.error.IsConnectionError()
    ensures RefusesServer(net, from, p.pos, tls, timeout, hello, p.r.error)
  {
    NeverLost(g.r.value);
    GreetingIsFirst(g, net, open, timeout, hello, DEFAULT_MAX_MESSAGE_SIZE, net.script[from].incoming);
    NotAccepted(net, from, p.pos, tls, timeout, hello, g.r.value);
  }

  /** The greeting behind a connect that had dialled. */
  lemma ConnectByGreeting(p: Pulled<HelloInfo>, net: Network, start: Gauge, tls: bool, timeout: real, hello: Bytes)
    returns (g: Pulled<Bytes>)
    requires IsConnect(p, net, start, tls, timeout, hello) && DialOutcome(net.script, start.pos, tls).r.Ok?
    ensures IsGreeting(g, net, net.Later(start, if tls then 2 else 1), timeout, hello, DEFAULT_MAX_MESSAGE_SIZE,
                       net.script[start.pos].incoming)
    ensures p == Concluded(g)
  {
    var dialled := DialOutcome(net.script, start.pos, tls);
    assert exists g ::
        && IsGreeting(g, net, net.Later(start, dialled.pos - start.pos), timeout, hello, DEFAULT_MAX_MESSAGE_SIZE,
                      net.script[start.pos].incoming)
        && p == Concluded(g) by {
      assert Unfold(0);
    }
    g :| IsGreeting(g, net, net.Later(start, dialled.pos - start.pos), timeout, hello, DEFAULT_MAX_MESSAGE_SIZE,
                    net.script[start.pos].incoming)
         && p == Concluded(g);
  }

  lemma DialFails(p: Pulled<HelloInfo>, net: Network, start: Gauge, tls: bool, timeout: real, hello: Bytes)
    requires start.pos <= |net.script| && IsConnect(p, net, start, tls, timeout, hello)
    requires DialOutcome(net.script, start.pos, tls).r.Err?
    ensures p.r.Err? && (p.r.error == ConnectionLost || (p.r.error == Interrupted && p.pos == |net.script|))
    ensures p.r == Err(ConnectionLost) ==> !FineBetween(net.script, start.pos, p.pos)
  {
    assert Unfold(0);
  }

  /** A connect that fails does so for a reason, which depends on what it raises. */
  lemma ConnectFails(p: Pulled<HelloInfo>, net: Network, start: Gauge, tls: bool, timeout: real, hello: Bytes)
    requires start.pos <= |net.script| && IsConnect(p, net, start, tls, timeout, hello) && p.r.Err?
    ensures p.r.error.IsConnectionError() ==> CannotConnect(net, start.pos, p.pos, tls, timeout)
    ensures !p.r.error.IsConnectionError() ==> RefusesServer(net, start.pos, p.pos, tls, timeout, hello, p.r.error)
  {
    if DialOutcome(net.script, start.pos, tls).r.Err? {
      DialFails(p, net, start, tls, timeout, hello);
    } else {
      var open := net.Later(start, if tls then 2 else 1);
      var g := ConnectByGreeting(p, net, start, tls, timeout, hello);
      if g.r.Err? {
        GreetingFails(g, net, start.pos, open, tls, timeout, hello);
      } else {
        GreetingRefused(p, g, net, start.pos, open, tls, timeout, hello);
      }
    }
  }

  /** The first frame that a server sends, if it sends a whole one. */
  ghost function FirstFrame(stream: Bytes): Option<Bytes> {
    var frames := ReadStream(stream, DEFAULT_MAX_MESSAGE_SIZE).frames;
    if frames == [] then None else Some(frames[0])
  }

  /** A server whose first frame is an acceptable greeting. */
  ghost predicate Welcomes(stream: Bytes) {
    FirstFrame(stream).Some? && Accepted(FirstFrame(stream).value).Ok?
  }

  /** A server that greets acceptably, a connect timeout that is not reached, and no fault to come. */
  ghost predicate Connectable(net: Network, from: nat, tls: bool, timeout: real, hello: Bytes) {
    forall k: nat {:trigger UnfoldOn(Servers, k)} | UnfoldOn(Servers, k) ::
      var begun := from + if tls then 3 else 2;
      && from < |net.script| && FineBetween(net.script, from, |net.script|)
      && Welcomes(net.script[from].incoming) && |hello| <= DEFAULT_MAX_MESSAGE_SIZE
      && begun + 7 + FrameSize(FirstFrame(net.script[from].incoming).value) <= |net.script|
      && net.spent(|net.script|) - net.spent(begun) < timeout
  }

  /** The stream after its first frame. */
  ghost function AfterFirst(stream: Bytes, maxSize: nat): Bytes {
    var frames := ReadStream(stream, maxSize).frames;
    if frames != [] && FrameSize(frames[0]) <= |stream| then stream[FrameSize(frames[0])..] else []
  }

  lemma ConnectableMeans(net: Network, from: nat, tls: bool, timeout: real, hello: Bytes)
    requires Connectable(net, from, tls, timeout, hello)
    ensures var open := from + if tls then 2 else 1;
            && from < |net.script| && DialOutcome(net.script, from, tls).r.Ok?
            && FineBetween(net.script, open, |net.script|)
            && Welcomes(net.script[from].incoming) && |hello| <= DEFAULT_MAX_MESSAGE_SIZE
            && open + 8 + FrameSize(FirstFrame(net.script[from].incoming).value) <= |net.script|
            && net.spent(|net.script|) - net.spent(open + 1) < timeout
  {
    assert UnfoldOn(Servers, 0);
  }

  lemma GreetingAnswerable(net: Network, open: Gauge, timeout: real, hello: Bytes, stream: Bytes)
    requires FineBetween(net.script, open.pos, |net.script|)
    requires ReadStream(stream, DEFAULT_MAX_MESSAGE_SIZE).frames != [] && |hello| <= DEFAULT_MAX_MESSAGE_SIZE
    requires open.pos + 8 + FrameSize(ReadStream(stream, DEFAULT_MAX_MESSAGE_SIZE).frames[0]) <= |net.script|
    requires net.spent(|net.script|) - net.spent(open.pos + 1) < timeout
    ensures var s := Start(open.pos + 1, true, stream, DEFAULT_MAX_MESSAGE_SIZE);
            var frame := ReadStream(stream, DEFAULT_MAX_MESSAGE_SIZE).frames[0];
            && Answerable(net, net.Later(open, 1), GreetingDeadline(net, open, timeout), s, hello, false)
            && ReplyAt(s, false) == [frame] && ExpectedReply(s, false) == Ok(frame)
            && ReadingCost([frame], GreetingDeadline(net, open, timeout)) == 3 + FrameSize(frame)
  {
    var frames := [ReadStream(stream, DEFAULT_MAX_MESSAGE_SIZE).frames[0]];
    assert frames[1..] == [];
  }

  lemma GreetingIsAnswer(g: Pulled<Bytes>, net: Network, open: Gauge, timeout: real, hello: Bytes, maxSize: nat,
                         stream: Bytes)
    requires open.pos < |net.script| && IsGreeting(g, net, open, timeout, hello, maxSize, stream)
    ensures IsAnswer(g, net, net.Later(open, 1), GreetingDeadline(net, open, timeout), hello, maxSize, true, stream,
                     false)
  {
    assert Unfold(0);
  }

  lemma AfterOneFrame(stream: Bytes, frame: Bytes, left: Bytes, maxSize: nat)
    requires ReadStream(stream, maxSize).frames != [] && frame == ReadStream(stream, maxSize).frames[0]
    requires Encodable(frame) && stream == EncodeAll([frame]) + left
    ensures left == AfterFirst(stream, maxSize)
  {
    assert EncodeAll([frame]) == EncodeFrame(frame);
  }

  lemma GreetingArrives(g: Pulled<Bytes>, net: Network, open: Gauge, timeout: real, hello: Bytes, stream: Bytes)
    requires net.Clocked() && FineBetween(net.script, open.pos, |net.script|)
    requires IsGreeting(g, net, open, timeout, hello, DEFAULT_MAX_MESSAGE_SIZE, stream)
    requires ReadStream(stream, DEFAULT_MAX_MESSAGE_SIZE).frames != [] && |hello| <= DEFAULT_MAX_MESSAGE_SIZE
    requires open.pos + 8 + FrameSize(ReadStream(stream, DEFAULT_MAX_MESSAGE_SIZE).frames[0]) <= |net.script|
    requires net.spent(|net.script|) - net.spent(open.pos + 1) < timeout
    ensures g.r == Ok(ReadStream(stream, DEFAULT_MAX_MESSAGE_SIZE).frames[0])
    ensures g.left == AfterFirst(stream, DEFAULT_MAX_MESSAGE_SIZE)
    ensures open.pos < g.pos <= open.pos + 8 + FrameSize(ReadStream(stream, DEFAULT_MAX_MESSAGE_SIZE).frames[0])
  {
    var s := Start(open.pos + 1, true, stream, DEFAULT_MAX_MESSAGE_SIZE);
    var frame := ReadStream(stream, DEFAULT_MAX_MESSAGE_SIZE).frames[0];
    GreetingAnswerable(net, open, timeout, hello, stream);
    GreetingIsAnswer(g, net, open, timeout, hello, DEFAULT_MAX_MESSAGE_SIZE, stream);
    AnswerArrives(g, net, net.Later(open, 1), GreetingDeadline(net, open, timeout), hello, s, false);
    HeadFrame(stream, DEFAULT_MAX_MESSAGE_SIZE);
    AfterOneFrame(stream, frame, g.left, DEFAULT_MAX_MESSAGE_SIZE);
  }

  /**
   * A connect succeeds if the server greets acceptably, its greeting arrives, in
   * whatever pieces, within the connect timeout, and nothing fails. It leaves
   * everything after the greeting to be read, and the offered limit in force.
   */
  lemma ConnectArrives(p: Pulled<HelloInfo>, net: Network, start: Gauge, tls: bool, timeout: real, hello: Bytes)
    requires IsConnect(p, net, start, tls, timeout, hello)
    requires net.Clocked() && Connectable(net, start.pos, tls, timeout, hello)
    ensures start.pos < |net.script|
    ensures var stream := net.script[start.pos].incoming;
            && Welcomes(stream) && p.r == Accepted(FirstFrame(stream).value)
            && p.left == AfterFirst(stream, DEFAULT_MAX_MESSAGE_SIZE)
            && start.pos < p.pos <= start.pos + 10 + FrameSize(FirstFrame(stream).value)
  {
    ConnectableMeans(net, start.pos, tls, timeout, hello);
    var open := net.Later(start, if tls then 2 else 1);
    var g := ConnectByGreeting(p, net, start, tls, timeout, hello);
    GreetingArrives(g, net, open, timeout, hello, net.script[start.pos].incoming);
  }
}
