/** The reconnecting stream of events. */
module Streams {
  import opened Core
  import opened Framing
  import opened Reconnect
  import opened Transport
  import opened Reads
  import opened Responses
  import opened Exchanges
  import opened Connections
  import opened Delivery

  /** What a stream's consumer and its operator see: events, and lost connections between them. */
  datatype StreamEvent = Event(frame: Bytes) | Loss

  /** The number of losses since the last event. */
  function Row(trace: seq<StreamEvent>): nat {
    if trace == [] || trace[|trace| - 1].Event? then 0 else 1 + Row(trace[..|trace| - 1])
  }

  /** Every event parses, and no proper prefix of the trace ends in more losses than the policy grants. */
  ghost predicate WithinBudget<T>(trace: seq<StreamEvent>, parse: Bytes -> Result<T>, policy: ReconnectPolicy) {
    forall k: nat {:trigger Unfold(k)} | Unfold(k) ::
      && (forall i | 0 <= i < |trace| && trace[i].Event? :: parse(trace[i].frame).Ok?)
      && (policy.maxAttempts.Some? ==> forall i | 0 <= i < |trace| :: Row(trace[..i]) <= Budget(policy))
  }

  ghost predicate TraceSoFar<T>(trace: seq<StreamEvent>, parse: Bytes -> Result<T>, policy: ReconnectPolicy,
                                attempt: nat) {
    && WithinBudget(trace, parse, policy)
    && Row(trace) == attempt
    && (policy.maxAttempts.Some? ==> attempt <= Budget(policy))
  }

  lemma StaysWithinBudget<T>(trace: seq<StreamEvent>, parse: Bytes -> Result<T>, policy: ReconnectPolicy,
                             attempt: nat, event: StreamEvent)
    requires TraceSoFar(trace, parse, policy, attempt) && (event.Event? ==> parse(event.frame).Ok?)
    ensures WithinBudget(trace + [event], parse, policy)
    ensures Row(trace + [event]) == if event.Event? then 0 else attempt + 1
  {
    assert Unfold(0);
    var trace' := trace + [event];
    assert trace'[..|trace|] == trace;
    assert forall i | 0 <= i < |trace| :: trace'[..i] == trace[..i];
  }

  lemma OneMoreEvent<T>(trace: seq<StreamEvent>, parse: Bytes -> Result<T>, policy: ReconnectPolicy, attempt: nat,
                        frame: Bytes)
    requires TraceSoFar(trace, parse, policy, attempt) && parse(frame).Ok?
    ensures TraceSoFar(trace + [Event(frame)], parse, policy, 0)
  {
    StaysWithinBudget(trace, parse, policy, attempt, Event(frame));
  }

  /** One loss more is either within the budget or the one that ends the stream. */
  lemma OneMoreLoss<T>(trace: seq<StreamEvent>, parse: Bytes -> Result<T>, policy: ReconnectPolicy, attempt: nat)
    requires TraceSoFar(trace, parse, policy, attempt)
    ensures WithinBudget(trace + [Loss], parse, policy) && Row(trace + [Loss]) == attempt + 1
    ensures !policy.Exhausted(attempt + 1) ==> TraceSoFar(trace + [Loss], parse, policy, attempt + 1)
    ensures policy.Exhausted(attempt + 1) ==> Row(trace + [Loss]) == Budget(policy) + 1
  {
    StaysWithinBudget(trace, parse, policy, attempt, Loss);
  }

  function Events(frames: seq<Bytes>): seq<StreamEvent> {
    seq(|frames|, i requires 0 <= i < |frames| => Event(frames[i]))
  }

  lemma EventsGrow(trace: seq<StreamEvent>, frames: seq<Bytes>, frame: Bytes)
    ensures trace + Events(frames) + [Event(frame)] == trace + Events(frames + [frame])
  {
  }

  /** A subscription without polling ends where its byte stream ends, or at a frame the parser rejects. */
  ghost predicate EndsProperly<T>(stream: Bytes, arrived: seq<Bytes>, maxSize: nat, parse: Bytes -> Result<T>,
                                  end: Error) {
    || end == Interrupted
    || Reading(arrived, end) == ReadStream(stream, maxSize)
    || var frames := ReadStream(stream, maxSize).frames;
       arrived < frames && parse(frames[|arrived|]) == Err(end)
  }

  // ---------- one subscription ----------

  /** What a stream has used up: environment choices, dials, time slept, and requests begun. */
  datatype Tally = Tally(pos: nat, dials: int, slept: real, asked: int)

  /** What stays the same while a stream runs, the connection it found and the tally then included. */
  datatype Context<!T> = Context(policy: ReconnectPolicy, parse: Bytes -> Result<T>, pollInterval: Option<real>,
                                 net: Network, tls: bool, connectTimeout: real, greeting: Bytes, payload: Bytes,
                                 first: Start, base: Tally)

  /**
   * One subscription: the connection as it found it, what became of its request,
   * what it made of the stream, what was left of that before the last read and
   * when that read began, how it ended and at which place in the script, what it
   * left unread, and where it looked at the stop flag and went on. It has no
   * request if it was told to stop before.
   */
  datatype Session = Session(start: Start, asked: Option<Timed>, history: seq<Stretch>, last: Bytes, final: Gauge,
                             end: Option<Error>, to: nat, left: Bytes, looks: seq<nat>)

  ghost predicate SessionHeard<T>(c: Context<T>, s: Session) {
    Followed(s.start.stream, s.history, s.last, s.start.maxSize, c.net, c.pollInterval)
  }

  /** The place of the request, after the look at the stop flag if polling. Having no deadline, it needs no time. */
  ghost function Asking<T>(c: Context<T>, start: Start): Gauge {
    Gauge(start.pos + if c.pollInterval.Some? then 1 else 0, 0.0, 0.0)
  }

  ghost predicate IsAsked<T>(c: Context<T>, start: Start, t: Timed) {
    IsRequest(t, c.net, Asking(c, start), NO_DEADLINE, c.payload, start.maxSize, start.open)
  }

  /** Whether the bytes of the request got as far as the socket. */
  ghost predicate Reached<T>(c: Context<T>, start: Start) {
    ReachesSocket(c.net, Asking(c, start), NO_DEADLINE, c.payload, start.maxSize, start.open)
  }

  lemma OnlyThePlaceMatters(net: Network, a: Gauge, b: Gauge, payload: Bytes, maxSize: nat, open: bool)
    requires a.pos == b.pos
    ensures RequestOutcome(net, a, NO_DEADLINE, payload, maxSize, open)
         == RequestOutcome(net, b, NO_DEADLINE, payload, maxSize, open)
    ensures ReachesSocket(net, a, NO_DEADLINE, payload, maxSize, open)
        <==> ReachesSocket(net, b, NO_DEADLINE, payload, maxSize, open)
  {
  }

  lemma AskedAt<T>(c: Context<T>, start: Start, t: Timed, now: Gauge)
    requires now.pos == Asking(c, start).pos
    requires IsRequest(t, c.net, now, NO_DEADLINE, c.payload, start.maxSize, start.open)
    ensures IsAsked(c, start, t)
    ensures Reached(c, start) <==>
      ReachesSocket(c.net, now, NO_DEADLINE, c.payload, start.maxSize, start.open)
  {
    assert Unfold(0);
    OnlyThePlaceMatters(c.net, now, Asking(c, start), c.payload, start.maxSize, start.open);
  }

  /** A look at the stop flag before the request, with polling. */
  ghost predicate StopsFirst<T>(c: Context<T>, s: Session) {
    && c.pollInterval.Some? && s.history == []
    && if s.start.pos < |c.net.script| then
         c.net.script[s.start.pos].flag && s.end == None && s.to == s.start.pos + 1
       else
         s.end == Some(Interrupted) && s.to == s.start.pos
  }

  /** What ends the reading: a stop that was asked for, a poll that failed, or a frame the parser rejects. */
  ghost predicate EndsHearing<T>(c: Context<T>, s: Session) {
    forall k: nat {:trigger Unfold(k)} | Unfold(k) ::
      match s.end
      case None => c.pollInterval.Some? && 0 < s.to <= |c.net.script| && c.net.script[s.to - 1].flag
      case Some(e) =>
        || (e == Interrupted && s.to == |c.net.script|)
        || IsPoll(Pulled(Err(e), s.to, s.left), c.net, s.final, c.pollInterval, s.last, s.start.maxSize)
        || exists frame: Bytes ::
             && c.parse(frame) == Err(e) && Encodable(frame) && |frame| <= s.start.maxSize
             && s.last == EncodeFrame(frame) + s.left
  }

  /** After each poll that yielded nothing, the stop flag was looked at once, and was down. */
  ghost predicate LooksDown(script: seq<Choice>, history: seq<Stretch>, looks: seq<nat>) {
    if history == [] then looks == []
    else
      var before, last := history[..|history| - 1], history[|history| - 1];
      if last.Frame? then LooksDown(script, before, looks)
      else
        && looks != []
        && var look := looks[|looks| - 1];
           last.at.pos < look < |script| && !script[look].flag && LooksDown(script, before, looks[..|looks| - 1])
  }

  ghost predicate Heeding<T>(c: Context<T>, s: Session) {
    forall k: nat {:trigger UnfoldOn(Looks, k)} | UnfoldOn(Looks, k) :: LooksDown(c.net.script, s.history, s.looks)
  }

  /** The first look that found the flag up, or that the script was too short for, ended the subscription. */
  ghost predicate Heeded<T>(c: Context<T>, s: Session) {
    forall k: nat {:trigger UnfoldOn(Looks, k)} | UnfoldOn(Looks, k) ::
      || (s.end.Some? && LooksDown(c.net.script, s.history, s.looks))
      || (&& s.history != [] && s.history[|s.history| - 1].Gap?
          && LooksDown(c.net.script, s.history[..|s.history| - 1], s.looks)
          && (s.end.None? || (s.end == Some(Interrupted) && s.to == |c.net.script|)))
  }

  /** What ends a subscription: a stop, a request that failed, or the end of the reading. */
  ghost predicate Ends<T>(c: Context<T>, s: Session) {
    && s.start.pos <= s.to
    && forall k: nat {:trigger Unfold(k)} | Unfold(k) ::
         match s.asked
         case None => StopsFirst(c, s)
         case Some(t) =>
           && IsAsked(c, s.start, t)
           && (c.pollInterval.Some? ==> s.start.pos < |c.net.script| && !c.net.script[s.start.pos].flag)
           && if t.r.Err? then s.history == [] && s.end == Some(t.r.error) && s.to == t.pos
              else
                && t.pos <= s.final.pos <= s.to && s.final.pos <= |c.net.script|
                && EndsHearing(c, s) && Heeded(c, s)
  }

  /** A subscription that ended in a lost connection. */
  ghost predicate Lost(s: Session) {
    s.end.Some? && s.end.value.IsConnectionError()
  }

  lemma RejectedFrame<T>(c: Context<T>, s: Session, frame: Bytes)
    requires SessionHeard(c, s) && c.pollInterval.None? && s.end.Some? && c.parse(frame) == Err(s.end.value)
    requires Encodable(frame) && |frame| <= s.start.maxSize && s.last == EncodeFrame(frame) + s.left
    ensures EndsProperly(s.start.stream, Frames(s.history), s.start.maxSize, c.parse, s.end.value)
  {
    assert Unfold(0);
    HeardExactly(s.start.stream, s.history, s.last, s.start.maxSize);
    ReadOneFrame(frame, s.left, s.start.maxSize);
    var rest := ReadStream(s.left, s.start.maxSize).frames;
    assert (Frames(s.history) + ([frame] + rest))[|Frames(s.history)|] == frame;
  }

  lemma FailedPoll<T>(c: Context<T>, s: Session)
    requires SessionHeard(c, s) && c.pollInterval.None? && s.end.Some? && s.final.pos <= |c.net.script|
    requires FineBetween(c.net.script, s.final.pos, s.to)
    requires IsPoll(Pulled(Err(s.end.value), s.to, s.left), c.net, s.final, c.pollInterval, s.last, s.start.maxSize)
    ensures EndsProperly(s.start.stream, Frames(s.history), s.start.maxSize, c.parse, s.end.value)
  {
    var p: Pulled<Option<Bytes>> := Pulled(Err(s.end.value), s.to, s.left);
    PollTakes(p, c.net, s.final, c.pollInterval, s.last, s.start.maxSize);
    FollowEnds(s.start.stream, s.history, p, s.final.pos, s.last, s.start.maxSize, c.net, c.pollInterval);
  }

  /** Without polling, and without faults in the last read, reading ends as the stream or the parser says. */
  lemma HearingEndsProperly<T>(c: Context<T>, s: Session)
    requires SessionHeard(c, s) && EndsHearing(c, s) && c.pollInterval.None? && s.final.pos <= |c.net.script|
    requires FineBetween(c.net.script, s.final.pos, s.to)
    ensures s.end.Some? && EndsProperly(s.start.stream, Frames(s.history), s.start.maxSize, c.parse, s.end.value)
  {
    assert Unfold(0);
    var e := s.end.value;
    if e == Interrupted {
    } else if IsPoll(Pulled(Err(e), s.to, s.left), c.net, s.final, c.pollInterval, s.last, s.start.maxSize) {
      FailedPoll(c, s);
    } else {
      var frame :| && c.parse(frame) == Err(e) && Encodable(frame) && |frame| <= s.start.maxSize
                   && s.last == EncodeFrame(frame) + s.left;
      RejectedFrame(c, s, frame);
    }
  }

  /** A request lost without a fault found the connection closed, which reads as an empty stream. */
  lemma LostRequest<T>(c: Context<T>, s: Session, t: Timed)
    requires IsAsked(c, s.start, t) && t.r.Err? && s.end == Some(t.r.error) && s.to == t.pos && Lost(s)
    requires s.history == [] && (s.start.open || s.start.stream == [])
    requires FineBetween(c.net.script, s.start.pos, s.to)
    ensures !s.start.open
    ensures EndsProperly(s.start.stream, Frames(s.history), s.start.maxSize, c.parse, s.end.value)
  {
    RequestLost(t, c.net, Asking(c, s.start), NO_DEADLINE, c.payload, s.start.maxSize, s.start.open);
    assert Unfold(0);
  }

  /** Without faults or polling, a lost subscription ends where its stream ends, or at a frame the parser rejects. */
  lemma LossIsProper<T>(c: Context<T>, s: Session)
    requires SessionHeard(c, s) && Ends(c, s) && Lost(s) && c.pollInterval.None?
    requires s.start.open || s.start.stream == []
    requires FineBetween(c.net.script, s.start.pos, s.to)
    ensures EndsProperly(s.start.stream, Frames(s.history), s.start.maxSize, c.parse, s.end.value)
  {
    assert Unfold(0);
    var t := s.asked.value;
    if t.r.Err? {
      LostRequest(c, s, t);
    } else {
      HearingEndsProperly(c, s);
    }
  }

  /** The frame at the head of the stream cannot be parsed. */
  ghost predicate Rejects<T>(c: Context<T>, s: Session) {
    s.end.Some? && exists frame: Bytes ::
      && c.parse(frame) == Err(s.end.value) && Encodable(frame) && |frame| <= s.start.maxSize
      && s.last == EncodeFrame(frame) + s.left
  }

  /**
   * Every loss has a cause, polling or not: the connection was closed, an
   * operation failed, the server's bytes end within a frame, or the parser
   * itself raises a connection error.
   */
  lemma LossHasCause<T>(c: Context<T>, s: Session)
    requires Ends(c, s) && Lost(s)
    ensures || !s.start.open || !FineBetween(c.net.script, s.start.pos, s.to)
            || ReadStream(s.last, s.start.maxSize) == Reading([], ConnectionLost)
            || Rejects(c, s)
  {
    assert Unfold(0);
    var t, e := s.asked.value, s.end.value;
    if t.r.Err? {
      RequestLost(t, c.net, Asking(c, s.start), NO_DEADLINE, c.payload, s.start.maxSize, s.start.open);
    } else if IsPoll(Pulled(Err(e), s.to, s.left), c.net, s.final, c.pollInterval, s.last, s.start.maxSize) {
      var p: Pulled<Option<Bytes>> := Pulled(Err(e), s.to, s.left);
      PollTakes(p, c.net, s.final, c.pollInterval, s.last, s.start.maxSize);
    }
  }

  /** The state of a subscription: what was made of the stream, and the trace that this leaves. */
  ghost predicate Tuned<T>(c: Context<T>, s: Session, trace: seq<StreamEvent>, trace': seq<StreamEvent>, attempt: nat) {
    forall k: nat {:trigger Unfold(k)} | Unfold(k) ::
      && SessionHeard(c, s)
      && trace' == trace + Events(Frames(s.history))
      && TraceSoFar(trace', c.parse, c.policy, attempt)
  }

  /** A subscription that has heard nothing yet. */
  ghost function Opened(start: Start, asked: Option<Timed>): Session {
    Session(start, asked, [], start.stream, Gauge(start.pos, 0.0, 0.0), None, start.pos, start.stream, [])
  }

  ghost function More(s: Session, item: Option<Bytes>, left: Bytes, at: Gauge): Session {
    s.(history := s.history + [NextStretch(s.last, item, left, at)], last := left)
  }

  /** One look at the stop flag, which was down. */
  ghost function Looked(s: Session, look: nat): Session {
    s.(looks := s.looks + [look])
  }

  lemma StillHeeding<T>(c: Context<T>, s: Session, item: Option<Bytes>, left: Bytes, at: Gauge)
    requires Heeding(c, s) && item.Some?
    ensures Heeding(c, More(s, item, left, at))
  {
    assert UnfoldOn(Looks, 0);
    var stretch := NextStretch(s.last, item, left, at);
    assert (s.history + [stretch])[..|s.history|] == s.history;
  }

  lemma HeedingALook<T>(c: Context<T>, s: Session, left: Bytes, at: Gauge, look: nat)
    requires Heeding(c, s) && at.pos < look < |c.net.script| && !c.net.script[look].flag
    ensures Heeding(c, Looked(More(s, None, left, at), look))
  {
    assert UnfoldOn(Looks, 0);
    var stretch := NextStretch(s.last, None, left, at);
    assert (s.history + [stretch])[..|s.history|] == s.history;
    assert (s.looks + [look])[..|s.looks|] == s.looks;
  }

  lemma HeededAtLook<T>(c: Context<T>, s: Session, left: Bytes, at: Gauge, final: Gauge, end: Option<Error>, to: nat,
                        later: Bytes)
    requires Heeding(c, s) && (end.None? || (end == Some(Interrupted) && to == |c.net.script|))
    ensures Heeded(c, Ended(More(s, None, left, at), final, end, to, later))
  {
    assert UnfoldOn(Looks, 0);
    var stretch := NextStretch(s.last, None, left, at);
    assert (s.history + [stretch])[..|s.history|] == s.history;
  }

  lemma HeededElsewhere<T>(c: Context<T>, s: Session, final: Gauge, end: Option<Error>, to: nat, left: Bytes)
    requires Heeding(c, s) && end.Some?
    ensures Heeded(c, Ended(s, final, end, to, left))
  {
    assert UnfoldOn(Looks, 0);
  }

  ghost function Ended(s: Session, final: Gauge, end: Option<Error>, to: nat, left: Bytes): Session {
    s.(final := final, end := end, to := to, left := left)
  }

  lemma NotYetTuned<T>(c: Context<T>, s: Session, trace: seq<StreamEvent>, attempt: nat)
    requires TraceSoFar(trace, c.parse, c.policy, attempt) && s.history == [] && s.last == s.start.stream
    ensures Tuned(c, s, trace, trace, attempt)
  {
    NothingFollowed(s.start.stream, s.start.maxSize, c.net, c.pollInterval);
    EmptyIsNeutral(trace);
  }

  lemma HearEvent<T>(c: Context<T>, s: Session, trace: seq<StreamEvent>, trace': seq<StreamEvent>, attempt: nat,
                     p: Pulled<Option<Bytes>>, at: Gauge)
    requires Tuned(c, s, trace, trace', attempt)
    requires p.r.Ok? && p.r.value.Some? && c.parse(p.r.value.value).Ok?
    requires TakesPoll(p, at.pos, c.net.script, c.pollInterval.Some?, s.last, s.start.maxSize)
    requires DropsOnlyWithinFrame(p, c.net, at, c.pollInterval, s.last)
    ensures Tuned(c, More(s, p.r.value, p.left, at), trace, trace' + [Event(p.r.value.value)], 0)
  {
    assert Unfold(0);
    FollowMore(s.start.stream, s.history, p, at, s.last, s.start.maxSize, c.net, c.pollInterval);
    OneMoreEvent(trace', c.parse, c.policy, attempt, p.r.value.value);
    EventsGrow(trace, Frames(s.history), p.r.value.value);
  }

  lemma HearNothing<T>(c: Context<T>, s: Session, trace: seq<StreamEvent>, trace': seq<StreamEvent>, attempt: nat,
                       p: Pulled<Option<Bytes>>, at: Gauge)
    requires Tuned(c, s, trace, trace', attempt) && p.r == Ok(None)
    requires TakesPoll(p, at.pos, c.net.script, c.pollInterval.Some?, s.last, s.start.maxSize)
    requires DropsOnlyWithinFrame(p, c.net, at, c.pollInterval, s.last)
    ensures Tuned(c, More(s, None, p.left, at), trace, trace', attempt)
    ensures Tuned(c, Looked(More(s, None, p.left, at), p.pos), trace, trace', attempt)
  {
    assert Unfold(0);
    FollowMore(s.start.stream, s.history, p, at, s.last, s.start.maxSize, c.net, c.pollInterval);
    EmptyIsNeutral(Frames(s.history));
  }

  lemma EndsWithRejection<T>(c: Context<T>, s: Session, frame: Bytes, at: Gauge, e: Error, to: nat, left: Bytes)
    requires c.parse(frame) == Err(e)
    requires TakesPoll(Pulled(Ok(Some(frame)), to, left), at.pos, c.net.script, c.pollInterval.Some?, s.last,
                       s.start.maxSize)
    ensures EndsHearing(c, Ended(s, at, Some(e), to, left))
  {
    assert Unfold(0);
  }

  lemma EndsWithPoll<T>(c: Context<T>, s: Session, at: Gauge, e: Error, to: nat, left: Bytes)
    requires IsPoll(Pulled(Err(e), to, left), c.net, at, c.pollInterval, s.last, s.start.maxSize)
    ensures EndsHearing(c, Ended(s, at, Some(e), to, left))
  {
  }

  function StopOrError(stopping: Result<bool>): Option<Error> {
    if stopping.Err? then Some(stopping.error) else None
  }

  lemma EndsWithStop<T>(c: Context<T>, s: Session, stopping: Result<bool>, before: nat, at: Gauge, to: nat, left: Bytes)
    requires c.pollInterval.Some? && stopping != Ok(false)
    requires if before < |c.net.script| then stopping == Ok(c.net.script[before].flag) && to == before + 1
             else stopping == Err(Interrupted) && to == before == |c.net.script|
    ensures EndsHearing(c, Ended(s, at, StopOrError(stopping), to, left))
  {
  }

  // ---------- the stream as a row of subscriptions ----------

  /** The trace that a row of subscriptions leaves. */
  ghost function Told(sessions: seq<Session>): seq<StreamEvent> {
    if sessions == [] then []
    else
      var before, last := sessions[..|sessions| - 1], sessions[|sessions| - 1];
      (if before == [] then [] else Told(before) + [Loss]) + Events(Frames(last.history))
  }

  /** What the connection is after a connect that came to this; one that fails closes it. */
  ghost predicate LeftBy(p: Pulled<HelloInfo>, maxSize: nat, start: Start) {
    if p.r.Ok? then start == Start(p.pos, true, p.left, p.r.value.maxMessageSize)
    else
      && p.r.error.IsConnectionError()
      && start.pos == p.pos && !start.open && start.stream == [] && start.maxSize in {maxSize, DEFAULT_MAX_MESSAGE_SIZE}
  }

  /**
   * The connection after a reconnect that began at this place: greeted by the
   * server dialled there, or closed, just as the script has it.
   */
  ghost predicate Reopened(net: Network, from: nat, tls: bool, timeout: real, hello: Bytes, maxSize: nat,
                           start: Start) {
    forall k: nat {:trigger Unfold(k)} | Unfold(k) ::
      exists p: Pulled<HelloInfo>, at: Gauge ::
        at.pos == from && IsConnect(p, net, at, tls, timeout, hello) && LeftBy(p, maxSize, start)
  }

  /** A connection that is found closed after a reconnect could not be opened, for a reason. */
  lemma NotReopened(net: Network, from: nat, tls: bool, timeout: real, hello: Bytes, maxSize: nat, start: Start)
    requires from <= |net.script| && Reopened(net, from, tls, timeout, hello, maxSize, start) && !start.open
    ensures start.stream == [] && CannotConnect(net, from, start.pos, tls, timeout)
  {
    assert exists p: Pulled<HelloInfo>, at: Gauge ::
        at.pos == from && IsConnect(p, net, at, tls, timeout, hello) && LeftBy(p, maxSize, start) by {
      assert Unfold(0);
    }
    var p: Pulled<HelloInfo>, at: Gauge :|
      at.pos == from && IsConnect(p, net, at, tls, timeout, hello) && LeftBy(p, maxSize, start);
    ConnectFails(p, net, at, tls, timeout, hello);
  }

  /** A server that greets acceptably, in time and without faults, is connected to. */
  lemma ReopenedThere(net: Network, from: nat, tls: bool, timeout: real, hello: Bytes, maxSize: nat, start: Start)
    requires net.Clocked() && Reopened(net, from, tls, timeout, hello, maxSize, start)
    requires Connectable(net, from, tls, timeout, hello)
    ensures from < |net.script| && Welcomes(net.script[from].incoming)
    ensures var stream := net.script[from].incoming;
            start == Start(start.pos, true, AfterFirst(stream, DEFAULT_MAX_MESSAGE_SIZE),
                           Accepted(FirstFrame(stream).value).value.maxMessageSize)
  {
    assert exists p: Pulled<HelloInfo>, at: Gauge ::
        at.pos == from && IsConnect(p, net, at, tls, timeout, hello) && LeftBy(p, maxSize, start) by {
      assert Unfold(0);
    }
    var p: Pulled<HelloInfo>, at: Gauge :|
      at.pos == from && IsConnect(p, net, at, tls, timeout, hello) && LeftBy(p, maxSize, start);
    ConnectArrives(p, net, at, tls, timeout, hello);
  }

  /**
   * What else than the loss itself can be raised after a loss: the end of the
   * script, a negative delay, which `sleep` refuses, or what the reconnect raises.
   */
  ghost predicate CannotResume(policy: ReconnectPolicy, net: Network, lost: nat, attempt: nat, to: nat, tls: bool,
                               timeout: real, hello: Bytes, e: Error)
    requires attempt >= 1
  {
    && !e.IsConnectionError()
    && forall k: nat {:trigger UnfoldOn(Redialling, k)} | UnfoldOn(Redialling, k) ::
         || (e == Interrupted && to >= |net.script|)
         || (e == InvalidValue && lost < |net.script| && policy.Delay(attempt, net.script[lost].jitter) < 0.0)
         || exists at: Gauge ::
              at.pos == lost + 2 && IsConnect(Pulled(Err(e), to, []), net, at, tls, timeout, hello)
  }

  /** After a lost subscription: a jitter, a nap, and the reconnect. */
  ghost predicate ComesNext<T>(c: Context<T>, before: Session, start: Start) {
    && Lost(before)
    && Reopened(c.net, before.to + 2, c.tls, c.connectTimeout, c.greeting, before.start.maxSize, start)
  }

  /** The first subscription finds the connection as it was, each later one as a loss and a reconnect left it. */
  ghost predicate Genuine<T>(c: Context<T>, sessions: seq<Session>) {
    sessions == [] ||
    var before, last := sessions[..|sessions| - 1], sessions[|sessions| - 1];
    && Genuine(c, before)
    && SessionHeard(c, last) && Ends(c, last)
    && if before == [] then last.start == c.first else ComesNext(c, before[|before| - 1], last.start)
  }

  /** How many of the requests of these subscriptions got as far as the socket. */
  ghost function Requests<T>(c: Context<T>, sessions: seq<Session>): nat {
    if sessions == [] then 0
    else
      var last := sessions[|sessions| - 1];
      Requests(c, sessions[..|sessions| - 1]) + if last.asked.Some? && Reached(c, last.start) then 1 else 0
  }

  /** Every request that reached the socket is in the log, and no others; unless they are greetings. */
  ghost predicate Logged<T>(c: Context<T>, sessions: seq<Session>, asked: int) {
    forall k: nat {:trigger Unfold(k)} | Unfold(k) :: c.payload != c.greeting ==> asked == Requests(c, sessions)
  }

  /** Each jitter was drawn where a subscription had ended. */
  ghost predicate DrawnAfter(draws: seq<nat>, sessions: seq<Session>) {
    |draws| <= |sessions| && forall i | 0 <= i < |draws| :: draws[i] == sessions[i].to
  }

  /** Between subscriptions, every one so far has ended in a loss. */
  ghost predicate Resuming<T>(c: Context<T>, sessions: seq<Session>, trace: seq<StreamEvent>, start: Start) {
    && Genuine(c, sessions)
    && trace == (if sessions == [] then [] else Told(sessions) + [Loss])
    && if sessions == [] then start == c.first else ComesNext(c, sessions[|sessions| - 1], start)
  }

  /**
   * The trace is what genuine subscriptions leave. It ends as the last one did,
   * or with the loss that the last one ended in.
   */
  ghost predicate Recorded<T>(c: Context<T>, sessions: seq<Session>, trace: seq<StreamEvent>, end: Option<Error>) {
    && sessions != [] && Genuine(c, sessions)
    && var last := sessions[|sessions| - 1];
       if Lost(last) then
         trace == Told(sessions) + [Loss] && end.Some? && (end.value.IsConnectionError() ==> end == last.end)
       else
         trace == Told(sessions) && end == last.end
  }

  function Losses(trace: seq<StreamEvent>): nat {
    if trace == [] then 0 else Losses(trace[..|trace| - 1]) + if trace[|trace| - 1].Loss? then 1 else 0
  }

  /**
   * The time slept along a trace: after each loss for which a jitter was drawn,
   * the delay for its place in its row of losses.
   */
  ghost function Naps(policy: ReconnectPolicy, script: seq<Choice>, draws: seq<nat>, trace: seq<StreamEvent>): real {
    if trace == [] then 0.0
    else
      var before := trace[..|trace| - 1];
      var loss := Losses(before);
      Naps(policy, script, draws, before)
      + if trace[|trace| - 1].Loss? && loss < |draws| && draws[loss] < |script|
        then policy.Delay(Row(trace), script[draws[loss]].jitter) else 0.0
  }

  /** Jitters are drawn one after the other, between two moments. */
  ghost predicate Drawn(draws: seq<nat>, from: nat, to: nat) {
    forall i | 0 <= i < |draws| :: from <= draws[i] < to && (i > 0 ==> draws[i - 1] < draws[i])
  }

  lemma {:induction false} EventsDoNotSleep(policy: ReconnectPolicy, script: seq<Choice>, draws: seq<nat>,
                                            trace: seq<StreamEvent>, arrived: seq<Bytes>)
    ensures Naps(policy, script, draws, trace + Events(arrived)) == Naps(policy, script, draws, trace)
    ensures Losses(trace + Events(arrived)) == Losses(trace)
  {
    if arrived == [] {
      assert trace + Events(arrived) == trace;
    } else {
      var more, event := arrived[..|arrived| - 1], Event(arrived[|arrived| - 1]);
      assert trace + Events(arrived) == trace + Events(more) + [event];
      assert (trace + Events(more) + [event])[..|trace + Events(more)|] == trace + Events(more);
      EventsDoNotSleep(policy, script, draws, trace, more);
    }
  }

  lemma {:induction false} LaterDraws(policy: ReconnectPolicy, script: seq<Choice>, draws: seq<nat>, d: nat,
                                      trace: seq<StreamEvent>)
    requires Losses(trace) <= |draws|
    ensures Naps(policy, script, draws + [d], trace) == Naps(policy, script, draws, trace)
  {
    if trace != [] {
      LaterDraws(policy, script, draws, d, trace[..|trace| - 1]);
    }
  }

  /** Between subscriptions: every loss so far has led to one nap and one dial. */
  ghost predicate Rested(policy: ReconnectPolicy, script: seq<Choice>, draws: seq<nat>, trace: seq<StreamEvent>,
                         from: nat, to: nat, dials: int, slept: real) {
    forall k: nat {:trigger Unfold(k)} | Unfold(k) ::
      && dials == Losses(trace) == |draws|
      && Drawn(draws, from, to) && slept == Naps(policy, script, draws, trace)
  }

  /** At any time: the last loss may have led to no nap or no dial yet. */
  ghost predicate Paced(policy: ReconnectPolicy, script: seq<Choice>, draws: seq<nat>, trace: seq<StreamEvent>,
                        from: nat, to: nat, dials: int, slept: real) {
    forall k: nat {:trigger Unfold(k)} | Unfold(k) ::
      && Losses(trace) - 1 <= dials <= Losses(trace)
      && Drawn(draws, from, to) && slept == Naps(policy, script, draws, trace)
  }

  lemma RestedAfterEvents(policy: ReconnectPolicy, script: seq<Choice>, draws: seq<nat>, trace: seq<StreamEvent>,
                          arrived: seq<Bytes>, from: nat, to: nat, later: nat, dials: int, slept: real)
    requires Rested(policy, script, draws, trace, from, to, dials, slept) && to <= later
    ensures Rested(policy, script, draws, trace + Events(arrived), from, later, dials, slept)
    ensures Paced(policy, script, draws, trace + Events(arrived), from, later, dials, slept)
  {
    assert Unfold(0);
    EventsDoNotSleep(policy, script, draws, trace, arrived);
  }

  lemma PacedAfterLoss(policy: ReconnectPolicy, script: seq<Choice>, draws: seq<nat>, trace: seq<StreamEvent>,
                       from: nat, to: nat, later: nat, dials: int, slept: real)
    requires Rested(policy, script, draws, trace, from, to, dials, slept) && to <= later
    ensures Paced(policy, script, draws, trace + [Loss], from, later, dials, slept)
    ensures Paced(policy, script, draws, trace + [Loss], from, later, dials + 1, slept)
    ensures dials == Losses(trace + [Loss]) - 1 == |draws|
  {
    assert Unfold(0);
    assert (trace + [Loss])[..|trace|] == trace;
  }

  lemma RestedAfterNap(policy: ReconnectPolicy, script: seq<Choice>, draws: seq<nat>, trace: seq<StreamEvent>,
                       from: nat, to: nat, later: nat, dials: int, slept: real, attempt: nat)
    requires Rested(policy, script, draws, trace, from, to, dials, slept)
    requires from <= to < later <= |script| && Row(trace + [Loss]) == attempt
    ensures attempt >= 1
    ensures var nap := policy.Delay(attempt, script[to].jitter);
            && Rested(policy, script, draws + [to], trace + [Loss], from, later, dials + 1, slept + nap)
            && Paced(policy, script, draws + [to], trace + [Loss], from, later, dials, slept + nap)
            && Paced(policy, script, draws + [to], trace + [Loss], from, later, dials + 1, slept + nap)
  {
    assert Unfold(0);
    assert (trace + [Loss])[..|trace|] == trace;
    LaterDraws(policy, script, draws, to, trace);
  }

  /** The ghost record of a stream: its subscriptions, the jitters drawn, and the trace. */
  datatype Record = Record(sessions: seq<Session>, draws: seq<nat>, trace: seq<StreamEvent>)

  /** Between subscriptions. */
  ghost predicate Stands<T>(c: Context<T>, d: Record, attempt: nat, t: Tally, start: Start) {
    && start.pos == t.pos
    && forall k: nat {:trigger Unfold(k)} | Unfold(k) ::
         && Resuming(c, d.sessions, d.trace, start)
         && DrawnAfter(d.draws, d.sessions) && |d.draws| == |d.sessions|
         && Logged(c, d.sessions, t.asked)
         && Rested(c.policy, c.net.script, d.draws, d.trace, c.first.pos, t.pos, t.dials, t.slept)
         && TraceSoFar(d.trace, c.parse, c.policy, attempt)
  }

  /** After a subscription, before it is known what comes next. */
  ghost predicate Subscribed<T>(c: Context<T>, d: Record, attempt: nat, t: Tally) {
    && |d.sessions| == |d.draws| + 1 && d.sessions[|d.draws|].to == t.pos
    && forall k: nat {:trigger Unfold(k)} | Unfold(k) ::
         && Genuine(c, d.sessions) && d.trace == Told(d.sessions)
         && DrawnAfter(d.draws, d.sessions)
         && Logged(c, d.sessions, t.asked)
         && Rested(c.policy, c.net.script, d.draws, d.trace, c.first.pos, t.pos, t.dials, t.slept)
         && TraceSoFar(d.trace, c.parse, c.policy, attempt)
  }

  /** What is raised after a loss that is not that loss has its own cause. */
  ghost predicate Explained<T>(c: Context<T>, d: Record, to: nat, end: Option<Error>) {
    d.sessions != [] && Lost(d.sessions[|d.sessions| - 1]) && end.Some? && !end.value.IsConnectionError() ==>
      && Row(d.trace) >= 1
      && CannotResume(c.policy, c.net, d.sessions[|d.sessions| - 1].to, Row(d.trace), to, c.tls, c.connectTimeout,
                      c.greeting, end.value)
  }

  /**
   * A stream that has ended: its trace is what genuine subscriptions leave, each
   * loss but perhaps the last was paid for by a nap and a dial, each request is
   * in the log, and no row of losses before the last one exceeds the budget.
   */
  ghost predicate Stopped<T>(c: Context<T>, d: Record, t: Tally, end: Option<Error>) {
    forall k: nat {:trigger Unfold(k)} | Unfold(k) ::
      && Recorded(c, d.sessions, d.trace, end)
      && DrawnAfter(d.draws, d.sessions)
      && Logged(c, d.sessions, t.asked)
      && Paced(c.policy, c.net.script, d.draws, d.trace, c.first.pos, t.pos, t.dials, t.slept)
      && WithinBudget(d.trace, c.parse, c.policy) && Explained(c, d, t.pos, end)
  }

  /**
   * Giving up on lost connections: the last row of losses is one longer than the
   * budget, and each loss but the last was followed by a nap and a dial.
   */
  ghost predicate GaveUp<T>(c: Context<T>, d: Record, dials: int) {
    && c.policy.maxAttempts.Some? && Row(d.trace) == Budget(c.policy) + 1
    && dials == Losses(d.trace) - 1 == |d.draws| == |d.sessions| - 1
  }

  /** Every lost subscription ends where its stream ends, or at a frame the parser rejects. */
  ghost predicate LostProperly<T>(c: Context<T>, sessions: seq<Session>) {
    forall i | 0 <= i < |sessions| && Lost(sessions[i]) ::
      var s := sessions[i];
      EndsProperly(s.start.stream, Frames(s.history), s.start.maxSize, c.parse, s.end.value)
  }

  lemma NothingYet<T>(c: Context<T>)
    ensures Stands(c, Record([], [], []), 0, Tally(c.first.pos, 0, 0.0, 0), c.first)
  {
  }

  lemma HasStands<T>(c: Context<T>, d: Record, attempt: nat, t: Tally, start: Start)
    requires Stands(c, d, attempt, t, start)
    ensures Resuming(c, d.sessions, d.trace, start)
    ensures DrawnAfter(d.draws, d.sessions) && |d.draws| == |d.sessions| && Logged(c, d.sessions, t.asked)
    ensures Rested(c.policy, c.net.script, d.draws, d.trace, c.first.pos, t.pos, t.dials, t.slept)
    ensures TraceSoFar(d.trace, c.parse, c.policy, attempt)
  {
    assert Unfold(0);
  }

  lemma TraceStands<T>(c: Context<T>, d: Record, attempt: nat, t: Tally, start: Start)
    requires Stands(c, d, attempt, t, start)
    ensures TraceSoFar(d.trace, c.parse, c.policy, attempt)
  {
    assert Unfold(0);
  }

  lemma HasTuned<T>(c: Context<T>, s: Session, trace: seq<StreamEvent>, trace': seq<StreamEvent>, attempt: nat)
    requires Tuned(c, s, trace, trace', attempt)
    ensures SessionHeard(c, s) && trace' == trace + Events(Frames(s.history))
    ensures TraceSoFar(trace', c.parse, c.policy, attempt)
  {
    assert Unfold(0);
  }

  lemma OneMoreGenuine<T>(c: Context<T>, sessions: seq<Session>, trace: seq<StreamEvent>, s: Session)
    requires Resuming(c, sessions, trace, s.start) && SessionHeard(c, s) && Ends(c, s)
    ensures Genuine(c, sessions + [s])
  {
    assert (sessions + [s])[..|sessions|] == sessions;
  }

  lemma OneMoreTold(sessions: seq<Session>, s: Session)
    ensures Told(sessions + [s])
         == (if sessions == [] then [] else Told(sessions) + [Loss]) + Events(Frames(s.history))
  {
    assert (sessions + [s])[..|sessions|] == sessions;
  }

  lemma OneMoreLogged<T>(c: Context<T>, sessions: seq<Session>, s: Session, asked: int)
    requires Logged(c, sessions, asked)
    ensures Logged(c, sessions + [s], asked + if s.asked.Some? && Reached(c, s.start) then 1 else 0)
  {
    assert Unfold(0);
    assert (sessions + [s])[..|sessions|] == sessions;
  }

  lemma HasSubscribed<T>(c: Context<T>, d: Record, attempt: nat, t: Tally)
    requires Subscribed(c, d, attempt, t)
    ensures Genuine(c, d.sessions) && d.trace == Told(d.sessions)
    ensures DrawnAfter(d.draws, d.sessions) && Logged(c, d.sessions, t.asked)
    ensures Rested(c.policy, c.net.script, d.draws, d.trace, c.first.pos, t.pos, t.dials, t.slept)
    ensures TraceSoFar(d.trace, c.parse, c.policy, attempt)
  {
    assert Unfold(0);
  }

  lemma HasStopped<T>(c: Context<T>, d: Record, t: Tally, end: Option<Error>)
    requires Recorded(c, d.sessions, d.trace, end) && DrawnAfter(d.draws, d.sessions) && Logged(c, d.sessions, t.asked)
    requires Paced(c.policy, c.net.script, d.draws, d.trace, c.first.pos, t.pos, t.dials, t.slept)
    requires WithinBudget(d.trace, c.parse, c.policy) && Explained(c, d, t.pos, end)
    ensures Stopped(c, d, t, end)
  {
  }

  lemma SubscribedWith<T>(c: Context<T>, d: Record, attempt: nat, t: Tally)
    requires |d.sessions| == |d.draws| + 1 && d.sessions[|d.draws|].to == t.pos
    requires Genuine(c, d.sessions) && d.trace == Told(d.sessions)
    requires DrawnAfter(d.draws, d.sessions) && Logged(c, d.sessions, t.asked)
    requires Rested(c.policy, c.net.script, d.draws, d.trace, c.first.pos, t.pos, t.dials, t.slept)
    requires TraceSoFar(d.trace, c.parse, c.policy, attempt)
    ensures Subscribed(c, d, attempt, t)
  {
  }

  lemma OneMoreSubscription<T>(c: Context<T>, d: Record, attempt: nat, t: Tally, s: Session, trace': seq<StreamEvent>,
                               attempt': nat, t': Tally)
    requires Stands(c, d, attempt, t, s.start)
    requires Tuned(c, s, d.trace, trace', attempt') && Ends(c, s)
    requires t' == Tally(s.to, t.dials, t.slept,
                         t.asked + if s.asked.Some? && Reached(c, s.start) then 1 else 0)
    ensures Subscribed(c, Record(d.sessions + [s], d.draws, trace'), attempt', t')
    ensures !Lost(s) ==> Stopped(c, Record(d.sessions + [s], d.draws, trace'), t', s.end)
  {
    HasStands(c, d, attempt, t, s.start);
    HasTuned(c, s, d.trace, trace', attempt');
    OneMoreGenuine(c, d.sessions, d.trace, s);
    OneMoreTold(d.sessions, s);
    OneMoreLogged(c, d.sessions, s, t.asked);
    RestedAfterEvents(c.policy, c.net.script, d.draws, d.trace, Frames(s.history), c.first.pos, t.pos, s.to, t.dials,
                      t.slept);
    var d' := Record(d.sessions + [s], d.draws, trace');
    SubscribedWith(c, d', attempt', t');
    if !Lost(s) {
      HasStopped(c, d', t', s.end);
    }
  }

  lemma LoggedStill<T>(c: Context<T>, sessions: seq<Session>, asked: int, after: int)
    requires Logged(c, sessions, asked) && (c.payload != c.greeting ==> after == asked)
    ensures Logged(c, sessions, after)
  {
  }

  /** A loss that is raised, or that is followed by an error before the nap was over. */
  lemma StoppedByLoss<T>(c: Context<T>, d: Record, attempt: nat, t: Tally, after: Tally, end: Option<Error>)
    requires Subscribed(c, d, attempt, t) && Lost(d.sessions[|d.draws|])
    requires end.Some?
    requires if end.value.IsConnectionError() then end == d.sessions[|d.draws|].end
             else CannotResume(c.policy, c.net, t.pos, attempt + 1, after.pos, c.tls, c.connectTimeout, c.greeting,
                               end.value)
    requires t.pos <= after.pos && t.dials <= after.dials <= t.dials + 1 && after.slept == t.slept
    requires c.payload != c.greeting ==> after.asked == t.asked
    ensures Stopped(c, d.(trace := d.trace + [Loss]), after, end)
    ensures c.policy.Exhausted(attempt + 1) && after.dials == t.dials ==>
      GaveUp(c, d.(trace := d.trace + [Loss]), after.dials)
  {
    HasSubscribed(c, d, attempt, t);
    OneMoreLoss(d.trace, c.parse, c.policy, attempt);
    PacedAfterLoss(c.policy, c.net.script, d.draws, d.trace, c.first.pos, t.pos, after.pos, t.dials, t.slept);
    LoggedStill(c, d.sessions, t.asked, after.asked);
    HasStopped(c, d.(trace := d.trace + [Loss]), after, end);
  }

  lemma DrawnOnceMore(draws: seq<nat>, sessions: seq<Session>, at: nat)
    requires DrawnAfter(draws, sessions) && |draws| < |sessions| && sessions[|draws|].to == at
    ensures DrawnAfter(draws + [at], sessions)
  {
  }

  lemma StandsWith<T>(c: Context<T>, d: Record, attempt: nat, t: Tally, start: Start)
    requires start.pos == t.pos && Resuming(c, d.sessions, d.trace, start)
    requires DrawnAfter(d.draws, d.sessions) && |d.draws| == |d.sessions| && Logged(c, d.sessions, t.asked)
    requires Rested(c.policy, c.net.script, d.draws, d.trace, c.first.pos, t.pos, t.dials, t.slept)
    requires TraceSoFar(d.trace, c.parse, c.policy, attempt)
    ensures Stands(c, d, attempt, t, start)
  {
  }

  /** The record after a loss that was slept over. */
  function Overslept(d: Record, at: nat): Record {
    Record(d.sessions, d.draws + [at], d.trace + [Loss])
  }

  /** A loss that is slept over, and then either overcome or followed by an error of the reconnect. */
  lemma SleptOverLoss<T>(c: Context<T>, d: Record, attempt: nat, t: Tally, after: Tally, end: Option<Error>)
    requires Subscribed(c, d, attempt, t) && Lost(d.sessions[|d.draws|])
    requires end.Some?
    requires CannotResume(c.policy, c.net, t.pos, attempt + 1, after.pos, c.tls, c.connectTimeout, c.greeting,
                          end.value)
    requires c.first.pos <= t.pos < after.pos <= |c.net.script|
    requires t.dials <= after.dials <= t.dials + 1
    requires c.payload != c.greeting ==> after.asked == t.asked
    requires after.slept == t.slept + c.policy.Delay(attempt + 1, c.net.script[t.pos].jitter)
    ensures Stopped(c, Overslept(d, t.pos), after, end)
  {
    HasSubscribed(c, d, attempt, t);
    OneMoreLoss(d.trace, c.parse, c.policy, attempt);
    RestedAfterNap(c.policy, c.net.script, d.draws, d.trace, c.first.pos, t.pos, after.pos, t.dials, t.slept,
                   attempt + 1);
    LoggedStill(c, d.sessions, t.asked, after.asked);
    DrawnOnceMore(d.draws, d.sessions, t.pos);
    HasStopped(c, Overslept(d, t.pos), after, end);
  }

  lemma StandsAgain<T>(c: Context<T>, d: Record, attempt: nat, t: Tally, after: Tally, start: Start)
    requires Subscribed(c, d, attempt, t) && ComesNext(c, d.sessions[|d.draws|], start) && start.pos == after.pos
    requires c.first.pos <= t.pos < after.pos <= |c.net.script| && !c.policy.Exhausted(attempt + 1)
    requires after.dials == t.dials + 1 && (c.payload != c.greeting ==> after.asked == t.asked)
    requires after.slept == t.slept + c.policy.Delay(attempt + 1, c.net.script[t.pos].jitter)
    ensures Stands(c, Overslept(d, t.pos), attempt + 1, after, start)
  {
    HasSubscribed(c, d, attempt, t);
    OneMoreLoss(d.trace, c.parse, c.policy, attempt);
    RestedAfterNap(c.policy, c.net.script, d.draws, d.trace, c.first.pos, t.pos, after.pos, t.dials, t.slept,
                   attempt + 1);
    LoggedStill(c, d.sessions, t.asked, after.asked);
    DrawnOnceMore(d.draws, d.sessions, t.pos);
    StandsWith(c, Overslept(d, t.pos), attempt + 1, after, start);
  }

  lemma {:induction false} GenuineLossesAreProper<T>(c: Context<T>, sessions: seq<Session>)
    requires Genuine(c, sessions) && AllFine(c.net.script) && c.pollInterval.None?
    requires c.first.open || c.first.stream == []
    ensures LostProperly(c, sessions)
  {
    if sessions != [] {
      var before, last := sessions[..|sessions| - 1], sessions[|sessions| - 1];
      GenuineLossesAreProper(c, before);
      assert forall i | 0 <= i < |before| :: before[i] == sessions[i];
      assert last.start.open || last.start.stream == [] by {
        assert Unfold(0);
      }
      if Lost(last) {
        LossIsProper(c, last);
      }
    }
  }

  lemma LossesAreProper<T>(c: Context<T>, d: Record, t: Tally, end: Option<Error>)
    requires Stopped(c, d, t, end) && (c.first.open || c.first.stream == [])
    ensures AllFine(c.net.script) && c.pollInterval.None? ==> LostProperly(c, d.sessions)
  {
    assert Unfold(0);
    if AllFine(c.net.script) && c.pollInterval.None? {
      GenuineLossesAreProper(c, d.sessions);
    }
  }

  lemma StillTuned<T>(c: Context<T>, s: Session, final: Gauge, end: Option<Error>, to: nat, left: Bytes,
                      trace: seq<StreamEvent>, trace': seq<StreamEvent>, attempt: nat)
    requires Tuned(c, s, trace, trace', attempt)
    ensures Tuned(c, Ended(s, final, end, to, left), trace, trace', attempt)
  {
    assert Unfold(0);
  }

  /** A subscription about which the last word has been said. */
  lemma HeardToTheEnd<T>(c: Context<T>, s: Session, trace: seq<StreamEvent>, trace': seq<StreamEvent>, attempt: nat)
    requires Tuned(c, s, trace, trace', attempt) && EndsHearing(c, s) && s.final.pos <= |c.net.script|
    ensures s.end.None? ==> c.pollInterval.Some?
    ensures AllFine(c.net.script) && c.pollInterval.None? ==>
      s.end.Some? && EndsProperly(s.start.stream, Frames(s.history), s.start.maxSize, c.parse, s.end.value)
  {
    assert Unfold(0);
    if AllFine(c.net.script) && c.pollInterval.None? {
      HearingEndsProperly(c, s);
    }
  }

  lemma EndsUnasked<T>(c: Context<T>, s: Session)
    requires s.asked.None? && StopsFirst(c, s)
    ensures Ends(c, s)
  {
  }

  lemma EndsUnheard<T>(c: Context<T>, s: Session)
    requires s.asked.Some? && IsAsked(c, s.start, s.asked.value) && s.asked.value.r.Err?
    requires c.pollInterval.Some? ==> s.start.pos < |c.net.script| && !c.net.script[s.start.pos].flag
    requires s.history == [] && s.last == s.start.stream && (s.start.open || s.start.stream == [])
    requires s.end == Some(s.asked.value.r.error) && s.start.pos <= s.to == s.asked.value.pos
    ensures Ends(c, s)
    ensures AllFine(c.net.script) && Lost(s) ==>
      EndsProperly(s.start.stream, Frames(s.history), s.start.maxSize, c.parse, s.end.value)
  {
    if AllFine(c.net.script) && Lost(s) {
      LostRequest(c, s, s.asked.value);
    }
  }

  lemma EndsHeard<T>(c: Context<T>, s: Session)
    requires s.asked.Some? && IsAsked(c, s.start, s.asked.value) && s.asked.value.r.Ok?
    requires EndsHearing(c, s) && Heeded(c, s)
    requires c.pollInterval.Some? ==> s.start.pos < |c.net.script| && !c.net.script[s.start.pos].flag
    requires s.start.pos <= s.asked.value.pos <= s.final.pos <= s.to && s.final.pos <= |c.net.script|
    ensures Ends(c, s)
  {
  }

  /** The context of a stream that starts now. */
  ghost function ContextOf<T>(policy: ReconnectPolicy, connection: Connection, payload: Bytes,
                              parse: Bytes -> Result<T>, pollInterval: Option<real>): Context<T>
    requires connection.Valid()
    reads connection, connection.net
  {
    var net := connection.net;
    Context(policy, parse, pollInterval, net, connection.tls, connection.connectTimeout,
            Hello(connection.token).payload, payload, connection.Found(),
            Tally(net.pos, net.dials, net.slept, Attempts(net.log, payload)))
  }

  /** What the context says about listening. */
  ghost predicate Concerns<T>(c: Context<T>, policy: ReconnectPolicy, connection: Connection, parse: Bytes -> Result<T>,
                              pollInterval: Option<real>) {
    c.policy == policy && c.parse == parse && c.pollInterval == pollInterval && c.net == connection.net
  }

  /** What the context says about reconnecting. */
  ghost predicate Reconnects<T>(c: Context<T>, policy: ReconnectPolicy, connection: Connection) {
    && c.policy == policy && c.net == connection.net && c.tls == connection.tls
    && c.connectTimeout == connection.connectTimeout && c.greeting == Hello(connection.token).payload
  }

  /** A subscription that is over, at this place in the script. */
  ghost predicate IsOver<T>(c: Context<T>, s: Session, to: nat, left: Bytes, end: Option<Error>) {
    EndsHearing(c, s) && Heeded(c, s) && s.to == to && s.left == left && s.end == end
  }

  /** One turn of the consumer's loop: a poll, and an event, a look at the stop flag, or the end. */
  method HearOne<T>(connection: Connection, parse: Bytes -> Result<T>, pollInterval: Option<real>,
                    trace: seq<StreamEvent>, attempt: nat, ghost c: Context<T>, ghost s: Session,
                    ghost before: seq<StreamEvent>)
    returns (trace': seq<StreamEvent>, attempt': nat, over: bool, end: Option<Error>, ghost s': Session)
    requires connection.Valid() && connection.sock.Some?
    requires c.net == connection.net && c.parse == parse && c.pollInterval == pollInterval
    requires s.last == connection.Unread() && s.start.maxSize == connection.maxMessageSize
    requires Tuned(c, s, before, trace, attempt) && Heeding(c, s)
    modifies connection.net`pos, connection.net`now, connection.net`inboxes
    ensures connection.Valid() && connection.net.Since(old(connection.net.Time()))
    ensures s'.start == s.start && s'.asked == s.asked && Tuned(c, s', before, trace', attempt')
    ensures !over ==>
      s'.last == connection.Unread() && old(connection.net.pos) < connection.net.pos && Heeding(c, s')
    ensures over ==>
      && IsOver(c, s', connection.net.pos, connection.Unread(), end)
      && old(connection.net.pos) <= s'.final.pos <= connection.net.pos
  {
    ghost var net, at := connection.net, connection.net.Time();
    trace', attempt', over, end, s' := trace, attempt, true, None, s;
    var frame := connection.NextFrame(pollInterval);
    ghost var p := Pulled(frame, net.pos, connection.Unread());
    if frame.Err? {
      end := Some(frame.error);
      HeededElsewhere(c, s, at, end, net.pos, p.left);
      EndsWithPoll(c, s, at, frame.error, net.pos, p.left);
    } else if frame.value.None? {
      HearNothing(c, s, before, trace, attempt, p, at);
      s' := More(s, None, p.left, at);
      ghost var looked := net.pos;
      var stopping := connection.net.StopRequested();
      over, end := stopping.Err? || stopping.value, StopOrError(stopping);
      if over {
        HeededAtLook(c, s, p.left, at, at, end, net.pos, p.left);
        EndsWithStop(c, s', stopping, looked, at, net.pos, p.left);
      } else {
        HeedingALook(c, s, p.left, at, looked);
        s' := Looked(s', looked);
      }
    } else {
      var payload := frame.value.value;
      var event := parse(payload);
      if event.Err? {
        end := Some(event.error);
        HeededElsewhere(c, s, at, end, net.pos, p.left);
        EndsWithRejection(c, s, payload, at, event.error, net.pos, p.left);
      } else {
        HearEvent(c, s, before, trace, attempt, p, at);
        StillHeeding(c, s, frame.value, p.left, at);
        s' := More(s, frame.value, p.left, at);
        trace', attempt', over := trace + [Event(payload)], 0, false;
      }
    }
    if over {
      StillTuned(c, s', at, end, net.pos, p.left, before, trace', attempt');
      s' := Ended(s', at, end, net.pos, p.left);
    }
  }

  /** The events of a running subscription, whose connection was found like this and whose request went like that. */
  method Hear<T>(policy: ReconnectPolicy, connection: Connection, parse: Bytes -> Result<T>, pollInterval: Option<real>,
                 trace: seq<StreamEvent>, attempt: nat, ghost c: Context<T>, ghost start: Start, ghost asked: Timed)
    returns (trace': seq<StreamEvent>, attempt': nat, end: Option<Error>, ghost s: Session)
    requires connection.Valid() && connection.sock.Some? && TraceSoFar(trace, parse, policy, attempt)
    requires Concerns(c, policy, connection, parse, pollInterval)
    requires start.stream == connection.Unread() && start.maxSize == connection.maxMessageSize
    modifies connection.net`pos, connection.net`now, connection.net`inboxes
    ensures connection.Valid() && connection.net.Since(old(connection.net.Time()))
    ensures s.start == start && s.asked == Some(asked) && s.end == end && s.left == connection.Unread()
    ensures old(connection.net.pos) <= s.final.pos <= s.to == connection.net.pos
    ensures Tuned(c, s, trace, trace', attempt') && EndsHearing(c, s) && Heeded(c, s)
    ensures end.None? ==> pollInterval.Some?
    ensures AllFine(connection.net.script) && pollInterval.None? ==>
      EndsProperly(start.stream, Frames(s.history), start.maxSize, parse, end.value)
  {
    trace', attempt' := trace, attempt;
    s := Opened(start, Some(asked));
    NotYetTuned(c, s, trace, attempt);
    end := None;
    var over := false;
    while !over
      invariant connection.Valid() && connection.net.Since(old(connection.net.Time()))
      invariant s.start == start && s.asked == Some(asked) && Tuned(c, s, trace, trace', attempt')
      invariant !over ==> s.last == connection.Unread() && Heeding(c, s)
      invariant over ==>
        && IsOver(c, s, connection.net.pos, connection.Unread(), end)
        && old(connection.net.pos) <= s.final.pos <= connection.net.pos
      decreases !over, |connection.net.script| - connection.net.pos
    {
      trace', attempt', over, end, s := HearOne(connection, parse, pollInterval, trace', attempt', c, s, trace);
    }
    HeardToTheEnd(c, s, trace, trace', attempt');
  }

  /** The request of a subscription. */
  method Ask<T>(connection: Connection, command: Command, ghost c: Context<T>, ghost start: Start)
    returns (r: Result<()>, ghost asked: Timed)
    requires connection.Valid()
    requires c.net == connection.net && c.payload == command.payload
    requires start.open == connection.sock.Some? && start.maxSize == connection.maxMessageSize
    requires connection.net.pos == Asking(c, start).pos
    modifies connection`requestInFlight, connection.net`pos, connection.net`now, connection.net`log
    ensures connection.Valid() && connection.net.Since(old(connection.net.Time()))
    ensures asked == Timed(r, connection.net.pos) && IsAsked(c, start, asked)
    ensures Attempts(connection.net.log, command.payload)
         == Attempts(old(connection.net.log), command.payload) + if Reached(c, start) then 1 else 0
    ensures r.Ok? ==> connection.sock.Some? && connection.WroteWhole(old(connection.net.log), command.payload)
    ensures connection.WroteWhole(old(connection.net.log), command.payload) && AllFine(connection.net.script) ==> r.Ok?
  {
    ghost var net, now := connection.net, connection.net.Time();
    r := connection.WriteRequest(command, NO_DEADLINE);
    asked := Timed(r, net.pos);
    AskedAt(c, start, asked, now);
    if net.log != old(net.log) {
      AttemptsGrow(old(net.log), net.log, connection.sock.value, command.payload, command.payload);
    }
  }

  /** The request of a subscription, and its events if the request left. */
  method Attend<T>(policy: ReconnectPolicy, connection: Connection, command: Command, parse: Bytes -> Result<T>,
                   pollInterval: Option<real>, trace: seq<StreamEvent>, attempt: nat, ghost c: Context<T>,
                   ghost start: Start)
    returns (trace': seq<StreamEvent>, attempt': nat, end: Option<Error>, ghost s: Session)
    requires connection.Valid() && TraceSoFar(trace, parse, policy, attempt)
    requires Concerns(c, policy, connection, parse, pollInterval) && c.payload == command.payload
    requires connection.Found() == start.(pos := Asking(c, start).pos)
    requires pollInterval.Some? ==> start.pos < |c.net.script| && !c.net.script[start.pos].flag
    modifies connection`requestInFlight, connection.net`pos, connection.net`now, connection.net`inboxes
    modifies connection.net`log
    ensures connection.Valid() && connection.net.Since(old(connection.net.Time()))
    ensures s.start == start && s.asked.Some? && s.end == end && s.to == connection.net.pos
    ensures s.left == connection.Unread()
    ensures Tuned(c, s, trace, trace', attempt') && Ends(c, s)
    ensures Attempts(connection.net.log, command.payload)
         == Attempts(old(connection.net.log), command.payload) + if Reached(c, start) then 1 else 0
    ensures end.None? ==> pollInterval.Some?
    ensures !connection.WroteWhole(old(connection.net.log), command.payload) ==> s.history == []
    ensures AllFine(connection.net.script) && pollInterval.None?
            && (connection.WroteWhole(old(connection.net.log), command.payload) || Lost(s)) ==>
      EndsProperly(start.stream, Frames(s.history), start.maxSize, parse, end.value)
  {
    ghost var asked;
    var started;
    started, asked := Ask(connection, command, c, start);
    if started.Err? {
      trace', attempt', end := trace, attempt, Some(started.error);
      s := Ended(Opened(start, Some(asked)), connection.net.Time(), end, connection.net.pos, connection.Unread());
      EndsUnheard(c, s);
      NotYetTuned(c, s, trace, attempt);
    } else {
      trace', attempt', end, s := Hear(policy, connection, parse, pollInterval, trace, attempt, c, start, asked);
      EndsHeard(c, s);
    }
  }

  /** One subscription, unless told to stop: the request, then events until it fails or is told to stop. */
  method Listen<T>(policy: ReconnectPolicy, connection: Connection, command: Command, parse: Bytes -> Result<T>,
                   pollInterval: Option<real>, trace: seq<StreamEvent>, attempt: nat, ghost c: Context<T>)
    returns (trace': seq<StreamEvent>, attempt': nat, end: Option<Error>, ghost s: Session)
    requires connection.Valid() && TraceSoFar(trace, parse, policy, attempt)
    requires Concerns(c, policy, connection, parse, pollInterval) && c.payload == command.payload
    modifies connection`requestInFlight, connection.net`pos, connection.net`now, connection.net`inboxes
    modifies connection.net`log
    ensures connection.Valid() && connection.net.Since(old(connection.net.Time()))
    ensures s.start == old(connection.Found()) && s.end == end && s.to == connection.net.pos
    ensures s.left == connection.Unread()
    ensures Tuned(c, s, trace, trace', attempt') && Ends(c, s)
    ensures Attempts(connection.net.log, command.payload)
         == Attempts(old(connection.net.log), command.payload)
            + if s.asked.Some? && Reached(c, s.start) then 1 else 0
    ensures end.None? ==> pollInterval.Some?
    ensures !connection.WroteWhole(old(connection.net.log), command.payload) ==> s.history == []
    ensures AllFine(connection.net.script) && pollInterval.None?
            && (connection.WroteWhole(old(connection.net.log), command.payload) || Lost(s)) ==>
      EndsProperly(s.start.stream, Frames(s.history), s.start.maxSize, parse, end.value)
  {
    ghost var start := connection.Found();
    var stopping: Result<bool> := Ok(false);
    if pollInterval.Some? {
      stopping := connection.net.StopRequested();
    }
    if stopping.Err? || stopping.value {
      trace', attempt', end := trace, attempt, StopOrError(stopping);
      s := Ended(Opened(start, None), connection.net.Time(), end, connection.net.pos, connection.Unread());
      EndsUnasked(c, s);
      NotYetTuned(c, s, trace, attempt);
    } else {
      trace', attempt', end, s := Attend(policy, connection, command, parse, pollInterval, trace, attempt, c, start);
    }
  }

  /** The delay for the jitter drawn now. */
  ghost function Nap(policy: ReconnectPolicy, net: Network, attempt: nat): real
    requires attempt >= 1
    reads net
  {
    if net.pos < |net.script| then policy.Delay(attempt, net.script[net.pos].jitter) else 0.0
  }

  lemma ReopenedFor(p: Pulled<HelloInfo>, net: Network, at: Gauge, tls: bool, timeout: real, hello: Bytes, maxSize: nat,
                    start: Start)
    requires IsConnect(p, net, at, tls, timeout, hello) && LeftBy(p, maxSize, start)
    ensures Reopened(net, at.pos, tls, timeout, hello, maxSize, start)
  {
  }

  /** A reconnect between two subscriptions; one that fails to connect counts as done. */
  method Reopen(connection: Connection, ghost payload: Bytes) returns (r: Result<()>)
    requires connection.Valid()
    modifies connection, connection.net`pos, connection.net`now, connection.net`inboxes
    modifies connection.net`log, connection.net`dials
    ensures connection.Valid() && connection.net.Since(old(connection.net.Time()))
    ensures r.Ok? ==> connection.net.dials == old(connection.net.dials) + 1
    ensures old(connection.net.dials) <= connection.net.dials <= old(connection.net.dials) + 1
    ensures r.Ok? ==>
      Reopened(connection.net, old(connection.net.pos), connection.tls, connection.connectTimeout,
               Hello(connection.token).payload, old(connection.maxMessageSize), connection.Found())
    ensures r.Err? ==>
      && !r.error.IsConnectionError()
      && IsConnect(Pulled(Err(r.error), connection.net.pos, []), connection.net, old(connection.net.Time()),
                   connection.tls, connection.connectTimeout, Hello(connection.token).payload)
    ensures payload != Hello(connection.token).payload ==>
      Attempts(connection.net.log, payload) == Attempts(old(connection.net.log), payload)
  {
    var net := connection.net;
    ghost var before, wires, start, hello := net.log, |net.inboxes|, net.Time(), Hello(connection.token).payload;
    r := connection.Reconnect();
    if net.log != before {
      AttemptsGrow(before, net.log, wires, hello, payload);
    }
    if r.Ok? || r.error.IsConnectionError() {
      ReopenedFor(Pulled(connection.Terms(r), net.pos, connection.Unread()), net, start, connection.tls,
                  connection.connectTimeout, hello, old(connection.maxMessageSize), connection.Found());
      r := Ok(());
    }
  }

  lemma ResumeFails(policy: ReconnectPolicy, net: Network, lost: nat, attempt: nat, at: Gauge, to: nat, tls: bool,
                    timeout: real, hello: Bytes, e: Error)
    requires attempt >= 1 && !e.IsConnectionError() && at.pos == lost + 2
    requires IsConnect(Pulled(Err(e), to, []), net, at, tls, timeout, hello)
    ensures CannotResume(policy, net, lost, attempt, to, tls, timeout, hello, e)
  {
  }

  /** Between two subscriptions: wait, then reconnect; a reconnect that fails counts as done. */
  method Resume(policy: ReconnectPolicy, connection: Connection, attempt: nat, ghost payload: Bytes)
    returns (r: Result<()>)
    requires connection.Valid() && attempt >= 1
    modifies connection, connection.net`pos, connection.net`now, connection.net`slept, connection.net`inboxes
    modifies connection.net`log, connection.net`dials
    ensures connection.Valid() && connection.net.Since(old(connection.net.Time()))
    ensures r.Ok? ==> old(connection.net.pos) < connection.net.pos
    ensures r.Ok? ==> connection.net.dials == old(connection.net.dials) + 1
    ensures r.Ok? ==> connection.net.slept == old(connection.net.slept + Nap(policy, connection.net, attempt))
    ensures connection.net.slept != old(connection.net.slept) ==>
      && old(connection.net.pos) < connection.net.pos
      && connection.net.slept == old(connection.net.slept + Nap(policy, connection.net, attempt))
    ensures old(connection.net.dials) <= connection.net.dials <= old(connection.net.dials) + 1
    ensures old(Nap(policy, connection.net, attempt)) < 0.0 ==>
      r == Err(InvalidValue) && connection.net.slept == old(connection.net.slept)
    ensures r.Ok? ==>
      Reopened(connection.net, old(connection.net.pos) + 2, connection.tls, connection.connectTimeout,
               Hello(connection.token).payload, old(connection.maxMessageSize), connection.Found())
    ensures r.Err? ==>
      CannotResume(policy, connection.net, old(connection.net.pos), attempt, connection.net.pos, connection.tls,
                   connection.connectTimeout, Hello(connection.token).payload, r.error)
    ensures payload != Hello(connection.token).payload ==>
      Attempts(connection.net.log, payload) == Attempts(old(connection.net.log), payload)
  {
    var net := connection.net;
    var rand :- net.Random();
    var delay := policy.Delay(attempt, rand);
    if delay < 0.0 {
      return Err(InvalidValue);
    }
    var _ :- net.Sleep(delay);
    ghost var dialling := net.Time();
    r := Reopen(connection, payload);
    if r.Err? {
      ResumeFails(policy, net, old(net.pos), attempt, dialling, net.pos, connection.tls, connection.connectTimeout,
                  Hello(connection.token).payload, r.error);
    }
  }

  /** What the network has spent since a stream began. */
  ghost function Spent<T>(c: Context<T>): Tally
    reads c.net
  {
    Tally(c.net.pos, c.net.dials - c.base.dials, c.net.slept - c.base.slept,
          Attempts(c.net.log, c.payload) - c.base.asked)
  }

  /** A lost connection: give up if the budget is spent, otherwise wait and reconnect. */
  method AfterLoss<T>(policy: ReconnectPolicy, connection: Connection, attempt: nat, loss: Error,
                      ghost c: Context<T>, ghost d: Record)
    returns (raised: Option<Error>, ghost d': Record)
    requires connection.Valid() && loss.IsConnectionError()
    requires Reconnects(c, policy, connection) && c.first.pos <= connection.net.pos
    requires Subscribed(c, d, attempt, Spent(c))
    requires d.sessions[|d.draws|].end == Some(loss)
    requires d.sessions[|d.draws|].start.maxSize == connection.maxMessageSize
    modifies connection, connection.net`pos, connection.net`now, connection.net`slept, connection.net`inboxes
    modifies connection.net`log, connection.net`dials
    ensures connection.Valid() && old(connection.net.pos) <= connection.net.pos
    ensures d'.sessions == d.sessions && d'.trace == d.trace + [Loss]
    ensures raised.None? ==>
      old(connection.net.pos) < connection.net.pos && Stands(c, d', attempt + 1, Spent(c), connection.Found())
    ensures raised.Some? ==> Stopped(c, d', Spent(c), raised)
    ensures raised.Some? && raised.value.IsConnectionError() ==> GaveUp(c, d', Spent(c).dials) && raised == Some(loss)
  {
    var net := connection.net;
    ghost var t := Spent(c);
    d' := d.(trace := d.trace + [Loss]);
    if policy.Exhausted(attempt + 1) {
      raised := Some(loss);
      StoppedByLoss(c, d, attempt, t, t, raised);
      return;
    }
    var resumed := Resume(policy, connection, attempt + 1, c.payload);
    ghost var after := Spent(c);
    if resumed.Ok? {
      assert after.slept == t.slept + policy.Delay(attempt + 1, net.script[t.pos].jitter);
      StandsAgain(c, d, attempt, t, after, connection.Found());
      return None, Overslept(d, t.pos);
    }
    raised := Some(resumed.error);
    if net.slept != old(net.slept) {
      assert after.slept == t.slept + policy.Delay(attempt + 1, net.script[t.pos].jitter);
      SleptOverLoss(c, d, attempt, t, after, raised);
      d' := Overslept(d, t.pos);
    } else {
      StoppedByLoss(c, d, attempt, t, after, raised);
    }
  }

  /**
   * The stream, with reconnection inside. It gives up on lost connections only
   * when the budget runs out within one row of failures, each of which the
   * script or the server accounts for; every event in between starts the count
   * afresh. Between two losses it has slept the jittered delay and dialled once.
   * The events are the frames the servers sent, subscription by subscription.
   */
  method Stream<T>(policy: ReconnectPolicy, connection: Connection, command: Command, parse: Bytes -> Result<T>,
                   pollInterval: Option<real>)
    returns (trace: seq<StreamEvent>, end: Option<Error>, ghost d: Record)
    requires connection.Valid()
    modifies connection, connection.net`pos, connection.net`now, connection.net`slept, connection.net`inboxes
    modifies connection.net`log, connection.net`dials
    ensures connection.Valid() && d.trace == trace
    ensures var c := old(ContextOf(policy, connection, command.payload, parse, pollInterval));
            && Stopped(c, d, Spent(c), end)
            && (end.Some? && end.value.IsConnectionError() ==> GaveUp(c, d, Spent(c).dials))
            && (AllFine(connection.net.script) && pollInterval.None? ==> LostProperly(c, d.sessions))
    ensures end.None? ==> pollInterval.Some?
  {
    var net := connection.net;
    trace, d := [], Record([], [], []);
    var attempt: nat := 0;
    ghost var c := ContextOf(policy, connection, command.payload, parse, pollInterval);
    NothingYet(c);
    while true
      invariant connection.Valid() && old(net.pos) <= net.pos
      invariant d.trace == trace
      invariant Stands(c, d, attempt, Spent(c), connection.Found())
      decreases |net.script| - net.pos
    {
      ghost var t, s, before := Spent(c), Opened(connection.Found(), None), attempt;
      TraceStands(c, d, attempt, t, connection.Found());
      var ended;
      trace, attempt, ended, s := Listen(policy, connection, command, parse, pollInterval, trace, attempt, c);
      OneMoreSubscription(c, d, before, t, s, trace, attempt, Spent(c));
      d := Record(d.sessions + [s], d.draws, trace);
      if ended.None? || !ended.value.IsConnectionError() {
        LossesAreProper(c, d, Spent(c), ended);
        return trace, ended, d;
      }
      var raised;
      raised, d := AfterLoss(policy, connection, attempt, ended.value, c, d);
      trace := trace + [Loss];
      attempt := attempt + 1;
      if raised.Some? {
        LossesAreProper(c, d, Spent(c), raised);
        return trace, raised, d;
      }
    }
  }
}
