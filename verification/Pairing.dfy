/** Every completed call on a socket returns the reply to its own request, as long as none is owed from before. */
module Pairing {
  import opened Core
  import opened Framing
  import opened Chunked
  import opened Transport
  import opened Reads
  import opened Exchanges
  import opened Connections

  function Flatten(replies: seq<seq<Bytes>>): seq<Bytes> {
    if replies == [] then [] else replies[0] + Flatten(replies[1..])
  }

  ghost predicate AllEncodable(replies: seq<seq<Bytes>>) {
    forall i, j | 0 <= i < |replies| && 0 <= j < |replies[i]| :: Encodable(replies[i][j])
  }

  lemma {:induction false} FlattenEncodable(replies: seq<seq<Bytes>>)
    requires AllEncodable(replies)
    ensures forall f <- Flatten(replies) :: Encodable(f)
  {
    if replies != [] {
      FlattenEncodable(replies[1..]);
    }
  }

  /** The next byte to read is the first one of the reply to the next request. */
  ghost predicate AtOwnReply(link: Link, replies: seq<seq<Bytes>>)
    requires AllEncodable(replies)
  {
    && link.requests <= |replies|
    && (forall f <- Flatten(replies[link.requests..]) :: Encodable(f))
    && link.unread == EncodeAll(Flatten(replies[link.requests..]))
  }

  /** The server answers in order: what is unread is the replies to the requests still to come. */
  ghost predicate InStep(link: Link, replies: seq<seq<Bytes>>)
    requires AllEncodable(replies)
  {
    !link.inFlight && AtOwnReply(link, replies)
  }

  /** The server gives each request a reply of the kind the caller reads. */
  ghost predicate Fits(link: Link, e: Exchange, replies: seq<seq<Bytes>>) {
    link.requests < |replies| ==> IsReply(e.chunked, replies[link.requests])
  }

  lemma RepliesAgree(chunked: bool, a: seq<Bytes>, b: seq<Bytes>, stream: seq<Bytes>)
    requires IsReply(chunked, a) && IsReply(chunked, b)
    requires |a| <= |stream| && a == stream[..|a|]
    requires |b| <= |stream| && b == stream[..|b|]
    ensures a == b
  {
    if chunked {
      GroupsAgree(a, b, stream);
    } else {
      assert a == [stream[0]] == b;
    }
  }

  /** The frames still to come are those of the next reply and then the later ones. */
  lemma NextReplyFirst(link: Link, replies: seq<seq<Bytes>>)
    requires AllEncodable(replies) && AtOwnReply(link, replies) && link.requests < |replies|
    ensures var reply, later := replies[link.requests], Flatten(replies[link.requests + 1..]);
            && Flatten(replies[link.requests..]) == reply + later
            && (forall f <- reply + later :: Encodable(f)) && (forall f <- later :: Encodable(f))
            && link.unread == EncodeAll(reply + later)
  {
    assert replies[link.requests..][1..] == replies[link.requests + 1..];
    FlattenEncodable(replies[link.requests + 1..]);
  }

  /** A whole reply taken from the head of the stream is the next one. */
  lemma TookNextReply(a: Link, b: Link, e: Exchange, replies: seq<seq<Bytes>>)
    requires AllEncodable(replies) && AtOwnReply(a, replies) && Fits(a, e, replies)
    requires TookReply(a.unread, b.unread, e) && b.requests == a.requests + 1
    ensures a.requests < |replies| && e.frames == replies[a.requests]
    ensures AtOwnReply(b, replies)
  {
    var stream := Flatten(replies[a.requests..]);
    FramedPrefix(e.frames, b.unread, stream);
    assert e.frames != [];
    assert a.requests < |replies|;
    NextReplyFirst(a, replies);
    var reply, later := replies[a.requests], Flatten(replies[a.requests + 1..]);
    assert reply == stream[..|reply|];
    RepliesAgree(e.chunked, e.frames, reply, stream);
    assert stream[|reply|..] == later;
  }

  /** One completed call takes exactly the next reply. */
  lemma TakesNextReply(a: Link, b: Link, e: Exchange, replies: seq<seq<Bytes>>)
    requires AllEncodable(replies) && AtOwnReply(a, replies) && Fits(a, e, replies)
    requires Exchanged(a, b, e) && e.result.Ok?
    ensures a.requests < |replies| && e.frames == replies[a.requests]
    ensures e.result == ReplyValue(e.chunked, replies[a.requests])
    ensures b.requests == a.requests + 1 && InStep(b, replies)
  {
    assert Unfold(0);
    TookNextReply(a, b, e, replies);
  }

  ghost predicate IsRun(links: seq<Link>, exchanges: seq<Exchange>) {
    && |links| == |exchanges| + 1
    && forall i | 0 <= i < |exchanges| :: Exchanged(links[i], links[i + 1], exchanges[i])
  }

  /**
   * Over any run on one socket, as long as calls start idle, no write breaks
   * off and the server answers in order, each completed call returns the reply
   * to its own request, and an idle socket has consumed one reply per request.
   */
  lemma {:induction false} EveryCallGetsItsOwnReply(links: seq<Link>, exchanges: seq<Exchange>,
                                                   replies: seq<seq<Bytes>>)
    requires AllEncodable(replies) && IsRun(links, exchanges) && InStep(links[0], replies)
    requires forall i | 0 <= i < |exchanges| :: !links[i].inFlight && Fits(links[i], exchanges[i], replies)
    ensures forall i | 0 <= i < |exchanges| && exchanges[i].result.Ok? ::
              var k := links[i].requests;
              && k < |replies| && IsReply(exchanges[i].chunked, replies[k])
              && exchanges[i].result == ReplyValue(exchanges[i].chunked, replies[k])
    ensures forall i | 0 <= i < |links| && !links[i].inFlight :: InStep(links[i], replies)
  {
    if exchanges != [] {
      var a, b, e := links[0], links[1], exchanges[0];
      assert Exchanged(a, b, e) && Fits(a, e, replies);
      if e.result.Ok? {
        TakesNextReply(a, b, e, replies);
      }
      if b.inFlight {
        assert |exchanges| == 1;
      } else {
        EveryCallGetsItsOwnReply(links[1..], exchanges[1..], replies);
        assert forall i | 0 < i < |exchanges| :: exchanges[i] == exchanges[1..][i - 1] && links[i] == links[1..][i - 1];
        assert forall i | 0 < i < |links| :: links[i] == links[1..][i - 1];
      }
    }
  }

  // ---------- a connection handed out again ----------

  lemma SizeInHeader(payload: Bytes, rest: Bytes)
    requires Encodable(payload)
    ensures FromBigEndian((EncodeFrame(payload) + rest)[..HEADER_SIZE]) == |payload|
  {
    HeaderHolds32Bits();
    BigEndianRoundTrip(|payload|, HEADER_SIZE);
    assert (EncodeFrame(payload) + rest)[..HEADER_SIZE] == EncodeSize(|payload|);
  }

  lemma TailOfFrames(frames: seq<Bytes>, n: nat)
    requires n <= |frames| && forall f <- frames :: Encodable(f)
    ensures |EncodeAll(frames[n..])| <= |EncodeAll(frames)|
    ensures n > 0 ==> |EncodeAll(frames[n..])| < |EncodeAll(frames)|
  {
    assert frames == frames[..n] + frames[n..];
    EncodeAllAppend(frames[..n], frames[n..]);
  }

  /** A read that breaks off inside a frame leaves some of that frame unread. */
  lemma BreaksOffWithinFrame(frames: seq<Bytes>, left: Bytes)
    requires frames != [] && forall f <- frames :: Encodable(f)
    requires BrokenOff(EncodeAll(frames), left)
    ensures |left| > |EncodeAll(frames[1..])|
  {
    SizeInHeader(frames[0], EncodeAll(frames[1..]));
    assert |EncodeAll(frames)| == FrameSize(frames[0]) + |EncodeAll(frames[1..])|;
  }

  /** Frames that all announce another one are not yet the whole reply. */
  lemma StillWithinReply(e: Exchange, reply: seq<Bytes>, later: seq<Bytes>)
    requires IsReply(e.chunked, reply) && (!e.chunked ==> e.frames == [])
    requires |e.frames| <= |reply + later| && e.frames == (reply + later)[..|e.frames|]
    requires forall f <- e.frames :: Continues(f)
    ensures |e.frames| < |reply|
  {
    assert e.chunked ==> !Continues(reply[|reply| - 1]);
    assert forall k | 0 <= k < |e.frames| && k < |reply| :: e.frames[k] == reply[k] && Continues(e.frames[k]);
  }

  /** A frame with only announcing ones before it belongs to the next chunked reply. */
  lemma BelongsToReply(frames: seq<Bytes>, reply: seq<Bytes>, later: seq<Bytes>)
    requires IsGroup(reply) && frames != []
    requires |frames| <= |reply + later| && frames == (reply + later)[..|frames|]
    requires forall i | 0 <= i < |frames| - 1 :: Continues(frames[i])
    ensures WellTagged(frames[|frames| - 1])
  {
    assert !Continues(reply[|reply| - 1]);
    assert forall k | 0 <= k < |frames| && k < |reply| :: frames[k] == reply[k];
    assert frames[|frames| - 1] in reply;
  }

  /** The frames of the replies to the requests still to come. */
  ghost function NextFrames(link: Link, replies: seq<seq<Bytes>>): (frames: seq<Bytes>)
    requires AllEncodable(replies)
    ensures forall f <- frames :: Encodable(f)
  {
    if link.requests <= |replies| then
      FlattenEncodable(replies[link.requests..]);
      Flatten(replies[link.requests..])
    else []
  }

  lemma BrokenOffOwes(a: Link, b: Link, e: Exchange, replies: seq<seq<Bytes>>)
    requires AllEncodable(replies) && AtOwnReply(a, replies)
    requires a.requests < |replies| && Fits(a, e, replies)
    requires BrokeOffInReply(a.unread, b.unread, e) && b.requests == a.requests + 1
    ensures |b.unread| > |EncodeAll(NextFrames(b, replies))| && e.frames != replies[a.requests]
  {
    NextReplyFirst(a, replies);
    var reply, later := replies[a.requests], Flatten(replies[a.requests + 1..]);
    var all, k := reply + later, |e.frames|;
    var middle :| Collected(a.unread, e.frames, middle) && BrokenOff(middle, b.unread);
    FramedPrefix(e.frames, middle, all);
    StillWithinReply(e, reply, later);
    BreaksOffWithinFrame(all[k..], b.unread);
    assert all[k..][1..] == all[k + 1..];
    assert all[k + 1..][|reply| - k - 1..] == later;
    TailOfFrames(all[k + 1..], |reply| - k - 1);
  }

  lemma NeverUntagged(a: Link, b: Link, e: Exchange, replies: seq<seq<Bytes>>)
    requires AllEncodable(replies) && AtOwnReply(a, replies)
    requires a.requests < |replies| && Fits(a, e, replies)
    ensures !TookUntagged(a.unread, b.unread, e)
  {
    if e.chunked && e.frames != [] && (forall f <- e.frames :: Encodable(f))
       && (forall i | 0 <= i < |e.frames| - 1 :: Continues(e.frames[i]))
       && a.unread == EncodeAll(e.frames) + b.unread {
      NextReplyFirst(a, replies);
      var reply, later := replies[a.requests], Flatten(replies[a.requests + 1..]);
      FramedPrefix(e.frames, b.unread, reply + later);
      BelongsToReply(e.frames, reply, later);
    }
  }

  /**
   * After any call on an idle socket in step with its server, the next reader
   * starts at its own reply exactly when the flag is down, or when it is up
   * because the server refused a chunked request and the refusal was read.
   */
  lemma NextStartsAtOwnReplyIff(a: Link, b: Link, e: Exchange, replies: seq<seq<Bytes>>)
    requires AllEncodable(replies) && InStep(a, replies)
    requires a.requests < |replies| && Fits(a, e, replies)
    requires Exchanged(a, b, e)
    ensures AtOwnReply(b, replies) <==> !b.inFlight || (e.chunked && e.frames == replies[a.requests])
    ensures !AtOwnReply(b, replies) ==> |b.unread| > |EncodeAll(NextFrames(b, replies))|
  {
    assert Unfold(0);
    if b.inFlight {
      NeverUntagged(a, b, e, replies);
      if TookReply(a.unread, b.unread, e) {
        TookNextReply(a, b, e, replies);
      } else {
        BrokenOffOwes(a, b, e, replies);
      }
    } else if e.result.Ok? {
      TakesNextReply(a, b, e, replies);
    }
  }

  /**
   * The pool hands a connection out again whatever the flag says. When nothing
   * of the last reply had arrived by then, the next call gets its own reply
   * exactly if the flag was down, and otherwise the late one. That call takes
   * the flag down although a reply is still owed.
   */
  lemma LateReplyGoesToNextCall(a: Link, b: Link, c: Link, first: Exchange, second: Exchange,
                                replies: seq<seq<Bytes>>)
    requires AllEncodable(replies) && InStep(a, replies) && a.requests < |replies| && b.requests < |replies|
    requires !first.chunked && !second.chunked && Fits(a, first, replies) && Fits(b, second, replies)
    requires Exchanged(a, b, first) && (b.inFlight ==> b.unread == a.unread)
    requires Exchanged(b, c, second) && second.result.Ok?
    requires b.inFlight ==> replies[b.requests - 1] != replies[b.requests]
    ensures second.result == Ok(replies[b.requests][0]) <==> !b.inFlight
    ensures b.inFlight ==> second.result == Ok(replies[b.requests - 1][0])
    ensures b.inFlight ==> !c.inFlight && !AtOwnReply(c, replies)
  {
    NextStartsAtOwnReplyIff(a, b, first, replies);
    assert Unfold(0);
    if b.inFlight {
      var late := Link(a.requests, a.unread, true);
      var next := Link(a.requests + 1, c.unread, false);
      TookNextReply(late, next, second, replies);
      NextReplyFirst(next, replies);
      assert replies[b.requests] == [replies[b.requests][0]];
      assert replies[a.requests] == [replies[a.requests][0]];
      TailOfFrames(Flatten(replies[b.requests..]), 1);
      assert Flatten(replies[b.requests..])[1..] == Flatten(replies[b.requests + 1..]);
    } else {
      TakesNextReply(b, c, second, replies);
    }
  }

  // ---------- what a caller may expect ----------

  /** An idle link on which the next reply, if it arrives whole, and the link after it are among these. */
  ghost predicate Expects(link: Link, chunked: bool, outcomes: iset<(Result<Bytes>, Link)>) {
    && !link.inFlight
    && forall b, e | Exchanged(link, b, e) && e.chunked == chunked && e.result.Ok? :: (e.result, b) in outcomes
  }

  /** Whichever server is dialled, its reply after the greeting and the link then are among these. */
  ghost predicate ServersAnswer(script: seq<Choice>, chunked: bool, outcomes: iset<(Result<Bytes>, Link)>) {
    forall link | Greeted(script, link) :: Expects(link, chunked, outcomes)
  }

  /** The reply to request number `k`, and a link still in step after it. */
  ghost function OwnReply(chunked: bool, replies: seq<seq<Bytes>>, k: nat): iset<(Result<Bytes>, Link)>
    requires AllEncodable(replies) && k < |replies| && IsReply(chunked, replies[k])
  {
    iset o: (Result<Bytes>, Link) |
      o.0 == ReplyValue(chunked, replies[k]) && InStep(o.1, replies) && o.1.requests == k + 1
  }

  /** A server in step gives its next reply, and nothing else, to the next call, and stays in step. */
  lemma InStepExpects(link: Link, chunked: bool, replies: seq<seq<Bytes>>)
    requires AllEncodable(replies) && InStep(link, replies)
    requires link.requests < |replies| && IsReply(chunked, replies[link.requests])
    ensures Expects(link, chunked, OwnReply(chunked, replies, link.requests))
  {
    forall b, e | Exchanged(link, b, e) && e.chunked == chunked && e.result.Ok?
      ensures (e.result, b) in OwnReply(chunked, replies, link.requests)
    {
      TakesNextReply(link, b, e, replies);
    }
  }

  /** A server that greets with one frame and then answers the first request. */
  ghost predicate GreetsThenAnswers(incoming: Bytes, chunked: bool, replies: seq<seq<Bytes>>,
                                    outcomes: iset<(Result<Bytes>, Link)>) {
    && AllEncodable(replies) && InStep(Link(0, incoming, false), replies)
    && |replies| >= 2 && IsReply(false, replies[0])
    && IsReply(chunked, replies[1]) && OwnReply(chunked, replies, 1) <= outcomes
  }

  lemma GreetedExpects(incoming: Bytes, greeting: Bytes, link: Link, chunked: bool, replies: seq<seq<Bytes>>,
                       outcomes: iset<(Result<Bytes>, Link)>)
    requires GreetsThenAnswers(incoming, chunked, replies, outcomes)
    requires Exchanged(Link(0, incoming, false), link, Exchange(false, [greeting], Ok(greeting)))
    ensures Expects(link, chunked, outcomes)
  {
    TakesNextReply(Link(0, incoming, false), link, Exchange(false, [greeting], Ok(greeting)), replies);
    InStepExpects(link, chunked, replies);
  }

  /** Servers that answer in order, each on its own socket, answer the command that follows the greeting. */
  lemma ServersInStepAnswer(script: seq<Choice>, chunked: bool, replies: nat -> seq<seq<Bytes>>,
                            outcomes: iset<(Result<Bytes>, Link)>)
    requires forall i: nat | i < |script| :: GreetsThenAnswers(script[i].incoming, chunked, replies(i), outcomes)
    ensures ServersAnswer(script, chunked, outcomes)
  {
    forall link | Greeted(script, link)
      ensures Expects(link, chunked, outcomes)
    {
      assert UnfoldOn(Links, 0);
      var i: nat, maxSize: nat :| GreetedAt(script, i, link, maxSize);
      var greeting :| AnsweredOn(Link(0, script[i].incoming, false), link, greeting);
      GreetedExpects(script[i].incoming, greeting, link, chunked, replies(i), outcomes);
    }
  }
}
