/** Assembly of a response that the server split across several frames. */
module Chunked {
  import opened Core
  import opened Text
  import opened Responses

  datatype Step = Step(result: Result<Option<Bytes>>, body: Bytes)

  /** What one frame does to an assembler that has collected `body`. */
  function FeedStep(body: Bytes, frame: Bytes): Step {
    match SplitResponse(frame)
    case Err(e) => Step(Err(e), body)
    case Ok(tagged) =>
      if tagged.tag == TAG_NXT then Step(Ok(None), body + tagged.data)
      else if tagged.tag == TAG_OK then Step(Ok(Some(Tag(TAG_OK, body + tagged.data))), [])
      else if tagged.tag == TAG_ERR then Step(Err(ParseError(tagged.data)), [])
      else Step(Err(Corrupted), body)
  }

  class ChunkAssembler {
    var body: Bytes

    constructor ()
      ensures body == []
    {
      body := [];
    }

    method Feed(frame: Bytes) returns (r: Result<Option<Bytes>>)
      modifies this
      ensures Step(r, body) == FeedStep(old(body), frame)
    {
      var split := SplitResponse(frame);
      if split.Err? {
        return Err(split.error);
      }
      var tag, data := split.value.tag, split.value.data;
      if tag == TAG_NXT {
        body := body + data;
        return Ok(None);
      }
      if tag == TAG_OK {
        body := body + data;
        var whole := body;
        body := [];
        return Ok(Some(Tag(TAG_OK, whole)));
      }
      if tag == TAG_ERR {
        body := [];
        return Err(ParseError(data));
      }
      return Err(Corrupted);
    }
  }

  /** The complete responses and exceptions an assembler produces, and what it still holds. */
  datatype Run = Run(outputs: seq<Result<Bytes>>, body: Bytes)

  function Emitted(result: Result<Option<Bytes>>): seq<Result<Bytes>> {
    match result
    case Err(e) => [Err(e)]
    case Ok(None) => []
    case Ok(Some(response)) => [Ok(response)]
  }

  function FeedAll(body: Bytes, frames: seq<Bytes>): Run
    decreases |frames|
  {
    if frames == [] then Run([], body)
    else
      var step := FeedStep(body, frames[0]);
      var rest := FeedAll(step.body, frames[1..]);
      Run(Emitted(step.result) + rest.outputs, rest.body)
  }

  predicate WellTagged(frame: Bytes) {
    var split := SplitResponse(frame);
    split.Ok? && split.value.tag in [TAG_OK, TAG_ERR, TAG_NXT]
  }

  predicate Continues(frame: Bytes) {
    var split := SplitResponse(frame);
    split.Ok? && split.value.tag == TAG_NXT
  }

  function Data(frame: Bytes): Bytes
    requires WellTagged(frame)
  {
    SplitResponse(frame).value.data
  }

  function ConcatData(frames: seq<Bytes>): Bytes
    requires forall f <- frames :: WellTagged(f)
  {
    if frames == [] then [] else Data(frames[0]) + ConcatData(frames[1..])
  }

  function FirstEnd(frames: seq<Bytes>): (e: nat)
    ensures e <= |frames|
    ensures forall i | 0 <= i < e :: Continues(frames[i])
    ensures e < |frames| ==> !Continues(frames[e])
  {
    if frames == [] || !Continues(frames[0]) then 0 else 1 + FirstEnd(frames[1..])
  }

  /** A reply spread over frames: every frame but the last announces another one. */
  predicate IsGroup(frames: seq<Bytes>) {
    && FirstEnd(frames) + 1 == |frames|
    && forall f <- frames :: WellTagged(f)
  }

  /** The meaning of a reply, read off all its frames at once. */
  function Answer(group: seq<Bytes>): Result<Bytes>
    requires IsGroup(group)
  {
    var last := group[|group| - 1];
    assert WellTagged(last);
    if SplitResponse(last).value.tag == TAG_OK then Ok(Tag(TAG_OK, ConcatData(group)))
    else Err(ParseError(Data(last)))
  }

  lemma {:induction false} CutAtFirstEnd(frames: seq<Bytes>)
    requires FirstEnd(frames) < |frames|
    ensures FirstEnd(frames[..FirstEnd(frames) + 1]) == FirstEnd(frames)
  {
    var e := FirstEnd(frames);
    if e > 0 {
      CutAtFirstEnd(frames[1..]);
      assert frames[..e + 1][1..] == frames[1..][..e];
    }
  }

  /** The stream cut at its terminators: the meaning of each reply, and the unfinished rest. */
  function Replies(frames: seq<Bytes>): Run
    requires forall f <- frames :: WellTagged(f)
    decreases |frames|
  {
    var e := FirstEnd(frames);
    if e == |frames| then Run([], ConcatData(frames))
    else
      CutAtFirstEnd(frames);
      var rest := Replies(frames[e + 1..]);
      Run([Answer(frames[..e + 1])] + rest.outputs, rest.body)
  }

  lemma {:induction false} ConcatDataAppend(a: seq<Bytes>, b: seq<Bytes>)
    requires forall f <- a :: WellTagged(f)
    requires forall f <- b :: WellTagged(f)
    requires forall f <- a + b :: WellTagged(f)
    ensures ConcatData(a + b) == ConcatData(a) + ConcatData(b)
  {
    if a == [] {
      assert a + b == b;
    } else {
      assert (a + b)[1..] == a[1..] + b;
      ConcatDataAppend(a[1..], b);
    }
  }

  lemma {:induction false} FeedContinuing(body: Bytes, more: seq<Bytes>, rest: seq<Bytes>)
    requires forall f <- more :: WellTagged(f) && Continues(f)
    ensures FeedAll(body, more + rest) == FeedAll(body + ConcatData(more), rest)
    decreases |more|
  {
    if more == [] {
      assert more + rest == rest && body + ConcatData(more) == body;
    } else {
      assert (more + rest)[1..] == more[1..] + rest;
      FeedContinuing(body + Data(more[0]), more[1..], rest);
      assert body + Data(more[0]) + ConcatData(more[1..]) == body + ConcatData(more);
    }
  }

  lemma FeedGroup(group: seq<Bytes>, rest: seq<Bytes>)
    requires IsGroup(group)
    ensures FeedAll([], group + rest)
         == var after := FeedAll([], rest); Run([Answer(group)] + after.outputs, after.body)
  {
    var more, last := group[..|group| - 1], group[|group| - 1];
    assert WellTagged(last) && !Continues(last);
    assert group == more + [last];
    assert group + rest == more + ([last] + rest);
    FeedContinuing([], more, [last] + rest);
    assert [] + ConcatData(more) == ConcatData(more);
    ConcatDataAppend(more, [last]);
    assert ConcatData([last]) == Data(last);
    assert ([last] + rest)[1..] == rest;
  }

  lemma {:induction false} FirstEndOfPrefix(a: seq<Bytes>, rest: seq<Bytes>)
    requires FirstEnd(a) < |a|
    ensures FirstEnd(a + rest) == FirstEnd(a)
  {
    assert (a + rest)[0] == a[0];
    if Continues(a[0]) {
      assert (a + rest)[1..] == a[1..] + rest;
      FirstEndOfPrefix(a[1..], rest);
    }
  }

  /** Feeding frames one by one amounts to cutting the stream at terminators and concatenating. */
  lemma {:induction false} FeedingMeansCutting(frames: seq<Bytes>)
    requires forall f <- frames :: WellTagged(f)
    ensures FeedAll([], frames) == Replies(frames)
    decreases |frames|
  {
    var e := FirstEnd(frames);
    if e == |frames| {
      assert frames == frames + [];
      FeedContinuing([], frames, []);
      assert [] + ConcatData(frames) == ConcatData(frames);
    } else {
      var group, rest := frames[..e + 1], frames[e + 1..];
      CutAtFirstEnd(frames);
      assert frames == group + rest;
      FeedGroup(group, rest);
      FeedingMeansCutting(rest);
    }
  }

  lemma {:induction false} FeedAppend(body: Bytes, a: seq<Bytes>, b: seq<Bytes>)
    ensures var before := FeedAll(body, a); var after := FeedAll(before.body, b);
            FeedAll(body, a + b) == Run(before.outputs + after.outputs, after.body)
    decreases |a|
  {
    if a == [] {
      assert a + b == b;
    } else {
      assert (a + b)[1..] == a[1..] + b;
      var step := FeedStep(body, a[0]);
      FeedAppend(step.body, a[1..], b);
      Reassociate(Emitted(step.result), FeedAll(step.body, a[1..]).outputs,
                  FeedAll(FeedAll(step.body, a[1..]).body, b).outputs);
    }
  }

  /** A frame without a known tag is refused, wherever it comes, and everything else goes on as if it had not come. */
  lemma RefusedFrameIsSkipped(body: Bytes, a: seq<Bytes>, bad: Bytes, b: seq<Bytes>)
    requires !WellTagged(bad)
    ensures var before := FeedAll(body, a); var after := FeedAll(before.body, b);
            && FeedAll(body, a + b) == Run(before.outputs + after.outputs, after.body)
            && FeedAll(body, a + [bad] + b) == Run(before.outputs + [Err(Corrupted)] + after.outputs, after.body)
  {
    FeedAppend(body, a, b);
    FeedAppend(body, a, [bad] + b);
    Reassociate(a, [bad], b);
    assert ([bad] + b)[1..] == b;
    var before := FeedAll(body, a);
    Reassociate(before.outputs, [Err(Corrupted)], FeedAll(before.body, b).outputs);
  }

  function Chunks(pieces: seq<Bytes>): seq<Bytes> {
    seq(|pieces|, i requires 0 <= i < |pieces| => Tag(TAG_NXT, pieces[i]))
  }

  function Concat(pieces: seq<Bytes>): Bytes {
    if pieces == [] then [] else pieces[0] + Concat(pieces[1..])
  }

  lemma {:induction false} ChunksCarryPieces(pieces: seq<Bytes>)
    ensures forall f <- Chunks(pieces) :: WellTagged(f) && Continues(f)
    ensures ConcatData(Chunks(pieces)) == Concat(pieces)
  {
    forall i | 0 <= i < |pieces|
      ensures SplitResponse(Tag(TAG_NXT, pieces[i])) == Ok(Tagged(TAG_NXT, pieces[i]))
    {
      SplitUndoesTag(TAG_NXT, pieces[i]);
    }
    if pieces != [] {
      ChunksCarryPieces(pieces[1..]);
      assert Chunks(pieces)[1..] == Chunks(pieces[1..]);
    }
  }

  /** A body cut into any pieces, delimiters included, comes back whole. */
  lemma ChunkRoundTrip(pieces: seq<Bytes>, last: Bytes)
    ensures var run := FeedAll([], Chunks(pieces) + [Tag(TAG_OK, last)]);
            && run.body == [] && |run.outputs| == 1 && run.outputs[0].Ok?
            && OkData(run.outputs[0].value) == Ok(Concat(pieces) + last)
  {
    ChunksCarryPieces(pieces);
    FeedContinuing([], Chunks(pieces), [Tag(TAG_OK, last)]);
    SplitUndoesTag(TAG_OK, last);
    OkDataUndoesTag(Concat(pieces) + last);
    assert [] + Concat(pieces) == Concat(pieces);
  }

  lemma {:induction false} GroupEndsHere(more: seq<Bytes>, last: Bytes)
    requires forall f <- more :: WellTagged(f) && Continues(f)
    requires WellTagged(last) && !Continues(last)
    ensures IsGroup(more + [last])
  {
    if more == [] {
      assert more + [last] == [last];
    } else {
      assert (more + [last])[1..] == more[1..] + [last];
      GroupEndsHere(more[1..], last);
    }
  }

  /** Two replies at the head of the same stream are the same reply. */
  lemma GroupsAgree(a: seq<Bytes>, b: seq<Bytes>, stream: seq<Bytes>)
    requires IsGroup(a) && IsGroup(b)
    requires |a| <= |stream| && a == stream[..|a|]
    requires |b| <= |stream| && b == stream[..|b|]
    ensures a == b
  {
    assert stream == a + stream[|a|..] == b + stream[|b|..];
    FirstEndOfPrefix(a, stream[|a|..]);
    FirstEndOfPrefix(b, stream[|b|..]);
  }
}
