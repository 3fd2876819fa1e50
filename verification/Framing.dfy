/** Length-prefixed frames: a four-byte big-endian size, then that many bytes. */
module Framing {
  import opened Core

  const HEADER_SIZE: nat := 4
  const SIZE_LIMIT: nat := 0x1_0000_0000
  const MESSAGE_SIZE_EXCEEDS_MAXIMUM: nat := 1004

  predicate Encodable(payload: Bytes) {
    |payload| < SIZE_LIMIT
  }

  /** Python's `to_bytes(width, "big")`. */
  function BigEndian(n: nat, width: nat): (digits: Bytes)
    ensures |digits| == width
  {
    if width == 0 then [] else BigEndian(n / 256, width - 1) + [n % 256]
  }

  /** Python's `from_bytes(digits, "big")`. */
  function FromBigEndian(digits: Bytes): nat {
    if digits == [] then 0 else FromBigEndian(digits[..|digits| - 1]) * 256 + digits[|digits| - 1]
  }

  function EncodeSize(n: nat): (header: Bytes)
    requires n < SIZE_LIMIT
    ensures |header| == HEADER_SIZE
  {
    BigEndian(n, HEADER_SIZE)
  }

  function FrameSize(payload: Bytes): nat {
    HEADER_SIZE + |payload|
  }

  function EncodeFrame(payload: Bytes): (frame: Bytes)
    requires Encodable(payload)
    ensures |frame| == FrameSize(payload)
  {
    EncodeSize(|payload|) + payload
  }

  function DecodeFrameSize(header: Bytes, maxSize: nat): Result<nat> {
    if |header| != HEADER_SIZE then Err(Corrupted)
    else
      var size := FromBigEndian(header);
      if size > maxSize then Err(Corrupted) else Ok(size)
  }

  function CheckRequestSize(payload: Bytes, maxSize: nat): Result<()> {
    if |payload| > maxSize then Err(Protocol(MESSAGE_SIZE_EXCEEDS_MAXIMUM)) else Ok(())
  }

  function Pow256(k: nat): nat {
    if k == 0 then 1 else 256 * Pow256(k - 1)
  }

  lemma {:induction false} BigEndianRoundTrip(n: nat, width: nat)
    requires n < Pow256(width)
    ensures FromBigEndian(BigEndian(n, width)) == n
  {
    if width > 0 {
      BigEndianRoundTrip(n / 256, width - 1);
      assert BigEndian(n, width)[..width - 1] == BigEndian(n / 256, width - 1);
    }
  }

  lemma {:induction false} FromBigEndianRoundTrip(digits: Bytes)
    ensures FromBigEndian(digits) < Pow256(|digits|)
    ensures BigEndian(FromBigEndian(digits), |digits|) == digits
  {
    if digits != [] {
      var init := digits[..|digits| - 1];
      FromBigEndianRoundTrip(init);
      assert FromBigEndian(digits) / 256 == FromBigEndian(init);
      assert digits == init + [digits[|digits| - 1]];
    }
  }

  lemma HeaderHolds32Bits()
    ensures Pow256(HEADER_SIZE) == SIZE_LIMIT
  {
    assert Pow256(2) == 0x1_0000;
  }

  /** A size survives its header exactly when it respects the negotiated limit. */
  lemma SizeRoundTrip(n: nat, maxSize: nat)
    requires n < SIZE_LIMIT
    ensures DecodeFrameSize(EncodeSize(n), maxSize) == if n <= maxSize then Ok(n) else Err(Corrupted)
  {
    HeaderHolds32Bits();
    BigEndianRoundTrip(n, HEADER_SIZE);
  }

  /** Every accepted header is the header of the size read from it. */
  lemma HeaderIsEncodedSize(header: Bytes, maxSize: nat)
    requires DecodeFrameSize(header, maxSize).Ok?
    ensures var size := DecodeFrameSize(header, maxSize).value;
            size <= maxSize && size < SIZE_LIMIT && header == EncodeSize(size)
  {
    HeaderHolds32Bits();
    FromBigEndianRoundTrip(header);
  }

  lemma LastByte(digits: Bytes, last: byte)
    ensures FromBigEndian(digits + [last]) == FromBigEndian(digits) * 0x100 + last
  {
    assert (digits + [last])[..|digits|] == digits;
  }

  /** A header is the size in four bytes, the highest first; any other number of bytes is no header. */
  lemma HeaderIsBigEndian(header: Bytes, maxSize: nat)
    ensures |header| != 4 ==> DecodeFrameSize(header, maxSize) == Err(Corrupted)
    ensures |header| == 4 ==>
      var size := header[0] as int * 0x100_0000 + header[1] as int * 0x1_0000 + header[2] as int * 0x100 + header[3];
      && size < SIZE_LIMIT && EncodeSize(size) == header
      && DecodeFrameSize(header, maxSize) == if size <= maxSize then Ok(size) else Err(Corrupted)
  {
    if |header| == 4 {
      var a, b, c, d := header[0], header[1], header[2], header[3];
      assert header == [] + [a] + [b] + [c] + [d];
      LastByte([], a);
      LastByte([] + [a], b);
      LastByte([] + [a] + [b], c);
      LastByte([] + [a] + [b] + [c], d);
      HeaderHolds32Bits();
      FromBigEndianRoundTrip(header);
    }
  }

  /** What a reader that keeps asking for frames gets out of a byte stream. */
  datatype Reading = Reading(frames: seq<Bytes>, ending: Error)

  function Prepend(frames: seq<Bytes>, rest: Reading): Reading {
    Reading(frames + rest.frames, rest.ending)
  }

  function ReadStream(stream: Bytes, maxSize: nat): Reading
    decreases |stream|
  {
    if |stream| < HEADER_SIZE then Reading([], ConnectionLost)
    else
      match DecodeFrameSize(stream[..HEADER_SIZE], maxSize)
      case Err(e) => Reading([], e)
      case Ok(size) =>
        if |stream| < HEADER_SIZE + size then Reading([], ConnectionLost)
        else Prepend([stream[HEADER_SIZE..HEADER_SIZE + size]], ReadStream(stream[HEADER_SIZE + size..], maxSize))
  }

  /** All payloads are short enough for the size header and for the limit. */
  predicate Sendable(payloads: seq<Bytes>, maxSize: nat) {
    forall p <- payloads :: Encodable(p) && |p| <= maxSize
  }

  function EncodeAll(payloads: seq<Bytes>): Bytes
    requires forall p <- payloads :: Encodable(p)
  {
    if payloads == [] then [] else EncodeFrame(payloads[0]) + EncodeAll(payloads[1..])
  }

  lemma ReadOneFrame(payload: Bytes, rest: Bytes, maxSize: nat)
    requires Encodable(payload) && |payload| <= maxSize
    ensures ReadStream(EncodeFrame(payload) + rest, maxSize) == Prepend([payload], ReadStream(rest, maxSize))
  {
    var stream := EncodeFrame(payload) + rest;
    SizeRoundTrip(|payload|, maxSize);
    assert stream[..HEADER_SIZE] == EncodeSize(|payload|);
    assert stream[HEADER_SIZE..HEADER_SIZE + |payload|] == payload;
    assert stream[HEADER_SIZE + |payload|..] == rest;
  }

  /** A frame cut anywhere before its last byte decodes to nothing. */
  lemma ReadCutFrame(payload: Bytes, cut: nat, maxSize: nat)
    requires Encodable(payload) && |payload| <= maxSize && cut < |EncodeFrame(payload)|
    ensures ReadStream(EncodeFrame(payload)[..cut], maxSize) == Reading([], ConnectionLost)
  {
    var stream := EncodeFrame(payload)[..cut];
    if cut >= HEADER_SIZE {
      SizeRoundTrip(|payload|, maxSize);
      assert stream[..HEADER_SIZE] == EncodeSize(|payload|);
    }
  }

  /** The number of frames that lie entirely within the first `cut` bytes. */
  function WholeFrames(payloads: seq<Bytes>, cut: nat): (k: nat)
    requires forall p <- payloads :: Encodable(p)
    requires cut <= |EncodeAll(payloads)|
    ensures k <= |payloads|
    ensures |EncodeAll(payloads[..k])| <= cut
    ensures k < |payloads| ==> cut < |EncodeAll(payloads[..k + 1])|
  {
    if payloads == [] || cut < |EncodeFrame(payloads[0])| then 0
    else
      var k := WholeFrames(payloads[1..], cut - |EncodeFrame(payloads[0])|);
      assert payloads[..k + 1][1..] == payloads[1..][..k];
      assert k < |payloads| - 1 ==> payloads[..k + 2][1..] == payloads[1..][..k + 1];
      k + 1
  }

  lemma ReadOneMore(payloads: seq<Bytes>, cut: nat, maxSize: nat, k: nat)
    requires Sendable(payloads, maxSize) && k < |payloads|
    requires |EncodeFrame(payloads[0])| <= cut <= |EncodeAll(payloads)|
    requires ReadStream(EncodeAll(payloads[1..])[..cut - |EncodeFrame(payloads[0])|], maxSize)
          == Reading(payloads[1..][..k], ConnectionLost)
    ensures ReadStream(EncodeAll(payloads)[..cut], maxSize) == Reading(payloads[..k + 1], ConnectionLost)
  {
    var first, others := EncodeFrame(payloads[0]), EncodeAll(payloads[1..]);
    assert EncodeAll(payloads)[..cut] == first + others[..cut - |first|];
    ReadOneFrame(payloads[0], others[..cut - |first|], maxSize);
    assert payloads[..k + 1] == [payloads[0]] + payloads[1..][..k];
  }

  /**
   * Reading undoes framing, wherever the stream is cut: the reader gets the
   * frames that arrived whole, in order, and then loses the connection.
   */
  lemma {:induction false} ReadingUndoesFraming(payloads: seq<Bytes>, cut: nat, maxSize: nat)
    requires Sendable(payloads, maxSize)
    requires cut <= |EncodeAll(payloads)|
    ensures ReadStream(EncodeAll(payloads)[..cut], maxSize)
         == Reading(payloads[..WholeFrames(payloads, cut)], ConnectionLost)
  {
    if payloads == [] {
    } else if cut < |EncodeFrame(payloads[0])| {
      assert EncodeAll(payloads)[..cut] == EncodeFrame(payloads[0])[..cut];
      ReadCutFrame(payloads[0], cut, maxSize);
    } else {
      var rest := cut - |EncodeFrame(payloads[0])|;
      ReadingUndoesFraming(payloads[1..], rest, maxSize);
      ReadOneMore(payloads, cut, maxSize, WholeFrames(payloads[1..], rest));
    }
  }

  lemma {:induction false} EncodeAllAppend(a: seq<Bytes>, b: seq<Bytes>)
    requires forall p <- a + b :: Encodable(p)
    requires forall p <- a :: Encodable(p)
    requires forall p <- b :: Encodable(p)
    ensures EncodeAll(a + b) == EncodeAll(a) + EncodeAll(b)
  {
    if a == [] {
      assert a + b == b;
    } else {
      assert (a + b)[1..] == a[1..] + b;
      EncodeAllAppend(a[1..], b);
    }
  }

  lemma FrameIsInjective(p: Bytes, q: Bytes, s: Bytes, t: Bytes)
    requires Encodable(p) && Encodable(q)
    requires EncodeFrame(p) + s == EncodeFrame(q) + t
    ensures p == q && s == t
  {
    ReadOneFrame(p, s, SIZE_LIMIT);
    ReadOneFrame(q, t, SIZE_LIMIT);
    assert (Prepend([p], ReadStream(s, SIZE_LIMIT))).frames[0] == p;
    assert (Prepend([q], ReadStream(t, SIZE_LIMIT))).frames[0] == q;
    assert s == (EncodeFrame(p) + s)[|EncodeFrame(p)|..];
    assert t == (EncodeFrame(q) + t)[|EncodeFrame(q)|..];
  }

  /** The first frame taken off a framed stream is its first payload. */
  lemma FramedHead(first: Bytes, rest: Bytes, payloads: seq<Bytes>)
    requires Encodable(first) && forall p <- payloads :: Encodable(p)
    requires EncodeFrame(first) + rest == EncodeAll(payloads)
    ensures payloads != [] && payloads[0] == first && rest == EncodeAll(payloads[1..])
  {
    assert payloads != [];
    FrameIsInjective(first, payloads[0], rest, EncodeAll(payloads[1..]));
  }

  /** Whole frames taken off a framed stream are the first payloads of it. */
  lemma {:induction false} FramedPrefix(taken: seq<Bytes>, left: Bytes, payloads: seq<Bytes>)
    requires forall p <- taken :: Encodable(p)
    requires forall p <- payloads :: Encodable(p)
    requires EncodeAll(taken) + left == EncodeAll(payloads)
    ensures |taken| <= |payloads| && taken == payloads[..|taken|]
    ensures left == EncodeAll(payloads[|taken|..])
  {
    if taken == [] {
      assert payloads[0..] == payloads;
    } else {
      var more := taken[1..];
      assert EncodeAll(taken) + left == EncodeFrame(taken[0]) + (EncodeAll(more) + left);
      FramedHead(taken[0], EncodeAll(more) + left, payloads);
      FramedPrefix(more, left, payloads[1..]);
      assert payloads[|taken|..] == payloads[1..][|more|..];
      assert taken == [taken[0]] + more == [payloads[0]] + payloads[1..][..|more|] == payloads[..|taken|];
    }
  }
}
