/** What the servers make of the bytes written: the log of writes against decoded frames. */
module Delivery {
  import opened Core
  import opened Framing
  import opened Transport

  ghost predicate WellFormedLog(log: seq<Write>, wires: nat) {
    forall i | 0 <= i < |log| :: WellFormed(log[i], wires)
  }

  /** The bytes that went out on one socket. */
  ghost function Sent(log: seq<Write>, wires: nat, wire: nat): Bytes
    requires WellFormedLog(log, wires)
  {
    if log == [] then []
    else
      var w := log[0];
      (if w.wire == wire then EncodeFrame(w.payload)[..w.sent] else []) + Sent(log[1..], wires, wire)
  }

  /** The payloads of the writes that completed on one socket. */
  ghost function Completed(log: seq<Write>, wire: nat): seq<Bytes> {
    if log == [] then []
    else (if log[0].wire == wire && Whole(log[0]) then [log[0].payload] else []) + Completed(log[1..], wire)
  }

  /** All writes on one socket are whole. */
  ghost predicate CleanOn(log: seq<Write>, wire: nat) {
    log == [] || ((Last(log).wire == wire ==> Whole(Last(log))) && CleanOn(log[..|log| - 1], wire))
  }

  /** Nothing is written on a socket after a write that broke off. */
  ghost predicate Disciplined(log: seq<Write>) {
    log == [] || (CleanOn(log[..|log| - 1], Last(log).wire) && Disciplined(log[..|log| - 1]))
  }

  lemma {:induction false} CleanOnMeans(log: seq<Write>, wire: nat)
    ensures CleanOn(log, wire) <==> forall i | 0 <= i < |log| && log[i].wire == wire :: Whole(log[i])
  {
    if log != [] {
      CleanOnMeans(log[..|log| - 1], wire);
    }
  }

  lemma {:induction false} DisciplinedMeans(log: seq<Write>)
    ensures Disciplined(log) <==> forall i, j | 0 <= i < j < |log| && log[i].wire == log[j].wire :: Whole(log[i])
  {
    if log != [] {
      var init := log[..|log| - 1];
      DisciplinedMeans(init);
      CleanOnMeans(init, Last(log).wire);
      assert forall i | 0 <= i < |init| :: init[i] == log[i];
    }
  }

  /** The same discipline, seen from the front of the log. */
  ghost predicate Orderly(log: seq<Write>) {
    forall i, j | 0 <= i < j < |log| && log[i].wire == log[j].wire :: Whole(log[i])
  }

  /** The frames a server finds in the bytes it received. */
  ghost function Received(log: seq<Write>, wires: nat, wire: nat): seq<Bytes>
    requires WellFormedLog(log, wires)
  {
    ReadStream(Sent(log, wires, wire), SIZE_LIMIT).frames
  }

  lemma {:induction false} NothingSent(log: seq<Write>, wires: nat, wire: nat)
    requires WellFormedLog(log, wires) && forall i | 0 <= i < |log| :: log[i].wire != wire
    ensures Sent(log, wires, wire) == [] && Completed(log, wire) == []
  {
    if log != [] {
      NothingSent(log[1..], wires, wire);
    }
  }

  lemma WholeFirst(log: seq<Write>, wires: nat, wire: nat)
    requires WellFormedLog(log, wires) && log != [] && log[0].wire == wire && Whole(log[0])
    requires Received(log[1..], wires, wire) == Completed(log[1..], wire)
    ensures Received(log, wires, wire) == Completed(log, wire)
  {
    var w, tail := log[0], Sent(log[1..], wires, wire);
    assert EncodeFrame(w.payload)[..w.sent] == EncodeFrame(w.payload);
    ReadOneFrame(w.payload, tail, SIZE_LIMIT);
  }

  lemma BrokenOffFirst(log: seq<Write>, wires: nat, wire: nat)
    requires WellFormedLog(log, wires) && log != [] && log[0].wire == wire && !Whole(log[0])
    requires forall i | 0 < i < |log| :: log[i].wire != wire
    ensures Received(log, wires, wire) == Completed(log, wire)
  {
    var w := log[0];
    assert WellFormed(w, wires);
    NothingSent(log[1..], wires, wire);
    ReadCutFrame(w.payload, w.sent, SIZE_LIMIT);
    assert EncodeFrame(w.payload)[..w.sent] + [] == EncodeFrame(w.payload)[..w.sent];
  }

  lemma ElsewhereFirst(log: seq<Write>, wires: nat, wire: nat)
    requires WellFormedLog(log, wires) && log != [] && log[0].wire != wire
    ensures Received(log, wires, wire) == Received(log[1..], wires, wire)
    ensures Completed(log, wire) == Completed(log[1..], wire)
  {
    assert [] + Sent(log[1..], wires, wire) == Sent(log[1..], wires, wire);
  }

  lemma {:induction false} DecodesCompleted(log: seq<Write>, wires: nat, wire: nat)
    requires WellFormedLog(log, wires) && Orderly(log)
    ensures Received(log, wires, wire) == Completed(log, wire)
  {
    if log != [] {
      if log[0].wire == wire && !Whole(log[0]) {
        BrokenOffFirst(log, wires, wire);
      } else {
        var rest := log[1..];
        assert forall i | 0 <= i < |rest| :: rest[i] == log[i + 1];
        DecodesCompleted(rest, wires, wire);
        if log[0].wire == wire {
          WholeFirst(log, wires, wire);
        } else {
          ElsewhereFirst(log, wires, wire);
        }
      }
    }
  }

  /** A server decodes exactly the writes that completed; partial copies decode to nothing. */
  lemma ReceivedIsCompleted(log: seq<Write>, wires: nat, wire: nat)
    requires WellFormedLog(log, wires) && Disciplined(log)
    ensures Received(log, wires, wire) == Completed(log, wire)
  {
    DisciplinedMeans(log);
    DecodesCompleted(log, wires, wire);
  }

  ghost function Count(payloads: seq<Bytes>, payload: Bytes): nat {
    if payloads == [] then 0 else (if payloads[0] == payload then 1 else 0) + Count(payloads[1..], payload)
  }

  /** How many times the servers behind the first `n` sockets received a payload. */
  ghost function Deliveries(log: seq<Write>, wires: nat, n: nat, payload: Bytes): nat
    requires WellFormedLog(log, wires)
  {
    if n == 0 then 0 else Deliveries(log, wires, n - 1, payload) + Count(Received(log, wires, n - 1), payload)
  }

  ghost function IsCopy(w: Write, payload: Bytes): nat {
    if Whole(w) && w.payload == payload then 1 else 0
  }

  /** How many times a payload was written whole. */
  ghost function Copies(log: seq<Write>, payload: Bytes): nat {
    if log == [] then 0 else Copies(log[..|log| - 1], payload) + IsCopy(log[|log| - 1], payload)
  }

  /** How often a write of this payload was begun. */
  ghost function Attempts(log: seq<Write>, payload: Bytes): nat {
    if log == [] then 0
    else Attempts(log[..|log| - 1], payload) + if log[|log| - 1].payload == payload then 1 else 0
  }

  lemma AttemptsGrow(before: seq<Write>, after: seq<Write>, wire: nat, p: Bytes, payload: Bytes)
    requires Attempted(before, after, wire, p)
    ensures Attempts(after, payload) == Attempts(before, payload) + if p == payload then 1 else 0
  {
    AttemptedMeans(before, after, wire, p);
  }

  lemma CopiesGrow(before: seq<Write>, after: seq<Write>, wire: nat, p: Bytes, payload: Bytes)
    requires Attempted(before, after, wire, p)
    ensures Copies(after, payload) == Copies(before, payload) + IsCopy(Last(after), payload)
    ensures Last(after).payload == p
  {
    AttemptedMeans(before, after, wire, p);
  }

  lemma {:induction false} CompletedAppend(log: seq<Write>, w: Write, wire: nat)
    ensures Completed(log + [w], wire)
         == Completed(log, wire) + if w.wire == wire && Whole(w) then [w.payload] else []
  {
    if log == [] {
      assert log + [w] == [w];
    } else {
      assert (log + [w])[1..] == log[1..] + [w];
      CompletedAppend(log[1..], w, wire);
    }
  }

  lemma {:induction false} CountAppend(a: seq<Bytes>, b: seq<Bytes>, payload: Bytes)
    ensures Count(a + b, payload) == Count(a, payload) + Count(b, payload)
  {
    if a == [] {
      assert a + b == b;
    } else {
      assert (a + b)[1..] == a[1..] + b;
      CountAppend(a[1..], b, payload);
    }
  }

  ghost function CompletedCopies(log: seq<Write>, n: nat, payload: Bytes): nat {
    if n == 0 then 0 else CompletedCopies(log, n - 1, payload) + Count(Completed(log, n - 1), payload)
  }

  lemma {:induction false} CompletedCopiesAppend(log: seq<Write>, w: Write, n: nat, payload: Bytes)
    ensures CompletedCopies(log + [w], n, payload)
         == CompletedCopies(log, n, payload) + if w.wire < n then IsCopy(w, payload) else 0
  {
    if n > 0 {
      CompletedCopiesAppend(log, w, n - 1, payload);
      CompletedAppend(log, w, n - 1);
      CountAppend(Completed(log, n - 1), if w.wire == n - 1 && Whole(w) then [w.payload] else [], payload);
      assert Count([w.payload], payload) == if w.payload == payload then 1 else 0;
    }
  }

  lemma {:induction false} NoCopies(n: nat, payload: Bytes)
    ensures CompletedCopies([], n, payload) == 0
  {
    if n > 0 {
      NoCopies(n - 1, payload);
    }
  }

  lemma {:induction false} CompletedCopiesAreCopies(log: seq<Write>, n: nat, payload: Bytes)
    requires WellFormedLog(log, n)
    ensures CompletedCopies(log, n, payload) == Copies(log, payload)
  {
    if log == [] {
      NoCopies(n, payload);
    } else {
      var init, w := log[..|log| - 1], log[|log| - 1];
      assert log == init + [w];
      assert WellFormed(w, n);
      CompletedCopiesAreCopies(init, n, payload);
      CompletedCopiesAppend(init, w, n, payload);
    }
  }

  lemma {:induction false} DeliveriesUpTo(log: seq<Write>, wires: nat, n: nat, payload: Bytes)
    requires WellFormedLog(log, wires) && n <= wires
    requires forall k | 0 <= k < wires :: Received(log, wires, k) == Completed(log, k)
    ensures Deliveries(log, wires, n, payload) == CompletedCopies(log, n, payload)
  {
    if n > 0 {
      DeliveriesUpTo(log, wires, n - 1, payload);
      assert Received(log, wires, n - 1) == Completed(log, n - 1);
    }
  }

  /** On disciplined sockets the servers receive a payload as often as it was written whole. */
  lemma DeliveriesAreCopies(log: seq<Write>, wires: nat, payload: Bytes)
    requires WellFormedLog(log, wires) && Disciplined(log)
    ensures Deliveries(log, wires, wires, payload) == Copies(log, payload)
  {
    forall k | 0 <= k < wires
      ensures Received(log, wires, k) == Completed(log, k)
    {
      ReceivedIsCompleted(log, wires, k);
    }
    DeliveriesUpTo(log, wires, wires, payload);
    CompletedCopiesAreCopies(log, wires, payload);
  }

  // ---------- after a request that broke off ----------

  predicate ZeroFree(payload: Bytes) {
    forall i | 0 <= i < |payload| :: payload[i] != 0
  }

  /** The four bytes of a header, written out. */
  lemma HeaderDigits(n: nat)
    requires n < 0x100_0000
    ensures EncodeSize(n) == [0, n / 0x1_0000, n / 0x100 % 0x100, n % 0x100]
  {
    assert BigEndian(n, 4) == BigEndian(n / 0x100, 3) + [n % 0x100];
    assert BigEndian(n / 0x100, 3) == BigEndian(n / 0x100 / 0x100, 2) + [n / 0x100 % 0x100];
    assert BigEndian(n / 0x100 / 0x100, 2) == BigEndian(n / 0x100 / 0x100 / 0x100, 1) + [n / 0x100 / 0x100 % 0x100];
    assert BigEndian(n / 0x100 / 0x100 / 0x100, 1) == [n / 0x100 / 0x100 / 0x100 % 0x100];
  }

  lemma DigitsValue(a: byte, b: byte, c: byte, d: byte)
    ensures FromBigEndian([a, b, c, d]) == ((a * 256 + b) * 256 + c) * 256 + d
  {
    var none: Bytes := [];
    assert [a][..0] == none && FromBigEndian([a]) == a;
    assert [a, b][..1] == [a] && FromBigEndian([a, b]) == a * 256 + b;
    assert [a, b, c][..2] == [a, b] && FromBigEndian([a, b, c]) == (a * 256 + b) * 256 + c;
    assert [a, b, c, d][..3] == [a, b, c];
  }

  lemma {:induction false} FramesFit(stream: Bytes, payload: Bytes)
    requires |stream| < HEADER_SIZE + |payload|
    ensures payload !in ReadStream(stream, SIZE_LIMIT).frames
    decreases |stream|
  {
    if |stream| >= HEADER_SIZE {
      var end := HEADER_SIZE + FromBigEndian(stream[..HEADER_SIZE]);
      if end <= |stream| {
        FramesFit(stream[end..], payload);
      }
    }
  }

  lemma UpperDigits(n: nat)
    ensures n / 0x100 == n / 0x1_0000 * 0x100 + n / 0x100 % 0x100
  {
    assert n / 0x1_0000 == n / 0x100 / 0x100;
  }

  /** The size a server reads where a request broke off after fewer bytes than a header has, and the next began. */
  lemma MixedHeader(x: nat, y: nat, s: nat)
    requires 0 < s < HEADER_SIZE && x < 0x100_0000 && y < 0x100_0000
    ensures FromBigEndian(EncodeSize(x)[..s] + EncodeSize(y)[..HEADER_SIZE - s])
         == match s
            case 1 => y / 0x100
            case 2 => x / 0x1_0000 * 0x1_0000 + y / 0x1_0000
            case 3 => x / 0x100 * 0x100
  {
    HeaderDigits(x);
    HeaderDigits(y);
    UpperDigits(x);
    UpperDigits(y);
    var a, b := EncodeSize(x), EncodeSize(y);
    match s {
      case 1 =>
        assert a[..1] + b[..3] == [a[0], b[0], b[1], b[2]];
        DigitsValue(a[0], b[0], b[1], b[2]);
      case 2 =>
        assert a[..2] + b[..2] == [a[0], a[1], b[0], b[1]];
        DigitsValue(a[0], a[1], b[0], b[1]);
      case 3 =>
        assert a[..3] + b[..1] == [a[0], a[1], a[2], b[0]];
        DigitsValue(a[0], a[1], a[2], b[0]);
    }
  }

  /** What a server receives where a request broke off after `s` bytes and the next was written whole. */
  function Mixed(x: Bytes, s: nat, y: Bytes): Bytes
    requires Encodable(x) && Encodable(y) && s <= FrameSize(x)
  {
    EncodeFrame(x)[..s] + EncodeFrame(y)
  }

  lemma BothBelow(y: nat, x: nat)
    requires y < 0x100_0000 && y == x * 0x1_0000 + y / 0x1_0000
    ensures y / 0x100 % 0x100 == 0
  {
    var q := y / 0x1_0000;
    assert q < 0x100 && y == x * 0x100 * 0x100 + q;
    assert y / 0x100 == x * 0x100;
  }

  /** The size the server reads there, and its first payload bytes while they are still header bytes of `y`. */
  lemma MixedStart(x: Bytes, s: nat, y: Bytes)
    requires |x| < 0x100_0000 && 0 < |y| < 0x100_0000 && 0 < s < FrameSize(x)
    ensures var stream := Mixed(x, s, y);
            var size := FromBigEndian(stream[..HEADER_SIZE]);
            && (s >= HEADER_SIZE ==> size == |x| && stream[s] == 0)
            && (s == 1 ==> size == |y| / 0x100)
            && (s == 2 ==> size == |x| / 0x1_0000 * 0x1_0000 + |y| / 0x1_0000 && stream[4] == |y| / 0x100 % 0x100)
            && (s == 3 ==> size == |x| / 0x100 * 0x100 && stream[6] == |y| % 0x100)
  {
    var stream := Mixed(x, s, y);
    HeaderDigits(|y|);
    if s >= HEADER_SIZE {
      assert stream[..HEADER_SIZE] == EncodeSize(|x|);
      HeaderHolds32Bits();
      BigEndianRoundTrip(|x|, HEADER_SIZE);
    } else {
      assert stream[..HEADER_SIZE] == EncodeSize(|x|)[..s] + EncodeSize(|y|)[..HEADER_SIZE - s];
      MixedHeader(|x|, |y|, s);
    }
  }

  lemma FirstIsAnother(x: Bytes, s: nat, y: Bytes)
    requires |x| < 0x100_0000 && 0 < |y| < 0x100_0000 && ZeroFree(y) && 0 < s < FrameSize(x)
    ensures var stream := Mixed(x, s, y);
            var size := FromBigEndian(stream[..HEADER_SIZE]);
            && size + HEADER_SIZE > s
            && (HEADER_SIZE + size <= |stream| ==> stream[HEADER_SIZE..HEADER_SIZE + size] != y)
  {
    var stream := Mixed(x, s, y);
    var size := FromBigEndian(stream[..HEADER_SIZE]);
    MixedStart(x, s, y);
    if HEADER_SIZE + size <= |stream| && size == |y| {
      var first := stream[HEADER_SIZE..HEADER_SIZE + size];
      assert forall i | 0 <= i < size :: first[i] == stream[HEADER_SIZE + i];
      if s >= HEADER_SIZE {
        assert first[s - HEADER_SIZE] == 0;
      } else if s == 2 {
        BothBelow(|y|, |x| / 0x1_0000);
        assert first[0] == 0;
      } else {
        assert first[2] == 0;
      }
    }
  }

  /** A request that follows a part of another one on the same socket does not reach the server. */
  lemma SwallowsNext(x: Bytes, s: nat, y: Bytes)
    requires |x| < 0x100_0000 && 0 < |y| < 0x100_0000 && ZeroFree(y) && 0 < s < FrameSize(x)
    ensures y !in ReadStream(Mixed(x, s, y), SIZE_LIMIT).frames
  {
    var stream := Mixed(x, s, y);
    var end := HEADER_SIZE + FromBigEndian(stream[..HEADER_SIZE]);
    FirstIsAnother(x, s, y);
    if end <= |stream| {
      FramesFit(stream[end..], y);
    }
  }

  lemma PrependTwice(a: seq<Bytes>, b: seq<Bytes>, rest: Reading)
    ensures Prepend(a, Prepend(b, rest)) == Prepend(a + b, rest)
  {
    Reassociate(a, b, rest.frames);
  }

  lemma {:induction false} ReadMany(payloads: seq<Bytes>, rest: Bytes)
    requires forall p <- payloads :: Encodable(p)
    ensures ReadStream(EncodeAll(payloads) + rest, SIZE_LIMIT) == Prepend(payloads, ReadStream(rest, SIZE_LIMIT))
  {
    if payloads == [] {
      EmptyIsNeutral(rest);
      EmptyIsNeutral(ReadStream(rest, SIZE_LIMIT).frames);
    } else {
      var first, others := payloads[0], EncodeAll(payloads[1..]);
      ReadMany(payloads[1..], rest);
      Reassociate(EncodeFrame(first), others, rest);
      ReadOneFrame(first, others + rest, SIZE_LIMIT);
      PrependTwice([first], payloads[1..], ReadStream(rest, SIZE_LIMIT));
      assert [first] + payloads[1..] == payloads;
    }
  }

  lemma {:induction false} CompletedEncodable(log: seq<Write>, wire: nat)
    ensures forall p <- Completed(log, wire) :: Encodable(p)
  {
    if log != [] {
      CompletedEncodable(log[1..], wire);
    }
  }

  lemma {:induction false} SentClean(log: seq<Write>, more: seq<Write>, wires: nat, wire: nat)
    requires WellFormedLog(log, wires) && WellFormedLog(more, wires) && WellFormedLog(log + more, wires)
    requires forall i | 0 <= i < |log| && log[i].wire == wire :: Whole(log[i])
    requires forall p <- Completed(log, wire) :: Encodable(p)
    ensures Sent(log + more, wires, wire) == EncodeAll(Completed(log, wire)) + Sent(more, wires, wire)
  {
    if log == [] {
      EmptyIsNeutral(more);
      EmptyIsNeutral(Sent(more, wires, wire));
    } else {
      var w, rest := log[0], log[1..];
      assert (log + more)[1..] == rest + more;
      CompletedEncodable(rest, wire);
      SentClean(rest, more, wires, wire);
      if w.wire == wire {
        assert EncodeFrame(w.payload)[..w.sent] == EncodeFrame(w.payload);
        assert ([w.payload] + Completed(rest, wire))[1..] == Completed(rest, wire);
        Reassociate(EncodeFrame(w.payload), EncodeAll(Completed(rest, wire)), Sent(more, wires, wire));
      } else {
        EmptyIsNeutral(Sent(rest + more, wires, wire));
        EmptyIsNeutral(Completed(rest, wire));
      }
    }
  }

  lemma {:induction false} CountNone(payloads: seq<Bytes>, payload: Bytes)
    ensures Count(payloads, payload) == 0 <==> payload !in payloads
  {
    if payloads != [] {
      CountNone(payloads[1..], payload);
      assert payloads == [payloads[0]] + payloads[1..];
    }
  }

  lemma MixedFrames(x: Bytes, s: nat, y: Bytes)
    requires Encodable(x) && Encodable(y) && (s == 0 || s == FrameSize(x))
    ensures ReadStream(Mixed(x, s, y), SIZE_LIMIT).frames == if s == 0 then [y] else [x, y]
  {
    var none: Bytes := [];
    EmptyIsNeutral(EncodeFrame(y));
    ReadOneFrame(y, none, SIZE_LIMIT);
    assert ReadStream(none, SIZE_LIMIT) == Reading([], ConnectionLost);
    if s == 0 {
      assert EncodeFrame(x)[..0] == none;
    } else {
      assert EncodeFrame(x)[..s] == EncodeFrame(x);
      ReadOneFrame(x, EncodeFrame(y), SIZE_LIMIT);
    }
  }

  /** The second of two requests on one socket reaches the server exactly if all or nothing of the first one left. */
  lemma NextArrivesIff(x: Bytes, s: nat, y: Bytes)
    requires |x| < 0x100_0000 && 0 < |y| < 0x100_0000 && ZeroFree(y) && s <= FrameSize(x)
    ensures y in ReadStream(Mixed(x, s, y), SIZE_LIMIT).frames <==> s == 0 || s == FrameSize(x)
  {
    if s == 0 || s == FrameSize(x) {
      MixedFrames(x, s, y);
    } else {
      SwallowsNext(x, s, y);
    }
  }

  lemma SentTwo(x: Write, y: Write, wires: nat, wire: nat)
    requires WellFormed(x, wires) && WellFormed(y, wires) && x.wire == y.wire == wire && Whole(y)
    ensures Sent([x, y], wires, wire) == Mixed(x.payload, x.sent, y.payload)
  {
    assert [x, y][1..] == [y] && [y][1..] == [];
    assert EncodeFrame(y.payload)[..y.sent] == EncodeFrame(y.payload);
    EmptyIsNeutral(EncodeFrame(y.payload));
    assert Sent([y], wires, wire) == EncodeFrame(y.payload);
  }

  /** The same for a socket that has carried whole frames before: the server gets the request or not. */
  lemma NextRequestArrivesIff(before: seq<Write>, wires: nat, x: Write, y: Write)
    requires WellFormedLog(before, wires) && WellFormed(x, wires) && WellFormed(y, wires)
    requires CleanOn(before, x.wire) && y.wire == x.wire && Whole(y)
    requires |x.payload| < 0x100_0000 && 0 < |y.payload| < 0x100_0000 && ZeroFree(y.payload)
    ensures var wire, p := x.wire, y.payload;
            Count(Received(before + [x, y], wires, wire), p) > Count(Received(before, wires, wire), p)
            <==> x.sent == 0 || Whole(x)
  {
    var wire, mixed := x.wire, Mixed(x.payload, x.sent, y.payload);
    CleanOnMeans(before, wire);
    CompletedEncodable(before, wire);
    SentTwo(x, y, wires, wire);
    SentClean(before, [x, y], wires, wire);
    ReadMany(Completed(before, wire), mixed);
    EmptyIsNeutral(before);
    SentClean(before, [], wires, wire);
    ReadMany(Completed(before, wire), []);
    var more := ReadStream(mixed, SIZE_LIMIT).frames;
    CountAppend(Completed(before, wire), more, y.payload);
    CountNone(more, y.payload);
    NextArrivesIff(x.payload, x.sent, y.payload);
    EmptyIsNeutral(Completed(before, wire));
  }
}
