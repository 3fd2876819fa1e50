/** Paging one scan over many shards through a composite cursor. */
module ScanWalk {
  import opened Core
  import opened Sharding
  import opened Responses

  /** The scan callback: shard index, shard cursor, number of keys still wanted. */
  type Scan = (nat, Bytes, int) -> Result<ScanResult>

  /** A shard's contents as a scan sees them: the keys left at a cursor, and how far from the end it is. */
  datatype Shard = Shard(keysFrom: Bytes -> seq<ScanKey>, rank: Bytes -> nat)

  /** One page keeps the shard's promise: nothing lost or repeated, and progress unless it is the last. */
  ghost predicate FaithfulPage(shard: Shard, cursor: Bytes, page: ScanResult) {
    if page.cursor == SCAN_CURSOR_INITIAL then shard.keysFrom(cursor) == page.keys
    else
      && page.cursor != []
      && shard.keysFrom(cursor) == page.keys + shard.keysFrom(page.cursor)
      && shard.rank(page.cursor) < shard.rank(cursor)
  }

  /** Pages may have any size, even none at all; a call may also fail. */
  ghost predicate Faithful(shards: seq<Shard>, scan: Scan) {
    forall i: nat, cursor: Bytes, wanted: int | i < |shards| && wanted > 0 ::
      var page := scan(i, cursor, wanted);
      page.Ok? ==> FaithfulPage(shards[i], cursor, page.value)
  }

  function WalkFrom(index: nat, cursor: Bytes, count: int, shardCount: nat, scan: Scan): Result<ScanResult>
    decreases shardCount - index
  {
    if index >= shardCount || count <= 0 then
      Ok(ScanResult(MakeShardCursor(index, SCAN_CURSOR_INITIAL, shardCount), []))
    else
      var page :- scan(index, cursor, count);
      if page.cursor != SCAN_CURSOR_INITIAL then
        Ok(ScanResult(MakeShardCursor(index, page.cursor, shardCount), page.keys))
      else
        var rest :- WalkFrom(index + 1, SCAN_CURSOR_INITIAL, count - |page.keys|, shardCount, scan);
        Ok(ScanResult(rest.cursor, page.keys + rest.keys))
  }

  function WalkResult(cursor: Bytes, count: int, shardCount: nat, scan: Scan): Result<ScanResult> {
    var start :- ParseShardCursor(cursor, shardCount);
    WalkFrom(start.index, start.cursor, count, shardCount, scan)
  }

  /** No page holds more keys than were wanted. */
  ghost predicate Modest(shardCount: nat, scan: Scan) {
    forall i: nat, cursor: Bytes, wanted: int | i < shardCount && wanted > 0 ::
      var page := scan(i, cursor, wanted);
      page.Ok? ==> |page.value.keys| <= wanted
  }

  /** A walk never hands out more keys than were asked for. */
  lemma {:induction false} WalkKeepsCount(index: nat, cursor: Bytes, count: int, shardCount: nat, scan: Scan)
    ensures var r := WalkFrom(index, cursor, count, shardCount, scan);
            r.Ok? && Modest(shardCount, scan) ==> |r.value.keys| <= if count > 0 then count else 0
    decreases shardCount - index
  {
    if index < shardCount && count > 0 && scan(index, cursor, count).Ok? {
      var page := scan(index, cursor, count).value;
      if page.cursor == SCAN_CURSOR_INITIAL {
        WalkKeepsCount(index + 1, SCAN_CURSOR_INITIAL, count - |page.keys|, shardCount, scan);
      }
    }
  }

  /** A shard asked for all that was still wanted ended its page at a cursor, of which the walk's own is made. */
  ghost predicate StoppedAtShard(r: ScanResult, count: int, shardCount: nat, scan: Scan) {
    exists i: nat, cursor: Bytes, wanted: int | i < shardCount && wanted > 0 ::
      var page := scan(i, cursor, wanted);
      && page.Ok? && page.value.cursor != SCAN_CURSOR_INITIAL
      && wanted == count - (|r.keys| - |page.value.keys|)
      && r.cursor == MakeShardCursor(i, page.value.cursor, shardCount)
  }

  /** Where a later shard stops the rest of a walk, it stops the whole of it. */
  lemma WalkStops(index: nat, cursor: Bytes, count: int, shardCount: nat, scan: Scan)
    requires index < shardCount && count > 0
    requires scan(index, cursor, count).Ok? && scan(index, cursor, count).value.cursor == SCAN_CURSOR_INITIAL
    ensures var page := scan(index, cursor, count).value;
            var wanted := count - |page.keys|;
            var rest := WalkFrom(index + 1, SCAN_CURSOR_INITIAL, wanted, shardCount, scan);
            rest.Ok? && StoppedAtShard(rest.value, wanted, shardCount, scan) ==>
              StoppedAtShard(WalkFrom(index, cursor, count, shardCount, scan).value, count, shardCount, scan)
  {
    var page := scan(index, cursor, count).value;
    var rest := WalkFrom(index + 1, SCAN_CURSOR_INITIAL, count - |page.keys|, shardCount, scan);
    if rest.Ok? && StoppedAtShard(rest.value, count - |page.keys|, shardCount, scan) {
      var i: nat, at: Bytes, wanted: int :|
        && i < shardCount && wanted > 0 && scan(i, at, wanted).Ok?
        && scan(i, at, wanted).value.cursor != SCAN_CURSOR_INITIAL
        && wanted == count - |page.keys| - (|rest.value.keys| - |scan(i, at, wanted).value.keys|)
        && rest.value.cursor == MakeShardCursor(i, scan(i, at, wanted).value.cursor, shardCount);
      var r := WalkFrom(index, cursor, count, shardCount, scan).value;
      assert |r.keys| == |page.keys| + |rest.value.keys|;
    }
  }

  /** A walk that comes back with fewer keys than asked for was stopped by a shard or is past the last one. */
  lemma {:induction false} WalkFallsShort(index: nat, cursor: Bytes, count: int, shardCount: nat, scan: Scan)
    ensures var r := WalkFrom(index, cursor, count, shardCount, scan);
            r.Ok? && |r.value.keys| < count ==>
              r.value.cursor == SCAN_CURSOR_INITIAL || StoppedAtShard(r.value, count, shardCount, scan)
    decreases shardCount - index
  {
    if index < shardCount && count > 0 && scan(index, cursor, count).Ok? {
      var page := scan(index, cursor, count).value;
      if page.cursor == SCAN_CURSOR_INITIAL {
        var wanted := count - |page.keys|;
        WalkFallsShort(index + 1, SCAN_CURSOR_INITIAL, wanted, shardCount, scan);
        WalkStops(index, cursor, count, shardCount, scan);
      } else {
        assert StoppedAtShard(WalkFrom(index, cursor, count, shardCount, scan).value, count, shardCount, scan);
      }
    }
  }

  function KeysIn(pages: seq<ScanResult>): seq<ScanKey> {
    if pages == [] then [] else pages[0].keys + KeysIn(pages[1..])
  }

  /** What the j-th shard of a walk is asked: its own cursor only at first, and never more than is still wanted. */
  ghost function Asked(index: nat, cursor: Bytes, count: int, scan: Scan, pages: seq<ScanResult>, j: nat)
    : Result<ScanResult>
    requires j <= |pages|
  {
    scan(index + j, if j == 0 then cursor else SCAN_CURSOR_INITIAL, count - |KeysIn(pages[..j])|)
  }

  /** One shard on a trail was asked for what was still wanted, after the one before had come to its end. */
  ghost predicate OnTrail(pages: seq<ScanResult>, j: nat, index: nat, cursor: Bytes, count: int, shardCount: nat,
                          scan: Scan)
    requires j < |pages|
  {
    && index + j < shardCount && |KeysIn(pages[..j])| < count
    && Asked(index, cursor, count, scan, pages, j) == Ok(pages[j])
    && (j > 0 ==> pages[j - 1].cursor == SCAN_CURSOR_INITIAL)
  }

  /** Shard after shard is asked while keys are wanted; all these have answered, and all but the last to their end. */
  ghost predicate IsTrail(pages: seq<ScanResult>, index: nat, cursor: Bytes, count: int, shardCount: nat, scan: Scan) {
    forall j | 0 <= j < |pages| :: OnTrail(pages, j, index, cursor, count, shardCount, scan)
  }

  /** The last shard asked has more keys. */
  ghost predicate HasMore(pages: seq<ScanResult>) {
    pages != [] && pages[|pages| - 1].cursor != SCAN_CURSOR_INITIAL
  }

  /** What the trail of a walk comes to: the failure of the next shard, or all the keys and where to go on. */
  ghost predicate EndsTrail(r: Result<ScanResult>, pages: seq<ScanResult>, index: nat, cursor: Bytes, count: int,
                            shardCount: nat, scan: Scan) {
    var next := index + |pages|;
    match r
    case Err(e) =>
      && next < shardCount && |KeysIn(pages)| < count && !HasMore(pages)
      && Asked(index, cursor, count, scan, pages, |pages|) == Err(e)
    case Ok(whole) =>
      && whole.keys == KeysIn(pages)
      && if HasMore(pages) then
           whole.cursor == MakeShardCursor(next - 1, pages[|pages| - 1].cursor, shardCount)
         else
           && whole.cursor == MakeShardCursor(next, SCAN_CURSOR_INITIAL, shardCount)
           && (next >= shardCount || |KeysIn(pages)| >= count)
  }

  lemma TrailGrows(page: ScanResult, rest: seq<ScanResult>, r: Result<ScanResult>, index: nat, cursor: Bytes,
                   count: int, shardCount: nat, scan: Scan)
    requires index < shardCount && count > 0 && scan(index, cursor, count) == Ok(page)
    requires page.cursor == SCAN_CURSOR_INITIAL
    requires IsTrail(rest, index + 1, SCAN_CURSOR_INITIAL, count - |page.keys|, shardCount, scan)
    requires EndsTrail(r, rest, index + 1, SCAN_CURSOR_INITIAL, count - |page.keys|, shardCount, scan)
    ensures IsTrail([page] + rest, index, cursor, count, shardCount, scan)
    ensures EndsTrail(if r.Err? then r else Ok(ScanResult(r.value.cursor, page.keys + r.value.keys)), [page] + rest,
                      index, cursor, count, shardCount, scan)
  {
    var pages := [page] + rest;
    forall j | 0 < j <= |pages|
      ensures |KeysIn(pages[..j])| == |page.keys| + |KeysIn(rest[..j - 1])|
    {
      assert pages[..j][1..] == rest[..j - 1];
    }
    assert pages[1..] == rest && pages[..|pages|] == pages && rest[..|rest|] == rest;
    forall j | 0 <= j < |pages|
      ensures OnTrail(pages, j, index, cursor, count, shardCount, scan)
    {
      if j > 0 {
        assert OnTrail(rest, j - 1, index + 1, SCAN_CURSOR_INITIAL, count - |page.keys|, shardCount, scan);
        assert rest[j - 1] == pages[j];
        assert j > 1 ==> rest[j - 2] == pages[j - 1];
      }
    }
  }

  /** Every walk follows a trail of pages, asks exactly the shards on it, and comes to what that comes to. */
  lemma {:induction false} WalkFollowsTrail(index: nat, cursor: Bytes, count: int, shardCount: nat, scan: Scan)
    returns (pages: seq<ScanResult>)
    ensures IsTrail(pages, index, cursor, count, shardCount, scan)
    ensures EndsTrail(WalkFrom(index, cursor, count, shardCount, scan), pages, index, cursor, count, shardCount, scan)
    decreases shardCount - index
  {
    pages := [];
    if index < shardCount && count > 0 && scan(index, cursor, count).Ok? {
      var page := scan(index, cursor, count).value;
      if page.cursor == SCAN_CURSOR_INITIAL {
        var rest := WalkFollowsTrail(index + 1, SCAN_CURSOR_INITIAL, count - |page.keys|, shardCount, scan);
        TrailGrows(page, rest, WalkFrom(index + 1, SCAN_CURSOR_INITIAL, count - |page.keys|, shardCount, scan), index,
                   cursor, count, shardCount, scan);
        pages := [page] + rest;
      } else {
        pages := [page];
        assert pages[1..] == [] && pages[..1] == pages;
        EmptyIsNeutral(page.keys);
      }
    }
  }

  method Walk(cursor: Bytes, count: int, shardCount: nat, scan: Scan) returns (r: Result<ScanResult>)
    ensures r == WalkResult(cursor, count, shardCount, scan)
    ensures r.Ok? && Modest(shardCount, scan) ==> |r.value.keys| <= if count > 0 then count else 0
    ensures r.Ok? && |r.value.keys| < count ==>
      r.value.cursor == SCAN_CURSOR_INITIAL || StoppedAtShard(r.value, count, shardCount, scan)
  {
    var start :- ParseShardCursor(cursor, shardCount);
    WalkKeepsCount(start.index, start.cursor, count, shardCount, scan);
    WalkFallsShort(start.index, start.cursor, count, shardCount, scan);
    var index, shardCursor := start.index, start.cursor;
    var keys: seq<ScanKey> := [];
    ghost var whole := WalkFrom(index, shardCursor, count, shardCount, scan);
    if whole.Ok? {
      EmptyIsNeutral(whole.value.keys);
    }
    while index < shardCount && |keys| < count
      invariant var rest := WalkFrom(index, shardCursor, count - |keys|, shardCount, scan);
        whole == if rest.Err? then rest else Ok(ScanResult(rest.value.cursor, keys + rest.value.keys))
      decreases shardCount - index
    {
      var page :- scan(index, shardCursor, count - |keys|);
      ghost var before := keys;
      keys := keys + page.keys;
      if page.cursor != SCAN_CURSOR_INITIAL {
        return Ok(ScanResult(MakeShardCursor(index, page.cursor, shardCount), keys));
      }
      ghost var rest := WalkFrom(index + 1, SCAN_CURSOR_INITIAL, count - |keys|, shardCount, scan);
      if rest.Ok? {
        Reassociate(before, page.keys, rest.value.keys);
      }
      index := index + 1;
      shardCursor := SCAN_CURSOR_INITIAL;
    }
    EmptyIsNeutral(keys);
    return Ok(ScanResult(MakeShardCursor(index, SCAN_CURSOR_INITIAL, shardCount), keys));
  }

  /** Everything a scan has still to deliver: the rest of one shard, then all later shards in full. */
  ghost function Left(shards: seq<Shard>, index: nat, cursor: Bytes): seq<ScanKey>
    decreases |shards| - index
  {
    if index >= |shards| then []
    else shards[index].keysFrom(cursor) + Left(shards, index + 1, SCAN_CURSOR_INITIAL)
  }

  ghost function FullScan(shards: seq<Shard>): seq<ScanKey> {
    Left(shards, 0, SCAN_CURSOR_INITIAL)
  }

  /** What a returned cursor promises; "0" means there is nothing more. */
  ghost function LeftAfter(shards: seq<Shard>, cursor: Bytes): seq<ScanKey> {
    if cursor == SCAN_CURSOR_INITIAL then []
    else
      match ParseShardCursor(cursor, |shards|)
      case Err(_) => []
      case Ok(at) => Left(shards, at.index, at.cursor)
  }

  /** A later shard, or the same shard nearer to its end. */
  ghost predicate Nearer(shards: seq<Shard>, at: ShardCursor, than: ShardCursor) {
    && at.index < |shards|
    && (at.index > than.index
        || (at.index == than.index && shards[at.index].rank(at.cursor) < shards[at.index].rank(than.cursor)))
  }

  /** A made cursor stands for the rest of its shard and all later ones. */
  lemma CursorStandsFor(shards: seq<Shard>, index: nat, cursor: Bytes)
    requires cursor != []
    ensures LeftAfter(shards, MakeShardCursor(index, cursor, |shards|)) == Left(shards, index, cursor)
    ensures var made := MakeShardCursor(index, cursor, |shards|);
            if index >= |shards| then made == SCAN_CURSOR_INITIAL
            else made != SCAN_CURSOR_INITIAL && ParseShardCursor(made, |shards|) == Ok(ShardCursor(index, cursor))
  {
    MadeCursorEndsTheWalk(index, cursor, |shards|);
    if index < |shards| {
      CursorRoundTrip(index, cursor, |shards|);
    }
  }

  /**
   * One walk with a positive count hands out a prefix of what is left, and its
   * cursor stands for exactly the rest and is nearer to the end.
   */
  lemma {:induction false} WalkSplitsTheScan(shards: seq<Shard>, index: nat, cursor: Bytes, count: int, scan: Scan)
    requires Faithful(shards, scan) && index < |shards| && count > 0
    requires WalkFrom(index, cursor, count, |shards|, scan).Ok?
    ensures var page := WalkFrom(index, cursor, count, |shards|, scan).value;
            && Left(shards, index, cursor) == page.keys + LeftAfter(shards, page.cursor)
            && (page.cursor != SCAN_CURSOR_INITIAL ==>
                  var next := ParseShardCursor(page.cursor, |shards|);
                  next.Ok? && Nearer(shards, next.value, ShardCursor(index, cursor)))
    decreases |shards| - index
  {
    var n := |shards|;
    var page := scan(index, cursor, count).value;
    assert FaithfulPage(shards[index], cursor, page);
    if page.cursor != SCAN_CURSOR_INITIAL {
      CursorStandsFor(shards, index, page.cursor);
      Reassociate(page.keys, shards[index].keysFrom(page.cursor), Left(shards, index + 1, SCAN_CURSOR_INITIAL));
    } else {
      var wanted := count - |page.keys|;
      if index + 1 < n && wanted > 0 {
        WalkSplitsTheScan(shards, index + 1, SCAN_CURSOR_INITIAL, wanted, scan);
        var rest := WalkFrom(index + 1, SCAN_CURSOR_INITIAL, wanted, n, scan).value;
        Reassociate(page.keys, rest.keys, LeftAfter(shards, rest.cursor));
      } else {
        CursorStandsFor(shards, index + 1, SCAN_CURSOR_INITIAL);
        EmptyIsNeutral(page.keys);
      }
    }
  }

  /** One call of the paging loop: how many keys it asks for and how the shards respond to it. */
  datatype Call = Call(count: int, scan: Scan)

  ghost predicate FaithfulCalls(shards: seq<Shard>, calls: nat -> Call) {
    forall k: nat :: calls(k).count > 0 && Faithful(shards, calls(k).scan)
  }

  /**
   * Feeding each returned cursor to the next call until "0" comes back. That
   * this recursion is accepted is the termination of the loop, for any
   * positive counts: each call starts later in (shard, rank of cursor).
   */
  ghost function Paged(shards: seq<Shard>, calls: nat -> Call, k: nat, at: ShardCursor): (r: Result<seq<ScanKey>>)
    requires FaithfulCalls(shards, calls) && at.index < |shards|
    ensures r.Ok? ==> r.value == Left(shards, at.index, at.cursor)
    decreases |shards| - at.index, shards[at.index].rank(at.cursor)
  {
    var call := calls(k);
    var result := WalkFrom(at.index, at.cursor, call.count, |shards|, call.scan);
    match result
    case Err(e) => Err(e)
    case Ok(page) =>
      WalkSplitsTheScan(shards, at.index, at.cursor, call.count, call.scan);
      if page.cursor == SCAN_CURSOR_INITIAL then
        EmptyIsNeutral(page.keys);
        Ok(page.keys)
      else
        match Paged(shards, calls, k + 1, ParseShardCursor(page.cursor, |shards|).value)
        case Err(e) => Err(e)
        case Ok(rest) => Ok(page.keys + rest)
  }

  ghost predicate NeverFails(scan: Scan) {
    forall i: nat, cursor: Bytes, wanted: int :: scan(i, cursor, wanted).Ok?
  }

  lemma {:induction false} WalkCompletes(index: nat, cursor: Bytes, count: int, shardCount: nat, scan: Scan)
    requires NeverFails(scan)
    ensures WalkFrom(index, cursor, count, shardCount, scan).Ok?
    decreases shardCount - index
  {
    if index < shardCount && count > 0 {
      var page := scan(index, cursor, count);
      assert page.Ok?;
      WalkCompletes(index + 1, SCAN_CURSOR_INITIAL, count - |page.value.keys|, shardCount, scan);
    }
  }

  /** Where the paging loop goes after one call, if the call succeeds and there is more to come. */
  ghost function Onward(shards: seq<Shard>, call: Call, at: ShardCursor): Result<Option<ShardCursor>> {
    var page :- WalkFrom(at.index, at.cursor, call.count, |shards|, call.scan);
    if page.cursor == SCAN_CURSOR_INITIAL then Ok(None)
    else
      var next :- ParseShardCursor(page.cursor, |shards|);
      Ok(Some(next))
  }

  lemma WalkAdvances(shards: seq<Shard>, at: ShardCursor, call: Call)
    requires Faithful(shards, call.scan) && NeverFails(call.scan) && at.index < |shards| && call.count > 0
    ensures Onward(shards, call, at).Ok?
    ensures var next := Onward(shards, call, at).value;
            next.Some? ==> Nearer(shards, next.value, at)
  {
    WalkCompletes(at.index, at.cursor, call.count, |shards|, call.scan);
    WalkSplitsTheScan(shards, at.index, at.cursor, call.count, call.scan);
  }

  lemma PagedGoesOn(shards: seq<Shard>, calls: nat -> Call, k: nat, at: ShardCursor)
    requires FaithfulCalls(shards, calls) && at.index < |shards| && Onward(shards, calls(k), at).Ok?
    requires var next := Onward(shards, calls(k), at).value;
             next.Some? ==> next.value.index < |shards| && Paged(shards, calls, k + 1, next.value).Ok?
    ensures Paged(shards, calls, k, at).Ok?
  {
  }

  lemma {:induction false} PagingCompletes(shards: seq<Shard>, calls: nat -> Call, k: nat, at: ShardCursor)
    requires FaithfulCalls(shards, calls) && at.index < |shards|
    requires forall k: nat :: NeverFails(calls(k).scan)
    ensures Paged(shards, calls, k, at).Ok?
    decreases |shards| - at.index, shards[at.index].rank(at.cursor)
  {
    WalkAdvances(shards, at, calls(k));
    var next := Onward(shards, calls(k), at).value;
    if next.Some? {
      PagingCompletes(shards, calls, k + 1, next.value);
    }
    PagedGoesOn(shards, calls, k, at);
  }

  /** Started at "0", the pages add up to every shard's full scan, in shard order. */
  lemma PagingIsOneScan(shards: seq<Shard>, calls: nat -> Call)
    requires FaithfulCalls(shards, calls) && shards != []
    requires forall k: nat :: NeverFails(calls(k).scan)
    ensures var start := ParseShardCursor(SCAN_CURSOR_INITIAL, |shards|).value;
            && start.index < |shards|
            && Paged(shards, calls, 0, start) == Ok(FullScan(shards))
  {
    PagingCompletes(shards, calls, 0, ShardCursor(0, SCAN_CURSOR_INITIAL));
  }

  /**
   * With a count of zero or less the walk asks no shard and forgets the shard
   * cursor. The scan then resumes correctly exactly when the cursor stood where
   * the start of its shard stands.
   */
  lemma NonPositiveCountRewinds(shards: seq<Shard>, index: nat, cursor: Bytes, count: int, scan: Scan)
    requires index < |shards| && count <= 0
    ensures var page := WalkFrom(index, cursor, count, |shards|, scan);
            && page == Ok(ScanResult(MakeShardCursor(index, SCAN_CURSOR_INITIAL, |shards|), []))
            && LeftAfter(shards, page.value.cursor) == Left(shards, index, SCAN_CURSOR_INITIAL)
            && (page.value.keys + LeftAfter(shards, page.value.cursor) == Left(shards, index, cursor) <==>
                shards[index].keysFrom(cursor) == shards[index].keysFrom(SCAN_CURSOR_INITIAL))
  {
    CursorStandsFor(shards, index, SCAN_CURSOR_INITIAL);
    var after := Left(shards, index + 1, SCAN_CURSOR_INITIAL);
    var full, rest := shards[index].keysFrom(SCAN_CURSOR_INITIAL), shards[index].keysFrom(cursor);
    EmptyIsNeutral(full + after);
    if full + after == rest + after {
      assert |full| == |rest|;
      assert full == (full + after)[..|full|] && rest == (rest + after)[..|rest|];
    }
  }

  /** A shard with two keys whose pages hold one key each; its cursor between them is "1". */
  const FIRST := ScanKey([97], 0)
  const SECOND := ScanKey([98], 0)
  const BETWEEN: Bytes := [49]

  function TwoKeys(cursor: Bytes): seq<ScanKey> {
    if cursor == SCAN_CURSOR_INITIAL then [FIRST, SECOND] else if cursor == BETWEEN then [SECOND] else []
  }

  function OneKeyPages(index: nat, cursor: Bytes, wanted: int): Result<ScanResult> {
    Ok(if cursor == SCAN_CURSOR_INITIAL then ScanResult(BETWEEN, [FIRST])
       else ScanResult(SCAN_CURSOR_INITIAL, TwoKeys(cursor)))
  }

  /** Asking for one key, then for none, then for the rest delivers the first key twice. */
  lemma AskingForNoneRepeats()
    ensures var shard := Shard(TwoKeys, cursor => if cursor == SCAN_CURSOR_INITIAL then 1 else 0);
            && Faithful([shard], OneKeyPages)
            && var one := WalkFrom(0, SCAN_CURSOR_INITIAL, 1, 1, OneKeyPages);
               && one == Ok(ScanResult(MakeShardCursor(0, BETWEEN, 1), [FIRST]))
               && ParseShardCursor(one.value.cursor, 1) == Ok(ShardCursor(0, BETWEEN))
               && var none := WalkFrom(0, BETWEEN, 0, 1, OneKeyPages);
                  && none.Ok? && none.value.keys == []
                  && LeftAfter([shard], none.value.cursor) == [FIRST, SECOND] == FullScan([shard])
                  && LeftAfter([shard], one.value.cursor) == [SECOND]
  {
    var shard := Shard(TwoKeys, cursor => if cursor == SCAN_CURSOR_INITIAL then 1 else 0);
    assert [FIRST, SECOND] == [FIRST] + [SECOND];
    CursorStandsFor([shard], 0, BETWEEN);
    CursorStandsFor([shard], 0, SCAN_CURSOR_INITIAL);
    EmptyIsNeutral([FIRST, SECOND]);
    EmptyIsNeutral([SECOND]);
    assert Left([shard], 1, SCAN_CURSOR_INITIAL) == [];
  }
}
