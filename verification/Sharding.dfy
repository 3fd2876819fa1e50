/** Routing of keys to shards and the composite scan cursor. */
module Sharding {
  import opened Core
  import opened Text

  const SCAN_CURSOR_INITIAL: Bytes := [48] // "0"
  const SHARD_CURSOR_SEPARATOR: byte := 58 // ":"

  datatype CappingKey = CappingKey(key: Bytes, capping: int)

  type ShardingFunc = (Bytes, nat) -> int

  function ResolveShard(key: Bytes, shardCount: nat, shardingFunc: ShardingFunc): Result<nat> {
    var index := shardingFunc(key, shardCount);
    if 0 <= index < shardCount then Ok(index) else Err(ShardIndex)
  }

  /** A key with its position in the caller's list. */
  datatype Indexed = Indexed(position: nat, key: CappingKey)

  /** The keys routed to one shard, in the caller's order. */
  function Share(keys: seq<CappingKey>, shardCount: nat, f: ShardingFunc, index: nat): seq<Indexed> {
    if keys == [] then []
    else
      var last := |keys| - 1;
      var share := Share(keys[..last], shardCount, f, index);
      if ResolveShard(keys[last].key, shardCount, f) == Ok(index) then share + [Indexed(last, keys[last])] else share
  }

  function KeysOf(share: seq<Indexed>): (keys: seq<CappingKey>)
    ensures |keys| == |share|
    ensures forall j | 0 <= j < |keys| :: keys[j] == share[j].key
  {
    seq(|share|, j requires 0 <= j < |share| => share[j].key)
  }

  /** The sharding function names an existing shard for every key. */
  ghost predicate Routable(keys: seq<CappingKey>, shardCount: nat, f: ShardingFunc) {
    forall i | 0 <= i < |keys| :: 0 <= f(keys[i].key, shardCount) < shardCount
  }

  /** A share lists exactly the positions its shard is responsible for, in increasing order. */
  ghost predicate IsShare(share: seq<Indexed>, keys: seq<CappingKey>, shardCount: nat, f: ShardingFunc, index: nat) {
    && (forall j | 0 <= j < |share| ::
          && share[j].position < |keys| && keys[share[j].position] == share[j].key
          && ResolveShard(share[j].key.key, shardCount, f) == Ok(index))
    && (forall i, j | 0 <= i < j < |share| :: share[i].position < share[j].position)
    && (forall p | 0 <= p < |keys| && ResolveShard(keys[p].key, shardCount, f) == Ok(index) ::
          Indexed(p, keys[p]) in share)
  }

  lemma {:induction false} ShareIsExact(keys: seq<CappingKey>, shardCount: nat, f: ShardingFunc, index: nat)
    ensures IsShare(Share(keys, shardCount, f, index), keys, shardCount, f, index)
  {
    if keys != [] {
      var last := |keys| - 1;
      ShareIsExact(keys[..last], shardCount, f, index);
      var share := Share(keys[..last], shardCount, f, index);
      forall p | 0 <= p < |keys| && ResolveShard(keys[p].key, shardCount, f) == Ok(index)
        ensures Indexed(p, keys[p]) in Share(keys, shardCount, f, index)
      {
        if p < last {
          assert keys[..last][p] == keys[p];
          assert Indexed(p, keys[p]) in share;
        }
      }
    }
  }

  /** The shards in the order in which the caller's keys first need them. */
  function ShardOrder(keys: seq<CappingKey>, shardCount: nat, f: ShardingFunc): seq<nat> {
    if keys == [] then []
    else
      var last := |keys| - 1;
      var order := ShardOrder(keys[..last], shardCount, f);
      match ResolveShard(keys[last].key, shardCount, f)
      case Ok(index) => if index in order then order else order + [index]
      case Err(_) => order
  }

  ghost predicate BeginsBefore(keys: seq<CappingKey>, shardCount: nat, f: ShardingFunc, i: nat, j: nat) {
    var share, later := Share(keys, shardCount, f, i), Share(keys, shardCount, f, j);
    share != [] && later != [] && share[0].position < later[0].position
  }

  /** Each of these shards has a share that begins before those of the later ones. */
  ghost predicate FirstCome(order: seq<nat>, keys: seq<CappingKey>, shardCount: nat, f: ShardingFunc) {
    forall a, b | 0 <= a < b < |order| ::
      order[a] != order[b] && BeginsBefore(keys, shardCount, f, order[a], order[b])
  }

  lemma ShareBeginsTheSame(keys: seq<CappingKey>, shardCount: nat, f: ShardingFunc, index: nat)
    requires keys != [] && Share(keys[..|keys| - 1], shardCount, f, index) != []
    ensures Share(keys, shardCount, f, index) != []
    ensures Share(keys, shardCount, f, index)[0] == Share(keys[..|keys| - 1], shardCount, f, index)[0]
    ensures Share(keys, shardCount, f, index)[0].position < |keys| - 1
  {
    ShareIsExact(keys[..|keys| - 1], shardCount, f, index);
  }

  /** Exactly the shards with a share are asked, once each, the one whose share begins first before the others. */
  lemma {:induction false} OrderIsFirstCome(keys: seq<CappingKey>, shardCount: nat, f: ShardingFunc)
    ensures forall i: nat :: i in ShardOrder(keys, shardCount, f) <==> Share(keys, shardCount, f, i) != []
    ensures FirstCome(ShardOrder(keys, shardCount, f), keys, shardCount, f)
  {
    if keys != [] {
      var last := |keys| - 1;
      var before := ShardOrder(keys[..last], shardCount, f);
      OrderIsFirstCome(keys[..last], shardCount, f);
      var order := ShardOrder(keys, shardCount, f);
      forall a, b | 0 <= a < b < |order|
        ensures order[a] != order[b] && BeginsBefore(keys, shardCount, f, order[a], order[b])
      {
        assert before[a] == order[a] && before[a] in before;
        ShareBeginsTheSame(keys, shardCount, f, order[a]);
        if b < |before| {
          assert before[b] == order[b] && before[b] in before;
          assert BeginsBefore(keys[..last], shardCount, f, before[a], before[b]);
          ShareBeginsTheSame(keys, shardCount, f, order[b]);
        }
      }
    }
  }

  /** A key repeats an earlier one in the caller's list exactly when it does so within its share. */
  lemma RepeatsWithinShare(share: seq<Indexed>, keys: seq<CappingKey>, shardCount: nat, f: ShardingFunc, index: nat,
                           p: nat) returns (j: nat)
    requires IsShare(share, keys, shardCount, f, index)
    requires p < |keys| && ResolveShard(keys[p].key, shardCount, f) == Ok(index)
    ensures j < |share| && share[j] == Indexed(p, keys[p])
    ensures keys[p] in keys[..p] <==> keys[p] in KeysOf(share)[..j]
  {
    assert Indexed(p, keys[p]) in share;
    j :| 0 <= j < |share| && share[j] == Indexed(p, keys[p]);
    var earlier := KeysOf(share)[..j];
    if keys[p] in keys[..p] {
      var q :| 0 <= q < p && keys[q] == keys[p];
      assert Indexed(q, keys[q]) in share;
      var h :| 0 <= h < |share| && share[h] == Indexed(q, keys[q]);
      assert h < j && earlier[h] == keys[p];
    }
    if keys[p] in earlier {
      var h :| 0 <= h < j && earlier[h] == keys[p];
      assert share[h].position < p && keys[..p][share[h].position] == keys[p];
    }
  }

  /** A shard is asked to delete a key exactly when the caller is. */
  lemma ShareCoversKey(share: seq<Indexed>, keys: seq<CappingKey>, shardCount: nat, f: ShardingFunc, index: nat,
                       k: CappingKey)
    requires IsShare(share, keys, shardCount, f, index)
    requires ResolveShard(k.key, shardCount, f) == Ok(index)
    ensures k in KeysOf(share) <==> k in keys
  {
    if k in keys {
      var p :| 0 <= p < |keys| && keys[p] == k;
      var j := RepeatsWithinShare(share, keys, shardCount, f, index, p);
      assert KeysOf(share)[j] == k;
    }
    if k in KeysOf(share) {
      var j :| 0 <= j < |share| && KeysOf(share)[j] == k;
      assert keys[share[j].position] == k;
    }
  }

  /** Python's insertion-ordered dictionary of lists. */
  datatype Grouped = Grouped(order: seq<nat>, lists: map<nat, seq<Indexed>>) {
    ghost predicate Valid() {
      && (forall i <- order :: i in lists)
      && (forall i <- lists.Keys :: i in order)
      && forall a, b | 0 <= a < b < |order| :: order[a] != order[b]
    }
  }

  /** The keys so far, grouped: each share under its shard, and the shards in the order of their first keys. */
  ghost predicate GroupsOf(grouped: Grouped, keys: seq<CappingKey>, shardCount: nat, f: ShardingFunc) {
    && grouped.order == ShardOrder(keys, shardCount, f)
    && forall i: nat ::
         if i in grouped.lists then i < shardCount && grouped.lists[i] == Share(keys, shardCount, f, i)
         else Share(keys, shardCount, f, i) == []
  }

  /** Appending a key to the list of its shard, which may be new. */
  function Appended(grouped: Grouped, index: nat, entry: Indexed): Grouped {
    Grouped(if index in grouped.lists then grouped.order else grouped.order + [index],
            grouped.lists[index := (if index in grouped.lists then grouped.lists[index] else []) + [entry]])
  }

  lemma StaysGrouped(grouped: Grouped, index: nat, entry: Indexed)
    requires grouped.Valid()
    ensures Appended(grouped, index, entry).Valid()
  {
  }

  lemma OneMoreGrouped(grouped: Grouped, keys: seq<CappingKey>, shardCount: nat, f: ShardingFunc, position: nat,
                       index: nat)
    requires position < |keys| && GroupsOf(grouped, keys[..position], shardCount, f)
    requires index in grouped.lists <==> index in grouped.order
    requires ResolveShard(keys[position].key, shardCount, f) == Ok(index)
    ensures var more := Appended(grouped, index, Indexed(position, keys[position]));
            GroupsOf(more, keys[..position + 1], shardCount, f)
  {
    assert keys[..position + 1][..position] == keys[..position];
  }

  method GroupByShard(keys: seq<CappingKey>, shardCount: nat, f: ShardingFunc) returns (r: Result<Grouped>)
    ensures r.Ok? <==> Routable(keys, shardCount, f)
    ensures r.Err? ==> r.error == ShardIndex
    ensures r.Ok? ==> r.value.Valid() && GroupsOf(r.value, keys, shardCount, f)
  {
    var grouped := Grouped([], map[]);
    for position := 0 to |keys|
      invariant Routable(keys[..position], shardCount, f)
      invariant grouped.Valid() && GroupsOf(grouped, keys[..position], shardCount, f)
    {
      var resolved := ResolveShard(keys[position].key, shardCount, f);
      if resolved.Err? {
        return Err(resolved.error);
      }
      var index := resolved.value;
      OneMoreGrouped(grouped, keys, shardCount, f, position, index);
      StaysGrouped(grouped, index, Indexed(position, keys[position]));
      grouped := Appended(grouped, index, Indexed(position, keys[position]));
    }
    assert keys[..|keys|] == keys;
    return Ok(grouped);
  }

  datatype ShardCursor = ShardCursor(index: nat, cursor: Bytes)

  function ParseShardCursor(cursor: Bytes, shardCount: nat): Result<ShardCursor> {
    if cursor == [] || cursor == SCAN_CURSOR_INITIAL then Ok(ShardCursor(0, SCAN_CURSOR_INITIAL))
    else
      var p := Partition(cursor, SHARD_CURSOR_SEPARATOR);
      if !p.found || p.after == [] || !IsNumber(p.before) then Err(Corrupted)
      else
        var index := Number(p.before);
        if index >= shardCount then Err(Corrupted) else Ok(ShardCursor(index, p.after))
  }

  /** Every cursor, with its first colon or without one: what it means, or that it is malformed. */
  lemma CursorAccepts(before: Bytes, after: Bytes, shardCount: nat)
    requires Free(before, SHARD_CURSOR_SEPARATOR)
    ensures ParseShardCursor(before, shardCount)
         == if before == [] || before == Ascii("0") then Ok(ShardCursor(0, Ascii("0"))) else Err(Corrupted)
    ensures ParseShardCursor(before + Ascii(":") + after, shardCount)
         == if after != [] && IsNumber(before) && Number(before) < shardCount
            then Ok(ShardCursor(Number(before), after))
            else Err(Corrupted)
  {
    PartitionAt(before, SHARD_CURSOR_SEPARATOR, after);
    assert before + Ascii(":") + after == before + [SHARD_CURSOR_SEPARATOR] + after;
    assert Ascii("0") == SCAN_CURSOR_INITIAL;
    assert before + Ascii(":") + after != SCAN_CURSOR_INITIAL;
    assert SHARD_CURSOR_SEPARATOR in before + [SHARD_CURSOR_SEPARATOR] + after;
  }

  function MakeShardCursor(index: nat, cursor: Bytes, shardCount: nat): Bytes {
    if index >= shardCount then SCAN_CURSOR_INITIAL
    else Decimal(index) + [SHARD_CURSOR_SEPARATOR] + cursor
  }

  /** "Finished" is never confused with "resume". */
  lemma MadeCursorEndsTheWalk(index: nat, cursor: Bytes, shardCount: nat)
    ensures MakeShardCursor(index, cursor, shardCount) == SCAN_CURSOR_INITIAL <==> index >= shardCount
  {
    if index < shardCount {
      NumberUndoesDecimal(index);
      assert |MakeShardCursor(index, cursor, shardCount)| >= 2;
    }
  }

  /** A made cursor leads back to its shard and shard cursor, colons in it included. */
  lemma CursorRoundTrip(index: nat, cursor: Bytes, shardCount: nat)
    requires index < shardCount
    ensures ParseShardCursor(MakeShardCursor(index, cursor, shardCount), shardCount)
         == if cursor == [] then Err(Corrupted) else Ok(ShardCursor(index, cursor))
  {
    var made := MakeShardCursor(index, cursor, shardCount);
    MadeCursorEndsTheWalk(index, cursor, shardCount);
    DecimalIsFree(index, SHARD_CURSOR_SEPARATOR);
    PartitionAt(Decimal(index), SHARD_CURSOR_SEPARATOR, cursor);
    NumberUndoesDecimal(index);
  }
}
