/** The sharded multi-key delete against one unsharded database. */
module MultiDelete {
  import opened Core
  import opened Sharding

  type Store = map<CappingKey, int>

  /** MDEL as one server runs it: key by key, left to right. */
  datatype Deletion = Deletion(results: seq<bool>, store: Store)

  function MDel(store: Store, keys: seq<CappingKey>): Deletion
    decreases |keys|
  {
    if keys == [] then Deletion([], store)
    else
      var rest := MDel(store - {keys[0]}, keys[1..]);
      Deletion([keys[0] in store] + rest.results, rest.store)
  }

  ghost function KeySet(keys: seq<CappingKey>): set<CappingKey> {
    set k | k in keys
  }

  lemma {:induction false} MDelRemoves(store: Store, keys: seq<CappingKey>)
    ensures MDel(store, keys).store == store - KeySet(keys)
    decreases |keys|
  {
    if keys != [] {
      MDelRemoves(store - {keys[0]}, keys[1..]);
      assert keys == [keys[0]] + keys[1..];
      assert KeySet(keys) == {keys[0]} + KeySet(keys[1..]);
    } else {
      assert KeySet(keys) == {};
    }
  }

  /** Deleting in order hits the first occurrence of each present key and removes them all. */
  lemma {:induction false} MDelMeaning(store: Store, keys: seq<CappingKey>)
    ensures var d := MDel(store, keys);
            && |d.results| == |keys|
            && (forall j | 0 <= j < |keys| :: d.results[j] == (keys[j] in store && keys[j] !in keys[..j]))
            && d.store == store - KeySet(keys)
    decreases |keys|
  {
    MDelRemoves(store, keys);
    if keys != [] {
      var rest := keys[1..];
      MDelMeaning(store - {keys[0]}, rest);
      forall j | 0 < j < |keys|
        ensures keys[j] in keys[..j] <==> keys[j] == keys[0] || rest[j - 1] in rest[..j - 1]
      {
        assert keys[..j] == [keys[0]] + rest[..j - 1];
      }
    }
  }

  /** What each shard's part of the call does to that shard. */
  ghost function ShardDeletion(stores: seq<Store>, f: ShardingFunc, keys: seq<CappingKey>, i: nat): Deletion
    requires i < |stores|
  {
    MDel(stores[i], KeysOf(Share(keys, |stores|, f, i)))
  }

  /** The results of one share stand at the positions its keys came from. */
  ghost predicate Gathered(results: seq<bool>, share: seq<Indexed>, answers: seq<bool>) {
    && |answers| == |share|
    && forall j | 0 <= j < |share| :: share[j].position < |results| && results[share[j].position] == answers[j]
  }

  function AllKeys(stores: seq<Store>): set<CappingKey> {
    set i, k | 0 <= i < |stores| && k in stores[i] :: k
  }

  predicate Routed(stores: seq<Store>, f: ShardingFunc, k: CappingKey) {
    var i := f(k.key, |stores|);
    0 <= i < |stores| && k in stores[i]
  }

  /** The one logical database: each key read from the shard it is routed to. */
  function Merged(stores: seq<Store>, f: ShardingFunc): Store {
    map k | k in AllKeys(stores) && Routed(stores, f, k) :: stores[f(k.key, |stores|)][k]
  }

  lemma MergedReads(stores: seq<Store>, f: ShardingFunc, k: CappingKey)
    ensures k in Merged(stores, f) <==> Routed(stores, f, k)
    ensures Routed(stores, f, k) ==> Merged(stores, f)[k] == stores[f(k.key, |stores|)][k]
  {
  }

  /** A position's result depends only on the keys routed like it. */
  lemma ResultAt(stores: seq<Store>, f: ShardingFunc, keys: seq<CappingKey>, results: seq<bool>, p: nat)
    requires p < |keys| == |results| && Routable(keys, |stores|, f)
    requires forall i | 0 <= i < |stores| ::
      Gathered(results, Share(keys, |stores|, f, i), ShardDeletion(stores, f, keys, i).results)
    ensures results[p] == (keys[p] in Merged(stores, f) && keys[p] !in keys[..p])
  {
    assert keys[p] in keys;
    var i := f(keys[p].key, |stores|);
    var share := Share(keys, |stores|, f, i);
    ShareIsExact(keys, |stores|, f, i);
    MDelMeaning(stores[i], KeysOf(share));
    var j := RepeatsWithinShare(share, keys, |stores|, f, i, p);
    assert Gathered(results, share, ShardDeletion(stores, f, keys, i).results);
    MergedReads(stores, f, keys[p]);
  }

  /** After every shard has deleted its share, a key is left exactly if it was there and not listed. */
  lemma KeyAfterwards(before: seq<Store>, after: seq<Store>, f: ShardingFunc, keys: seq<CappingKey>, k: CappingKey)
    requires |after| == |before|
    requires forall i | 0 <= i < |before| :: after[i] == ShardDeletion(before, f, keys, i).store
    ensures k in Merged(after, f) <==> k in Merged(before, f) && k !in keys
    ensures k in Merged(after, f) ==> Merged(after, f)[k] == Merged(before, f)[k]
  {
    MergedReads(before, f, k);
    MergedReads(after, f, k);
    var i := f(k.key, |before|);
    if 0 <= i < |before| {
      var share := Share(keys, |before|, f, i);
      ShareIsExact(keys, |before|, f, i);
      ShareCoversKey(share, keys, |before|, f, i, k);
      MDelMeaning(before[i], KeysOf(share));
      assert after[i] == before[i] - KeySet(KeysOf(share));
    }
  }

  lemma SameAfterRemoval(after: Store, before: Store, keys: seq<CappingKey>)
    requires forall k: CappingKey :: k in after <==> k in before && k !in keys
    requires forall k: CappingKey :: k in after ==> after[k] == before[k]
    ensures after == before - KeySet(keys)
  {
  }

  lemma MergedAfterwards(before: seq<Store>, after: seq<Store>, f: ShardingFunc, keys: seq<CappingKey>)
    requires |after| == |before|
    requires forall i | 0 <= i < |before| :: after[i] == ShardDeletion(before, f, keys, i).store
    ensures Merged(after, f) == Merged(before, f) - KeySet(keys)
  {
    var db, db' := Merged(before, f), Merged(after, f);
    forall k: CappingKey
      ensures k in db' <==> k in db && k !in keys
      ensures k in db' ==> db'[k] == db[k]
    {
      KeyAfterwards(before, after, f, keys, k);
    }
    SameAfterRemoval(db', db, keys);
  }

  /** Gathering the shard answers by position yields the unsharded delete. */
  lemma GatheredIsUnsharded(before: seq<Store>, after: seq<Store>, f: ShardingFunc, keys: seq<CappingKey>,
                            results: seq<bool>)
    requires |after| == |before| && |results| == |keys| && Routable(keys, |before|, f)
    requires forall i | 0 <= i < |before| :: after[i] == ShardDeletion(before, f, keys, i).store
    requires forall i | 0 <= i < |before| ::
      Gathered(results, Share(keys, |before|, f, i), ShardDeletion(before, f, keys, i).results)
    ensures Deletion(results, Merged(after, f)) == MDel(Merged(before, f), keys)
  {
    var db := Merged(before, f);
    MDelMeaning(db, keys);
    MergedAfterwards(before, after, f, keys);
    var d := MDel(db, keys);
    forall p | 0 <= p < |keys|
      ensures results[p] == d.results[p]
    {
      ResultAt(before, f, keys, results, p);
    }
    assert results == d.results;
  }

  /** How one shard call can go: answered, failed before or after it ran, or answered with a wrong count. */
  datatype Fault = Answers | Fails(error: Error, applied: bool) | Miscounts(results: seq<bool>, applied: bool) {

    /** Whether the shard deleted its keys all the same. */
    predicate Applies() {
      Answers? || applied
    }

    /** What the call for so many keys raises. */
    function Raises(asked: nat): Option<Error> {
      match this
      case Answers => None
      case Fails(error, _) => Some(error)
      case Miscounts(results, _) => Some(if |results| == asked then ConnectionLost else InvalidValue)
    }
  }

  /** How the next shard call goes; once the list is used up, all go well. */
  function NextFault(faults: seq<Fault>): Fault {
    if faults == [] then Answers else faults[0]
  }

  /** The list after so many shard calls. */
  function FaultsLeft(faults: seq<Fault>, calls: nat): seq<Fault> {
    if calls <= |faults| then faults[calls..] else []
  }

  /** The number of shard calls that go well before one does not. */
  function FirstFault(faults: seq<Fault>): (k: nat)
    ensures k <= |faults| && (k < |faults| ==> !faults[k].Answers?)
    ensures forall i | 0 <= i < k :: faults[i].Answers?
  {
    if faults == [] || !faults[0].Answers? then 0 else 1 + FirstFault(faults[1..])
  }

  ghost predicate StoresAfter(before: seq<Store>, after: seq<Store>, f: ShardingFunc, keys: seq<CappingKey>,
                              done: set<nat>) {
    && |after| == |before|
    && forall i | 0 <= i < |before| ::
         after[i] == if i in done then ShardDeletion(before, f, keys, i).store else before[i]
  }

  /** Positions outside the share keep their results. */
  ghost predicate OnlyShareWritten(before: seq<bool>, after: seq<bool>, share: seq<Indexed>) {
    && |after| == |before|
    && forall p | 0 <= p < |before| && (forall j | 0 <= j < |share| :: share[j].position != p) :: after[p] == before[p]
  }

  /** The call failed at one of the shards it asked: earlier ones have run, later ones have not. */
  ghost predicate FailedAt(before: seq<Store>, after: seq<Store>, f: ShardingFunc, keys: seq<CappingKey>,
                           order: seq<nat>, k: nat, applied: bool)
    requires k < |order|
  {
    && |after| == |before|
    && forall i | 0 <= i < |before| ::
         after[i] == if i in order[..k] || (i == order[k] && applied) then ShardDeletion(before, f, keys, i).store
                     else before[i]
  }

  ghost predicate ShardDone(results: seq<bool>, before: seq<Store>, f: ShardingFunc, keys: seq<CappingKey>, i: nat)
    requires i < |before|
  {
    Gathered(results, Share(keys, |before|, f, i), ShardDeletion(before, f, keys, i).results)
  }

  /** The shards in `done`, and no others, have run and delivered their results. */
  ghost predicate Progress(before: seq<Store>, after: seq<Store>, f: ShardingFunc, keys: seq<CappingKey>,
                           results: seq<bool>, done: set<nat>) {
    && StoresAfter(before, after, f, keys, done)
    && forall i <- done :: i < |before| && ShardDone(results, before, f, keys, i)
  }

  lemma ShardStaysDone(filled: seq<bool>, results: seq<bool>, before: seq<Store>, f: ShardingFunc,
                       keys: seq<CappingKey>, index: nat, i: nat)
    requires i < |before| && index < |before| && i != index
    requires ShardDone(filled, before, f, keys, i)
    requires OnlyShareWritten(filled, results, Share(keys, |before|, f, index))
    ensures ShardDone(results, before, f, keys, i)
  {
    var written, share := Share(keys, |before|, f, index), Share(keys, |before|, f, i);
    ShareIsExact(keys, |before|, f, index);
    ShareIsExact(keys, |before|, f, i);
    forall a, b | 0 <= a < |written| && 0 <= b < |share|
      ensures written[a].position != share[b].position
    {
      assert ResolveShard(written[a].key.key, |before|, f) != ResolveShard(share[b].key.key, |before|, f);
    }
  }

  lemma OneMoreShare(before: seq<Store>, mid: seq<Store>, after: seq<Store>, f: ShardingFunc, keys: seq<CappingKey>,
                     filled: seq<bool>, results: seq<bool>, done: set<nat>, index: nat)
    requires Progress(before, mid, f, keys, filled, done)
    requires index < |before| && index !in done
    requires after == mid[index := ShardDeletion(before, f, keys, index).store]
    requires ShardDone(results, before, f, keys, index)
    requires OnlyShareWritten(filled, results, Share(keys, |before|, f, index))
    ensures Progress(before, after, f, keys, results, done + {index})
  {
    forall i <- done
      ensures ShardDone(results, before, f, keys, i)
    {
      ShardStaysDone(filled, results, before, f, keys, index, i);
    }
  }

  /** Shards without a share are as if they had been asked for nothing. */
  lemma EveryShareDone(before: seq<Store>, after: seq<Store>, f: ShardingFunc, keys: seq<CappingKey>,
                       results: seq<bool>, done: set<nat>)
    requires Routable(keys, |before|, f) && |results| == |keys|
    requires Progress(before, after, f, keys, results, done)
    requires forall i | 0 <= i < |before| && i !in done :: Share(keys, |before|, f, i) == []
    ensures Deletion(results, Merged(after, f)) == MDel(Merged(before, f), keys)
    ensures forall i | 0 <= i < |before| :: after[i] == ShardDeletion(before, f, keys, i).store
  {
    forall i | 0 <= i < |before|
      ensures after[i] == ShardDeletion(before, f, keys, i).store
      ensures ShardDone(results, before, f, keys, i)
    {
    }
    GatheredIsUnsharded(before, after, f, keys, results);
  }

  /** The first shard asked that does not answer ends the call with its error; without one, it succeeds. */
  ghost predicate EndsAsPlanned(r: Result<seq<bool>>, before: seq<Store>, after: seq<Store>, f: ShardingFunc,
                                keys: seq<CappingKey>, planned: seq<Fault>, left: seq<Fault>) {
    var order, k := ShardOrder(keys, |before|, f), FirstFault(planned);
    if k < |planned| && k < |order| then
      && r.Err? && planned[k].Raises(|Share(keys, |before|, f, order[k])|) == Some(r.error)
      && left == FaultsLeft(planned, k + 1) && FailedAt(before, after, f, keys, order, k, planned[k].Applies())
    else
      r.Ok? && left == FaultsLeft(planned, |order|)
  }

  /** After so many shards, all of which have answered. */
  ghost predicate Asked(planned: seq<Fault>, left: seq<Fault>, order: seq<nat>, done: set<nat>, g: nat) {
    && g <= |order| && left == FaultsLeft(planned, g)
    && (FirstFault(planned) < |planned| ==> g <= FirstFault(planned))
    && forall i: nat :: i in done <==> i in order[..g]
  }

  lemma OneMoreAsked(planned: seq<Fault>, left: seq<Fault>, order: seq<nat>, done: set<nat>, g: nat)
    requires Asked(planned, left, order, done, g) && g < |order| && NextFault(left).Answers?
    ensures Asked(planned, FaultsLeft(left, 1), order, done + {order[g]}, g + 1)
  {
    assert order[..g + 1] == order[..g] + [order[g]];
    if g < |planned| {
      assert FaultsLeft(left, 1) == FaultsLeft(planned, g + 1);
    }
  }

  lemma StopsAtFault(e: Error, before: seq<Store>, mid: seq<Store>, after: seq<Store>, f: ShardingFunc,
                     keys: seq<CappingKey>, planned: seq<Fault>, left: seq<Fault>, filled: seq<bool>, done: set<nat>,
                     g: nat)
    requires Asked(planned, left, ShardOrder(keys, |before|, f), done, g) && g < |ShardOrder(keys, |before|, f)|
    requires Progress(before, mid, f, keys, filled, done)
    requires ShardOrder(keys, |before|, f)[g] < |before| && ShardOrder(keys, |before|, f)[g] !in done
    requires NextFault(left).Raises(|Share(keys, |before|, f, ShardOrder(keys, |before|, f)[g])|) == Some(e)
    requires var index := ShardOrder(keys, |before|, f)[g];
             after == if !NextFault(left).Applies() then mid
                      else mid[index := ShardDeletion(before, f, keys, index).store]
    ensures EndsAsPlanned(Err(e), before, after, f, keys, planned, FaultsLeft(left, 1))
    ensures forall i | 0 <= i < |before| ::
      after[i] == ShardDeletion(before, f, keys, i).store || after[i] == before[i]
  {
    assert g == FirstFault(planned) < |planned|;
    assert FaultsLeft(left, 1) == FaultsLeft(planned, g + 1);
  }

  /** Writes one shard's results to their positions, in place. */
  method Scatter(results: array<bool>, share: seq<Indexed>, shardResults: seq<bool>)
    requires |shardResults| == |share|
    requires forall j | 0 <= j < |share| :: share[j].position < results.Length
    requires forall i, j | 0 <= i < j < |share| :: share[i].position < share[j].position
    modifies results
    ensures Gathered(results[..], share, shardResults)
    ensures OnlyShareWritten(old(results[..]), results[..], share)
  {
    for j := 0 to |share|
      invariant forall i | 0 <= i < j :: results[share[i].position] == shardResults[i]
      invariant forall p | 0 <= p < results.Length && (forall i | 0 <= i < |share| :: share[i].position != p) ::
        results[p] == old(results[p])
    {
      results[share[j].position] := shardResults[j];
    }
  }

  class ShardedClient {
    var stores: seq<Store>
    var faults: seq<Fault>
    const shardingFunc: ShardingFunc

    ghost function Logical(): Store
      reads this
    {
      Merged(stores, shardingFunc)
    }

    /** The remote MDEL of one shard. */
    method ShardMDelete(index: nat, keys: seq<CappingKey>) returns (r: Result<seq<bool>>)
      requires index < |stores|
      modifies this
      ensures faults == FaultsLeft(old(faults), 1)
      ensures stores
           == if NextFault(old(faults)).Applies() then old(stores)[index := MDel(old(stores)[index], keys).store]
              else old(stores)
      ensures NextFault(old(faults)).Answers? ==> r == Ok(MDel(old(stores)[index], keys).results)
      ensures !NextFault(old(faults)).Answers? ==>
        if r.Err? then NextFault(old(faults)).Raises(|keys|) == Some(r.error)
        else |r.value| != |keys| && NextFault(old(faults)).Raises(|keys|) == Some(InvalidValue)
    {
      var fault := NextFault(faults);
      faults := FaultsLeft(faults, 1);
      var deletion := MDel(stores[index], keys);
      if fault.Applies() {
        stores := stores[index := deletion.store];
      }
      match fault {
        case Answers => return Ok(deletion.results);
        case Fails(error, _) => return Err(error);
        case Miscounts(results, _) => return if |results| == |keys| then Err(ConnectionLost) else Ok(results);
      }
    }

    /** One round of the scatter: ask one shard, check the count, write its answers to their places. */
    method DeleteShare(index: nat, share: seq<Indexed>, results: array<bool>) returns (r: Result<()>)
      requires index < |stores|
      requires forall j | 0 <= j < |share| :: share[j].position < results.Length
      requires forall i, j | 0 <= i < j < |share| :: share[i].position < share[j].position
      modifies this, results
      ensures r == match NextFault(old(faults)).Raises(|share|) case None => Ok(()) case Some(e) => Err(e)
      ensures faults == FaultsLeft(old(faults), 1)
      ensures stores
           == if NextFault(old(faults)).Applies()
              then old(stores)[index := MDel(old(stores)[index], KeysOf(share)).store]
              else old(stores)
      ensures r.Ok? ==> Gathered(results[..], share, MDel(old(stores)[index], KeysOf(share)).results)
      ensures OnlyShareWritten(old(results[..]), results[..], share)
    {
      MDelMeaning(stores[index], KeysOf(share));
      var shardResults :- ShardMDelete(index, KeysOf(share));
      if |shardResults| != |share| {
        return Err(InvalidValue);
      }
      Scatter(results, share, shardResults);
      return Ok(());
    }

    /**
     * Scatter the keys, gather the results by position. A completed call is the
     * unsharded delete. The shards are asked in the order in which the keys first
     * need them; the first one that does not answer ends the call with its error,
     * and no later one is asked.
     */
    method MDelete(keys: seq<CappingKey>) returns (r: Result<seq<bool>>)
      modifies this
      ensures r.Ok? ==> Deletion(r.value, Logical()) == MDel(old(Logical()), keys)
      ensures |stores| == |old(stores)|
      ensures forall i | 0 <= i < |stores| ::
        || stores[i] == ShardDeletion(old(stores), shardingFunc, keys, i).store
        || (r.Err? && stores[i] == old(stores)[i])
      ensures !Routable(keys, |old(stores)|, shardingFunc) ==>
        r == Err(ShardIndex) && stores == old(stores) && faults == old(faults)
      ensures Routable(keys, |old(stores)|, shardingFunc) ==>
        EndsAsPlanned(r, old(stores), stores, shardingFunc, keys, old(faults), faults)
    {
      var n, f := |stores|, shardingFunc;
      ghost var start, planned := stores, faults;
      var results := new bool[|keys|](_ => false);
      var grouped := GroupByShard(keys, n, f);
      if grouped.Err? {
        return Err(grouped.error);
      }
      var order, lists := grouped.value.order, grouped.value.lists;
      ghost var done: set<nat> := {};
      for g := 0 to |order|
        modifies this, results
        invariant Asked(planned, faults, order, done, g)
        invariant Progress(start, stores, f, keys, results[..], done)
      {
        var index := order[g];
        assert index !in order[..g];
        ShareIsExact(keys, n, f, index);
        ghost var filled, mid, left := results[..], stores, faults;
        var deleted := DeleteShare(index, lists[index], results);
        if deleted.Err? {
          StopsAtFault(deleted.error, start, mid, stores, f, keys, planned, left, filled, done, g);
          return Err(deleted.error);
        }
        OneMoreShare(start, mid, stores, f, keys, filled, results[..], done, index);
        OneMoreAsked(planned, left, order, done, g);
        done := done + {index};
      }
      EveryShareDone(start, stores, f, keys, results[..], done);
      return Ok(results[..]);
    }
  }
}
