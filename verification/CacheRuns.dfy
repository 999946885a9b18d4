/** Whole runs of the cache, call by call: what its readers see, and that it does not depend
on clean-ups or on the order of delivery. */
module CacheRuns {

  import opened Basics
  import opened Registers
  import opened KeyValueCaches

  datatype Call =
    | UpdateValue(key: Key, value: Val, time: Time)
    | DeleteValue(key: Key, time: Time)
    | UpdateSet(key: Key, values: seq<Val>, time: Time)
    | DeleteSet(key: Key, values: seq<Val>, time: Time)
    | RemoveDeleted(time: Time)

  function KvHistory(calls: seq<Call>): seq<Op<Key, Val>> {
    if calls == [] then []
    else
      KvHistory(calls[..|calls| - 1])
      + match calls[|calls| - 1]
        case UpdateValue(key, value, time) => [Write({key}, Some(value), time)]
        case DeleteValue(key, time) => [Write({key}, None, time)]
        case RemoveDeleted(time) => [Collect(time)]
        case _ => []
  }

  function SetHistory(calls: seq<Call>): seq<Op<(Key, Val), Present>> {
    if calls == [] then []
    else
      SetHistory(calls[..|calls| - 1])
      + match calls[|calls| - 1]
        case UpdateSet(key, values, time) => [Write(Pairs(key, values), Some(Present), time)]
        case DeleteSet(key, values, time) => [Write(Pairs(key, values), None, time)]
        case RemoveDeleted(time) => [Collect(time)]
        case _ => []
  }

  method RunCall(cache: KeyValueCache, call: Call)
    requires cache.Valid()
    modifies cache
    ensures cache.Valid()
    ensures cache.kvLog == old(cache.kvLog) + KvHistory([call])
    ensures cache.setLog == old(cache.setLog) + SetHistory([call])
  {
    assert [call][..0] == [];
    match call
    case UpdateValue(key, value, time) => cache.UpdateKeyValue(key, value, time);
    case DeleteValue(key, time) => cache.DeleteKey(key, time);
    case UpdateSet(key, values, time) => cache.UpdateKeyValueSet(key, values, time);
    case DeleteSet(key, values, time) => cache.DeleteValuesInSet(key, values, time);
    case RemoveDeleted(time) => cache.RemoveDeletedKeys(time);
  }

  lemma {:induction false} HistorySnoc(calls: seq<Call>, i: nat)
    requires i < |calls|
    ensures KvHistory(calls[..i + 1]) == KvHistory(calls[..i]) + KvHistory([calls[i]])
    ensures SetHistory(calls[..i + 1]) == SetHistory(calls[..i]) + SetHistory([calls[i]])
  {
    assert calls[..i + 1][..i] == calls[..i];
    assert [calls[i]][..0] == [];
  }

  method RunCalls(calls: seq<Call>) returns (cache: KeyValueCache)
    ensures fresh(cache) && cache.Valid()
    ensures cache.kvLog == KvHistory(calls) && cache.setLog == SetHistory(calls)
  {
    cache := new KeyValueCache();
    for i := 0 to |calls|
      invariant cache.Valid()
      invariant cache.kvLog == KvHistory(calls[..i]) && cache.setLog == SetHistory(calls[..i])
    {
      HistorySnoc(calls, i);
      RunCall(cache, calls[i]);
    }
    assert calls[..|calls|] == calls;
  }

  /** After any run of calls, clean-ups included, both reads answer as a store that applies the
      same cutoffs but keeps every tombstone forever. */
  method AnswersMatchReference(calls: seq<Call>, keys: seq<Key>)
    returns (pairs: map<Key, Val>, sets: map<Key, set<Val>>)
    ensures forall k :: k in pairs <==> k in keys && Visible(Register(KvHistory(calls), k)).Some?
    ensures forall k :: k in pairs ==> Some(pairs[k]) == Visible(Register(KvHistory(calls), k))
    ensures forall k, v :: k in keys ==>
              (v in GetValueSet(sets, k) <==> Visible(Register(SetHistory(calls), (k, v))).Some?)
  {
    var cache := RunCalls(calls);
    pairs := cache.GetKeyValuePairs(keys);
    sets := cache.GetKeyValueSet(set k | k in keys);
  }

  /** The two runs apply the same mutations, none of them conflicting, none dropped. */
  ghost predicate SameMutations<I(!new), P(!new)>(a: seq<Op<I, P>>, b: seq<Op<I, P>>) {
    forall id :: NoneDropped(a, id) && NoneDropped(b, id) && ConflictFree(a, b, id) && SameWrites(a, b, id)
  }

  /** Two runs of the same mutations in any order, with clean-ups anywhere, answer alike. */
  method DeliveryOrderIsIrrelevant(a: seq<Call>, b: seq<Call>, keys: seq<Key>)
    returns (pairs: map<Key, Val>, pairs': map<Key, Val>, sets: map<Key, set<Val>>, sets': map<Key, set<Val>>)
    requires SameMutations(KvHistory(a), KvHistory(b)) && SameMutations(SetHistory(a), SetHistory(b))
    ensures pairs == pairs'
    ensures forall k :: k in keys ==> GetValueSet(sets, k) == GetValueSet(sets', k)
  {
    pairs, sets := AnswersMatchReference(a, keys);
    pairs', sets' := AnswersMatchReference(b, keys);
    forall k ensures Register(KvHistory(a), k) == Register(KvHistory(b), k) {
      OrderIsIrrelevant(KvHistory(a), KvHistory(b), k);
    }
    forall k, v ensures Register(SetHistory(a), (k, v)) == Register(SetHistory(b), (k, v)) {
      OrderIsIrrelevant(SetHistory(a), SetHistory(b), (k, v));
    }
    assert pairs.Keys == pairs'.Keys;
    forall k | k in keys ensures GetValueSet(sets, k) == GetValueSet(sets', k) {
      assert forall v :: v in GetValueSet(sets, k) <==> v in GetValueSet(sets', k);
    }
  }
}
