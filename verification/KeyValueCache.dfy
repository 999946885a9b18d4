/** The in-memory cache: a key/value map and a key/value-set map, each with tombstones, a
time-sorted index of deletions and a clean-up cutoff.

The class keeps, as ghost state, the history of operations on each map. `Valid` says that
every cell of the maps holds what the register theory prescribes for that history, so the
reads are specified by the reference semantics in which no tombstone is ever forgotten.
`Valid` also holds what the operations need of the deletion indexes, which is one-sided:
every tombstone is indexed at its own commit time, while an index may also hold stale
entries.
 */
module KeyValueCaches {

  import opened Basics
  import opened Registers

  type Key = string
  type Val = string

  /** The payload of a live (key, value) pair of the set map. */
  datatype Present = Present

  datatype SetValueMeta = SetValueMeta(lastLogicalCommitTime: Time, isDeleted: bool)

  type ValueMap = map<Val, SetValueMeta>

  function MetaEntry(m: SetValueMeta): Entry<Present> {
    Entry(if m.isDeleted then None else Some(Present), m.lastLogicalCommitTime)
  }

  function Pairs(key: Key, values: seq<Val>): set<(Key, Val)> {
    set v | v in values :: (key, v)
  }

  function KvCell(cells: map<Key, Entry<Val>>, key: Key): Option<Entry<Val>> {
    if key in cells then Some(cells[key]) else None
  }

  function SetCell(sets: map<Key, ValueMap>, key: Key, value: Val): Option<Entry<Present>> {
    if key in sets && value in sets[key] then Some(MetaEntry(sets[key][value])) else None
  }

  function LiveValues(values: ValueMap): set<Val> {
    set v | v in values && !values[v].isDeleted
  }

  // ------------------------------------------------------------------ deletion indexes

  ghost predicate SortedByTime(nodes: seq<(Time, Key)>) {
    forall i, j :: 0 <= i < j < |nodes| ==> nodes[i].0 <= nodes[j].0
  }

  type SetIndex = map<Time, map<Key, set<Val>>>

  predicate IndexHas(index: SetIndex, time: Time, key: Key, value: Val) {
    time in index && key in index[time] && value in index[time][key]
  }

  function IndexAdd(index: SetIndex, time: Time, key: Key, value: Val): SetIndex {
    var atTime := if time in index then index[time] else map[];
    var values := if key in atTime then atTime[key] else {};
    index[time := atTime[key := values + {value}]]
  }

  lemma {:induction false} EraseKeepsOthers(nodes: seq<(Time, Key)>, at: nat)
    requires at < |nodes| && SortedByTime(nodes)
    ensures SortedByTime(nodes[..at] + nodes[at + 1..])
    ensures forall e :: e in nodes && e != nodes[at] ==> e in nodes[..at] + nodes[at + 1..]
  {
    assert nodes == nodes[..at] + [nodes[at]] + nodes[at + 1..];
  }

  lemma {:induction false} InsertKeepsOthers(nodes: seq<(Time, Key)>, at: nat, e: (Time, Key))
    requires at <= |nodes|
    ensures forall f :: f in nodes[..at] + [e] + nodes[at..] <==> f in nodes || f == e
  {
    assert nodes == nodes[..at] + nodes[at..];
  }

  lemma {:induction false} InsertKeepsOrder(nodes: seq<(Time, Key)>, at: nat, e: (Time, Key))
    requires at <= |nodes| && SortedByTime(nodes)
    requires at > 0 ==> nodes[at - 1].0 <= e.0
    requires at < |nodes| ==> e.0 < nodes[at].0
    ensures SortedByTime(nodes[..at] + [e] + nodes[at..])
  {
    var next := nodes[..at] + [e] + nodes[at..];
    forall i, j | 0 <= i < j < |next| ensures next[i].0 <= next[j].0 {
      var x := if i < at then i else i - 1;
      var y := if j < at then j else j - 1;
      assert i != at ==> next[i] == nodes[x];
      assert j != at ==> next[j] == nodes[y];
      if i == at {
        assert nodes[at].0 <= nodes[y].0;
      } else if j == at {
        assert nodes[x].0 <= nodes[at - 1].0;
      }
    }
  }

  // ---------------------------------------------------------- invariants of the two maps

  /** Every tombstone of the key/value map is indexed at its own time and is newer than the
      cutoff. */
  ghost predicate KvIndexed(cells: map<Key, Entry<Val>>, nodes: seq<(Time, Key)>, cutoff: Time) {
    forall k :: IsTombstone(KvCell(cells, k)) ==>
                KvCell(cells, k).value.time > cutoff && (KvCell(cells, k).value.time, k) in nodes
  }

  ghost predicate SetIndexed(sets: map<Key, ValueMap>, index: SetIndex, cutoff: Time) {
    forall k, v :: IsTombstone(SetCell(sets, k, v)) ==>
                   && SetCell(sets, k, v).value.time > cutoff
                   && IndexHas(index, SetCell(sets, k, v).value.time, k, v)
  }

  ghost predicate NoEmptyValueMap(sets: map<Key, ValueMap>) {
    forall k :: k in sets ==> sets[k] != map[]
  }

  ghost predicate KvTracks(cells: map<Key, Entry<Val>>, log: seq<Op<Key, Val>>) {
    forall k :: KvCell(cells, k) == Collected(log, k)
  }

  ghost predicate SetTracks(sets: map<Key, ValueMap>, log: seq<Op<(Key, Val), Present>>) {
    forall k, v :: SetCell(sets, k, v) == Collected(log, (k, v))
  }

  /** What the key/value map, its index, its cutoff and its history keep. */
  ghost predicate KvInv(cells: map<Key, Entry<Val>>, nodes: seq<(Time, Key)>, cutoff: Time, log: seq<Op<Key, Val>>) {
    && cutoff == Cutoff(log)
    && cutoff >= 0
    && SortedByTime(nodes)
    && KvIndexed(cells, nodes, cutoff)
    && KvTracks(cells, log)
  }

  ghost predicate SetInv(sets: map<Key, ValueMap>, index: SetIndex, cutoff: Time, log: seq<Op<(Key, Val), Present>>)
  {
    && cutoff == Cutoff(log)
    && cutoff >= 0
    && NoEmptyValueMap(sets)
    && SetIndexed(sets, index, cutoff)
    && SetTracks(sets, log)
  }

  lemma {:induction false} KvTracksOneMore(cells: map<Key, Entry<Val>>, cells': map<Key, Entry<Val>>,
          log: seq<Op<Key, Val>>, op: Op<Key, Val>)
    requires KvTracks(cells, log)
    requires forall k :: KvCell(cells', k) == CellStep(KvCell(cells, k), Cutoff(log), op, k)
    ensures KvTracks(cells', log + [op])
  {
    forall k ensures KvCell(cells', k) == Collected(log + [op], k) {
      CollectedSnoc(log, op, k);
    }
  }

  lemma {:induction false} SetTracksOneMore(sets: map<Key, ValueMap>, sets': map<Key, ValueMap>,
          log: seq<Op<(Key, Val), Present>>, op: Op<(Key, Val), Present>)
    requires SetTracks(sets, log)
    requires forall k, v :: SetCell(sets', k, v) == CellStep(SetCell(sets, k, v), Cutoff(log), op, (k, v))
    ensures SetTracks(sets', log + [op])
  {
    forall k, v ensures SetCell(sets', k, v) == Collected(log + [op], (k, v)) {
      CollectedSnoc(log, op, (k, v));
    }
  }

  // ------------------------------------------------------------------------- the cache

  class KeyValueCache {
    var kvMap: map<Key, Entry<Val>>
    var deletedNodes: seq<(Time, Key)>
    var maxCleanup: Time
    var setMap: map<Key, ValueMap>
    var deletedSetNodes: SetIndex
    var maxCleanupForSets: Time

    /** The operations on the key/value map and on the set map so far. */
    ghost var kvLog: seq<Op<Key, Val>>
    ghost var setLog: seq<Op<(Key, Val), Present>>

    ghost predicate Valid()
      reads this
    {
      && KvInv(kvMap, deletedNodes, maxCleanup, kvLog)
      && SetInv(setMap, deletedSetNodes, maxCleanupForSets, setLog)
    }

    constructor ()
      ensures Valid()
      ensures kvLog == [] && setLog == []
    {
      kvMap, deletedNodes, maxCleanup := map[], [], 0;
      setMap, deletedSetNodes, maxCleanupForSets := map[], map[], 0;
      kvLog, setLog := [], [];
    }

    // ----------------------------------------------------------------- key/value map

    /** Answers as a map that never forgets a tombstone. */
    method GetKeyValuePairs(keys: seq<Key>) returns (pairs: map<Key, Val>)
      requires Valid()
      ensures forall k :: k in pairs <==> k in keys && Visible(Register(kvLog, k)).Some?
      ensures forall k :: k in pairs ==> Some(pairs[k]) == Visible(Register(kvLog, k))
    {
      pairs := map[];
      for i := 0 to |keys|
        invariant forall k :: k in pairs <==> k in keys[..i] && Visible(Register(kvLog, k)).Some?
        invariant forall k :: k in pairs ==> Some(pairs[k]) == Visible(Register(kvLog, k))
      {
        var key := keys[i];
        assert KvCell(kvMap, key) == Collected(kvLog, key);
        CollectionIsInvisible(kvLog, key);
        if key in kvMap && kvMap[key].payload.Some? {
          pairs := pairs[key := kvMap[key].payload.value];
        }
      }
    }

    /** An entry of the index with the given time; nothing is promised on which one. */
    method FindDeleted(time: Time) returns (at: Option<nat>)
      ensures at.Some? ==> at.value < |deletedNodes| && deletedNodes[at.value].0 == time
      ensures at.None? ==> forall i :: 0 <= i < |deletedNodes| ==> deletedNodes[i].0 != time
    {
      for i := 0 to |deletedNodes|
        invariant forall j :: 0 <= j < i ==> deletedNodes[j].0 != time
      {
        if deletedNodes[i].0 == time {
          return Some(i);
        }
      }
      return None;
    }

    /** Erases one index entry of the time, if the one found belongs to the key. */
    method EraseDeleted(time: Time, key: Key)
      requires SortedByTime(deletedNodes)
      modifies `deletedNodes
      ensures SortedByTime(deletedNodes)
      ensures KeepsOthers(old(deletedNodes), deletedNodes, key)
    {
      var at := FindDeleted(time);
      if at.Some? && deletedNodes[at.value].1 == key {
        EraseKeepsOthers(deletedNodes, at.value);
        deletedNodes := deletedNodes[..at.value] + deletedNodes[at.value + 1..];
      }
    }

    /** Writes the value if it is admitted; a tombstone it replaces leaves the index. */
    method StoreValue(key: Key, value: Val, time: Time)
      requires SortedByTime(deletedNodes)
      modifies `kvMap, `deletedNodes
      ensures kvMap == if KvAdmits(old(kvMap), maxCleanup, key, time) then old(kvMap)[key := Entry(Some(value), time)]
                       else old(kvMap)
      ensures SortedByTime(deletedNodes)
      ensures || deletedNodes == old(deletedNodes)
              || (KvAdmits(old(kvMap), maxCleanup, key, time) && KeepsOthers(old(deletedNodes), deletedNodes, key))
    {
      if time > maxCleanup && !(key in kvMap && kvMap[key].time >= time) {
        if key in kvMap && kvMap[key].time < time && kvMap[key].payload.None? {
          EraseDeleted(kvMap[key].time, key);
        }
        kvMap := kvMap[key := Entry(Some(value), time)];
      }
    }

    method UpdateKeyValue(key: Key, value: Val, time: Time)
      requires Valid()
      modifies `kvMap, `deletedNodes, `kvLog
      ensures Valid()
      ensures kvLog == old(kvLog) + [Write({key}, Some(value), time)]
    {
      ghost var cells, nodes := kvMap, deletedNodes;
      StoreValue(key, value, time);
      KvWriteKeeps(cells, kvMap, nodes, deletedNodes, maxCleanup, kvLog, key, Some(value), time);
      kvLog := kvLog + [Write({key}, Some(value), time)];
    }

    /** Adds an entry behind all entries that are not newer. */
    method EmplaceDeleted(time: Time, key: Key)
      requires SortedByTime(deletedNodes)
      modifies `deletedNodes
      ensures SortedByTime(deletedNodes)
      ensures (time, key) in deletedNodes && KeepsOthers(old(deletedNodes), deletedNodes, key)
      ensures forall e :: e in deletedNodes <==> e in old(deletedNodes) || e == (time, key)
    {
      var i := |deletedNodes|;
      while i > 0 && deletedNodes[i - 1].0 > time
        invariant 0 <= i <= |deletedNodes|
        invariant i < |deletedNodes| ==> deletedNodes[i].0 > time
      {
        i := i - 1;
      }
      InsertKeepsOthers(deletedNodes, i, (time, key));
      InsertKeepsOrder(deletedNodes, i, (time, key));
      deletedNodes := deletedNodes[..i] + [(time, key)] + deletedNodes[i..];
    }

    method DeleteKey(key: Key, time: Time)
      requires Valid()
      modifies `kvMap, `deletedNodes, `kvLog
      ensures Valid()
      ensures kvLog == old(kvLog) + [Write({key}, None, time)]
    {
      ghost var cells, nodes := kvMap, deletedNodes;
      if time > maxCleanup && ((key in kvMap && kvMap[key].time < time) || key !in kvMap) {
        kvMap := kvMap[key := Entry(None, time)];
        EmplaceDeleted(time, key);
      }
      KvWriteKeeps(cells, kvMap, nodes, deletedNodes, maxCleanup, kvLog, key, None, time);
      kvLog := kvLog + [Write({key}, None, time)];
    }

    /** Walks the index up to `time` and removes the tombstones it leads to. */
    method SweepKeyValues(time: Time) returns (it: nat)
      modifies `kvMap
      ensures it <= |deletedNodes| && (it < |deletedNodes| ==> deletedNodes[it].0 > time)
      ensures forall i :: 0 <= i < it ==> deletedNodes[i].0 <= time
      ensures KvSwept(old(kvMap), kvMap, deletedNodes[..it], time)
    {
      it := 0;
      while it < |deletedNodes| && deletedNodes[it].0 <= time
        invariant it <= |deletedNodes|
        invariant forall i :: 0 <= i < it ==> deletedNodes[i].0 <= time
        invariant KvSwept(old(kvMap), kvMap, deletedNodes[..it], time)
      {
        var key := deletedNodes[it].1;
        ghost var before := kvMap;
        if key in kvMap && kvMap[key].payload.None? && kvMap[key].time <= time {
          kvMap := kvMap - {key};
        }
        KvSweptOneMore(old(kvMap), before, kvMap, deletedNodes[..it], deletedNodes[it], time);
        assert deletedNodes[..it + 1] == deletedNodes[..it] + [deletedNodes[it]];
        it := it + 1;
      }
    }

    /** Whatever stale entries the index holds, this removes exactly the tombstones at or
        below `time`. */
    method CleanUpKeyValueMap(time: Time)
      requires Valid()
      modifies `kvMap, `deletedNodes, `maxCleanup, `kvLog
      ensures Valid()
      ensures kvLog == old(kvLog) + [Collect(time)]
    {
      var it := SweepKeyValues(time);
      KvSweptAll(old(kvMap), kvMap, deletedNodes, it, maxCleanup, kvLog, time);
      deletedNodes := deletedNodes[it..];
      maxCleanup := Max(maxCleanup, time);
      kvLog := kvLog + [Collect(time)];
    }

    // ------------------------------------------------------------- key/value-set map

    /** The live values of the keys that are present; a key without entry has no live value. */
    method GetKeyValueSet(keys: set<Key>) returns (result: map<Key, set<Val>>)
      requires Valid()
      ensures result.Keys == keys * setMap.Keys
      ensures forall k, v :: k in keys ==>
                (v in GetValueSet(result, k) <==> Visible(Register(setLog, (k, v))).Some?)
    {
      result := map[];
      var rest := keys;
      while rest != {}
        invariant rest <= keys
        invariant result.Keys == (keys - rest) * setMap.Keys
        invariant forall k :: k in result ==> result[k] == LiveValues(setMap[k])
        decreases rest
      {
        var key :| key in rest;
        if key in setMap {
          result := result[key := LiveValues(setMap[key])];
        }
        rest := rest - {key};
      }
      forall k, v | k in keys
        ensures v in GetValueSet(result, k) <==> Visible(Register(setLog, (k, v))).Some?
      {
        assert SetCell(setMap, k, v) == Collected(setLog, (k, v));
        CollectionIsInvisible(setLog, (k, v));
      }
    }

    /** A key without entry gets a value map with every value of the call. */
    method InsertNewKey(key: Key, values: seq<Val>, meta: SetValueMeta)
      requires key !in setMap && values != [] && NoEmptyValueMap(setMap)
      modifies `setMap
      ensures NoEmptyValueMap(setMap)
      ensures SetWrote(old(setMap), setMap, key, values, meta)
      ensures ChangedWithin(old(setMap), setMap, key, values)
    {
      var valueMap: ValueMap := map[];
      for i := 0 to |values|
        invariant forall v :: v in valueMap <==> v in values[..i]
        invariant forall v :: v in valueMap ==> valueMap[v] == meta
      {
        if values[i] !in valueMap {
          valueMap := valueMap[values[i] := meta];
        }
      }
      assert values[0] in valueMap;
      setMap := setMap[key := valueMap];
    }

    /** The loop over the values of a call on a key that exists: each value whose commit time
        is older takes `meta`. Returns the values that did. */
    method OfferToExisting(key: Key, values: seq<Val>, meta: SetValueMeta) returns (changed: seq<Val>)
      requires key in setMap && NoEmptyValueMap(setMap) && meta.lastLogicalCommitTime > 0
      modifies `setMap
      ensures NoEmptyValueMap(setMap)
      ensures SetWrote(old(setMap), setMap, key, values, meta)
      ensures ChangedWithin(old(setMap), setMap, key, changed)
    {
      changed := [];
      for i := 0 to |values|
        invariant key in setMap
        invariant NoEmptyValueMap(setMap)
        invariant SetWrote(old(setMap), setMap, key, values[..i], meta)
        invariant ChangedWithin(old(setMap), setMap, key, changed)
      {
        var value := values[i];
        ghost var before := setMap;
        var current := if value in setMap[key] then setMap[key][value] else SetValueMeta(0, false);
        if current.lastLogicalCommitTime < meta.lastLogicalCommitTime {
          current := meta;
          changed := changed + [value];
        }
        setMap := setMap[key := setMap[key][value := current]];
        SetWroteOneMore(old(setMap), before, setMap, key, values[..i], value, meta);
        assert values[..i + 1] == values[..i] + [value];
      }
      assert values[..|values|] == values;
    }

    method OfferValues(key: Key, values: seq<Val>, meta: SetValueMeta) returns (changed: seq<Val>)
      requires values != [] && NoEmptyValueMap(setMap) && meta.lastLogicalCommitTime > 0
      modifies `setMap
      ensures NoEmptyValueMap(setMap)
      ensures SetWrote(old(setMap), setMap, key, values, meta)
      ensures ChangedWithin(old(setMap), setMap, key, changed)
    {
      if key !in setMap {
        InsertNewKey(key, values, meta);
        changed := values;
      } else {
        changed := OfferToExisting(key, values, meta);
      }
    }

    method UpdateKeyValueSet(key: Key, values: seq<Val>, time: Time)
      requires Valid()
      modifies `setMap, `setLog
      ensures Valid()
      ensures setLog == old(setLog) + [Write(Pairs(key, values), Some(Present), time)]
    {
      ghost var w := Write(Pairs(key, values), Some(Present), time);
      if time <= maxCleanupForSets || values == [] {
        SetNoEffect(setMap, deletedSetNodes, maxCleanupForSets, setLog, w);
      } else {
        var meta := SetValueMeta(time, false);
        var _ := OfferValues(key, values, meta);
        SetWriteKeeps(old(setMap), setMap, deletedSetNodes, deletedSetNodes, maxCleanupForSets, setLog,
                      key, values, meta, [], w);
      }
      setLog := setLog + [w];
    }

    method DeleteValuesInSet(key: Key, values: seq<Val>, time: Time)
      requires Valid()
      modifies `setMap, `deletedSetNodes, `setLog
      ensures Valid()
      ensures setLog == old(setLog) + [Write(Pairs(key, values), None, time)]
    {
      ghost var w := Write(Pairs(key, values), None, time);
      if time <= maxCleanupForSets || values == [] {
        SetNoEffect(setMap, deletedSetNodes, maxCleanupForSets, setLog, w);
      } else {
        var meta := SetValueMeta(time, true);
        var valuesToDelete := OfferValues(key, values, meta);
        AddToIndex(time, key, valuesToDelete);
        SetWriteKeeps(old(setMap), setMap, old(deletedSetNodes), deletedSetNodes, maxCleanupForSets, setLog,
                      key, values, meta, valuesToDelete, w);
      }
      setLog := setLog + [w];
    }

    method AddToIndex(time: Time, key: Key, values: seq<Val>)
      modifies `deletedSetNodes
      ensures IndexGrew(old(deletedSetNodes), deletedSetNodes, time, key, values)
    {
      for i := 0 to |values|
        invariant IndexGrew(old(deletedSetNodes), deletedSetNodes, time, key, values[..i])
      {
        IndexAddHas(old(deletedSetNodes), deletedSetNodes, time, key, values[..i], values[i]);
        assert values[..i + 1] == values[..i] + [values[i]];
        deletedSetNodes := IndexAdd(deletedSetNodes, time, key, values[i]);
      }
      assert values[..|values|] == values;
    }

    /** Erases the old tombstones of `key` among `values`, and the key once it has no value. */
    method EraseValues(key: Key, values: set<Val>, time: Time)
      requires NoEmptyValueMap(setMap)
      modifies `setMap
      ensures NoEmptyValueMap(setMap)
      ensures SetSwept(old(setMap), setMap, KeyMarks(key, values), time)
    {
      if key !in setMap {
        return;
      }
      var rest := values;
      while rest != {}
        invariant rest <= values && key in setMap
        invariant forall k :: k in setMap && k != key ==> setMap[k] != map[]
        invariant SetSwept(old(setMap), setMap, KeyMarks(key, values - rest), time)
        decreases rest
      {
        var v :| v in rest;
        ghost var before := setMap;
        if v in setMap[key] && setMap[key][v].isDeleted && setMap[key][v].lastLogicalCommitTime <= time {
          setMap := setMap[key := setMap[key] - {v}];
        }
        SetSweptOneMore(old(setMap), before, setMap, KeyMarks(key, values - rest), key, v, time);
        assert KeyMarks(key, values - (rest - {v})) == KeyMarks(key, values - rest) + {(key, v)};
        rest := rest - {v};
      }
      assert values - rest == values;
      if setMap[key] == map[] {
        setMap := setMap - {key};
      }
    }

    method EraseBucket(bucket: map<Key, set<Val>>, time: Time)
      requires NoEmptyValueMap(setMap)
      modifies `setMap
      ensures NoEmptyValueMap(setMap)
      ensures SetSwept(old(setMap), setMap, BucketMarks(bucket, bucket.Keys), time)
    {
      var rest := bucket.Keys;
      while rest != {}
        invariant rest <= bucket.Keys
        invariant NoEmptyValueMap(setMap)
        invariant SetSwept(old(setMap), setMap, BucketMarks(bucket, bucket.Keys - rest), time)
        decreases rest
      {
        var key :| key in rest;
        ghost var before := setMap;
        EraseValues(key, bucket[key], time);
        SetSweptMore(old(setMap), before, setMap, BucketMarks(bucket, bucket.Keys - rest),
                     KeyMarks(key, bucket[key]), time);
        assert BucketMarks(bucket, bucket.Keys - (rest - {key})) ==
               BucketMarks(bucket, bucket.Keys - rest) + KeyMarks(key, bucket[key]);
        rest := rest - {key};
      }
      assert bucket.Keys - rest == bucket.Keys;
    }

    /** Visits the index buckets up to `time` and removes exactly the tombstones at or below it. */
    method CleanUpKeyValueSetMap(time: Time)
      requires Valid()
      modifies `setMap, `deletedSetNodes, `maxCleanupForSets, `setLog
      ensures Valid()
      ensures setLog == old(setLog) + [Collect(time)]
    {
      var times := set t | t in deletedSetNodes && t <= time;
      var rest := times;
      while rest != {}
        invariant rest <= times
        invariant unchanged(`deletedSetNodes, `maxCleanupForSets, `setLog)
        invariant NoEmptyValueMap(setMap)
        invariant SetSwept(old(setMap), setMap, IndexMarks(deletedSetNodes, times - rest), time)
        decreases rest
      {
        var t :| t in rest;
        var bucket := deletedSetNodes[t];
        ghost var before := setMap;
        EraseBucket(bucket, time);
        SetSweptMore(old(setMap), before, setMap, IndexMarks(deletedSetNodes, times - rest),
                     BucketMarks(bucket, bucket.Keys), time);
        assert IndexMarks(deletedSetNodes, times - (rest - {t})) ==
               IndexMarks(deletedSetNodes, times - rest) + BucketMarks(bucket, bucket.Keys);
        rest := rest - {t};
      }
      assert times - rest == times;
      SetSweptAll(old(setMap), setMap, deletedSetNodes, maxCleanupForSets, setLog, time);
      deletedSetNodes := deletedSetNodes - times;
      maxCleanupForSets := Max(maxCleanupForSets, time);
      setLog := setLog + [Collect(time)];
    }

    /** Removes from both maps what was deleted at or before `time`: no such tombstone is left
        and no live entry is lost. */
    method RemoveDeletedKeys(time: Time)
      requires Valid()
      modifies this
      ensures Valid()
      ensures kvLog == old(kvLog) + [Collect(time)]
      ensures setLog == old(setLog) + [Collect(time)]
      ensures forall k :: KvCell(kvMap, k) == Forget(old(KvCell(kvMap, k)), time)
      ensures forall k, v :: SetCell(setMap, k, v) == Forget(old(SetCell(setMap, k, v)), time)
    {
      CleanUpKeyValueMap(time);
      CleanUpKeyValueSetMap(time);
      forall k ensures KvCell(kvMap, k) == Forget(old(KvCell(kvMap, k)), time) {
        CollectedSnoc(old(kvLog), Collect(time), k);
      }
      forall k, v ensures SetCell(setMap, k, v) == Forget(old(SetCell(setMap, k, v)), time) {
        CollectedSnoc(old(setLog), Collect(time), (k, v));
      }
    }
  }

  // ------------------------------------------------------------ writes to the key/value map

  /** The guard under which a write changes the key/value map. */
  predicate KvAdmits(cells: map<Key, Entry<Val>>, cutoff: Time, key: Key, time: Time) {
    time > cutoff && (key in cells ==> cells[key].time < time)
  }

  /** The index keeps the entries of all other keys. */
  ghost predicate KeepsOthers(nodes: seq<(Time, Key)>, nodes': seq<(Time, Key)>, key: Key) {
    forall e :: e in nodes && e.1 != key ==> e in nodes'
  }

  lemma {:induction false} KvWriteKeeps(cells: map<Key, Entry<Val>>, cells': map<Key, Entry<Val>>,
          nodes: seq<(Time, Key)>, nodes': seq<(Time, Key)>, cutoff: Time, log: seq<Op<Key, Val>>, key: Key,
          payload: Option<Val>, time: Time)
    requires KvInv(cells, nodes, cutoff, log)
    requires cells' == if KvAdmits(cells, cutoff, key, time) then cells[key := Entry(payload, time)] else cells
    requires SortedByTime(nodes')
    requires nodes' == nodes || (KvAdmits(cells, cutoff, key, time) && KeepsOthers(nodes, nodes', key))
    requires KvAdmits(cells, cutoff, key, time) && payload.None? ==> (time, key) in nodes'
    ensures KvInv(cells', nodes', cutoff, log + [Write({key}, payload, time)])
  {
    var op := Write({key}, payload, time);
    CutoffSnoc(log, op);
    forall k ensures KvCell(cells', k) == CellStep(KvCell(cells, k), cutoff, op, k) {
    }
    KvTracksOneMore(cells, cells', log, op);
    forall k | IsTombstone(KvCell(cells', k))
      ensures KvCell(cells', k).value.time > cutoff && (KvCell(cells', k).value.time, k) in nodes'
    {
      if k != key || cells' == cells {
        assert KvCell(cells, k) == KvCell(cells', k);
      }
    }
  }

  // ------------------------------------------------------------- sweep of the key/value map

  ghost predicate Visited(visited: seq<(Time, Key)>, key: Key) {
    exists i :: 0 <= i < |visited| && visited[i].1 == key
  }

  lemma {:induction false} VisitedSnoc(visited: seq<(Time, Key)>, e: (Time, Key), key: Key)
    ensures Visited(visited + [e], key) <==> Visited(visited, key) || key == e.1
  {
    var next := visited + [e];
    assert next[|visited|] == e;
    assert forall i :: 0 <= i < |visited| ==> next[i] == visited[i];
  }

  /** Every visited key has forgotten an old tombstone; nothing else has changed. */
  ghost predicate KvSwept(cells: map<Key, Entry<Val>>, cells': map<Key, Entry<Val>>, visited: seq<(Time, Key)>,
          time: Time)
  {
    forall k :: KvCell(cells', k) ==
                if Visited(visited, k) then Forget(KvCell(cells, k), time) else KvCell(cells, k)
  }

  lemma {:induction false} KvSweptOneMore(cells: map<Key, Entry<Val>>, now: map<Key, Entry<Val>>,
          next: map<Key, Entry<Val>>, visited: seq<(Time, Key)>, e: (Time, Key), time: Time)
    requires KvSwept(cells, now, visited, time)
    requires next == if e.1 in now && now[e.1].payload.None? && now[e.1].time <= time then now - {e.1} else now
    ensures KvSwept(cells, next, visited + [e], time)
  {
    forall k
      ensures KvCell(next, k) ==
              if Visited(visited + [e], k) then Forget(KvCell(cells, k), time) else KvCell(cells, k)
    {
      VisitedSnoc(visited, e, k);
      assert KvCell(now, k) == if Visited(visited, k) then Forget(KvCell(cells, k), time) else KvCell(cells, k);
      assert KvCell(next, k) == if k == e.1 then Forget(KvCell(now, k), time) else KvCell(now, k);
    }
  }

  /** A sorted index in which every tombstone has its entry: visiting the entries up to `time`
      forgets every tombstone up to `time`, and the rest of the index serves the others. */
  lemma {:induction false} KvSweptAll(cells: map<Key, Entry<Val>>, cells': map<Key, Entry<Val>>,
          nodes: seq<(Time, Key)>, it: nat, cutoff: Time, log: seq<Op<Key, Val>>, time: Time)
    requires it <= |nodes| && KvInv(cells, nodes, cutoff, log)
    requires forall i :: 0 <= i < it ==> nodes[i].0 <= time
    requires it < |nodes| ==> nodes[it].0 > time
    requires KvSwept(cells, cells', nodes[..it], time)
    ensures KvInv(cells', nodes[it..], Max(cutoff, time), log + [Collect(time)])
  {
    CutoffSnoc(log, Collect(time));
    forall k ensures KvCell(cells', k) == Forget(KvCell(cells, k), time) {
      var cell := KvCell(cells, k);
      if IsTombstone(cell) && cell.value.time <= time {
        assert (cell.value.time, k) in nodes[..it];
      }
    }
    KvTracksOneMore(cells, cells', log, Collect(time));
    forall k | IsTombstone(KvCell(cells', k))
      ensures KvCell(cells', k).value.time > Max(cutoff, time)
      ensures (KvCell(cells', k).value.time, k) in nodes[it..]
    {
      assert KvCell(cells', k) == Forget(KvCell(cells, k), time);
      assert nodes == nodes[..it] + nodes[it..];
    }
  }

  // -------------------------------------------------------------------- writes to the set map

  /** The value set of a key in a read result; a key that was not found has no values. */
  function GetValueSet(result: map<Key, set<Val>>, key: Key): set<Val> {
    if key in result then result[key] else {}
  }

  /** The index has gained the given values of `key` at `time` and nothing else. */
  ghost predicate IndexGrew(index: SetIndex, index': SetIndex, time: Time, key: Key, values: seq<Val>) {
    forall t, k, v :: IndexHas(index', t, k, v) <==>
                      IndexHas(index, t, k, v) || (t == time && k == key && v in values)
  }

  lemma {:induction false} IndexAddHas(index: SetIndex, index': SetIndex, time: Time, key: Key, values: seq<Val>,
          value: Val)
    requires IndexGrew(index, index', time, key, values)
    ensures IndexGrew(index, IndexAdd(index', time, key, value), time, key, values + [value])
  {
    var next := IndexAdd(index', time, key, value);
    forall t, k, v
      ensures IndexHas(next, t, k, v) <==> IndexHas(index, t, k, v) || (t == time && k == key && v in values + [value])
    {
      assert IndexHas(next, t, k, v) <==> IndexHas(index', t, k, v) || (t == time && k == key && v == value);
    }
  }

  ghost predicate ChangedWithin(sets: map<Key, ValueMap>, sets': map<Key, ValueMap>, key: Key, values: seq<Val>) {
    forall v :: SetCell(sets', key, v) != SetCell(sets, key, v) ==> v in values
  }

  /** What a value offered with `meta` leaves in a cell. */
  function Offer(cell: Option<Entry<Present>>, meta: SetValueMeta): Option<Entry<Present>> {
    if cell.Some? && cell.value.time >= meta.lastLogicalCommitTime then cell else Some(MetaEntry(meta))
  }

  /** The values `done` of `key` have been offered with `meta`; nothing else has changed. */
  ghost predicate SetWrote(sets: map<Key, ValueMap>, sets': map<Key, ValueMap>, key: Key, done: seq<Val>,
          meta: SetValueMeta)
  {
    forall k, v :: SetCell(sets', k, v) ==
                   if k == key && v in done then Offer(SetCell(sets, k, v), meta) else SetCell(sets, k, v)
  }

  lemma {:induction false} SetWroteOneMore(sets: map<Key, ValueMap>, now: map<Key, ValueMap>,
          next: map<Key, ValueMap>, key: Key, done: seq<Val>, value: Val, meta: SetValueMeta)
    requires key in now && meta.lastLogicalCommitTime > 0
    requires SetWrote(sets, now, key, done, meta)
    requires next == now[key := now[key][value :=
                       var current := if value in now[key] then now[key][value] else SetValueMeta(0, false);
                       if current.lastLogicalCommitTime < meta.lastLogicalCommitTime then meta else current]]
    ensures SetWrote(sets, next, key, done + [value], meta)
  {
    forall k, v
      ensures SetCell(next, k, v) ==
              if k == key && v in done + [value] then Offer(SetCell(sets, k, v), meta) else SetCell(sets, k, v)
    {
      assert SetCell(now, k, v) ==
             if k == key && v in done then Offer(SetCell(sets, k, v), meta) else SetCell(sets, k, v);
    }
  }

  lemma {:induction false} SetNoEffect(sets: map<Key, ValueMap>, index: SetIndex, cutoff: Time,
          log: seq<Op<(Key, Val), Present>>, w: Op<(Key, Val), Present>)
    requires SetInv(sets, index, cutoff, log)
    requires w.Write? && (w.time <= cutoff || w.ids == {})
    ensures SetInv(sets, index, cutoff, log + [w])
  {
    CutoffSnoc(log, w);
    SetTracksOneMore(sets, sets, log, w);
  }

  lemma {:induction false} SetWriteKeeps(sets: map<Key, ValueMap>, sets': map<Key, ValueMap>, index: SetIndex,
          index': SetIndex, cutoff: Time, log: seq<Op<(Key, Val), Present>>, key: Key, values: seq<Val>,
          meta: SetValueMeta, marked: seq<Val>, w: Op<(Key, Val), Present>)
    requires SetInv(sets, index, cutoff, log)
    requires meta.lastLogicalCommitTime > cutoff
    requires NoEmptyValueMap(sets')
    requires SetWrote(sets, sets', key, values, meta)
    requires IndexGrew(index, index', meta.lastLogicalCommitTime, key, marked)
    requires meta.isDeleted ==> ChangedWithin(sets, sets', key, marked)
    requires w == Write(Pairs(key, values), MetaEntry(meta).payload, meta.lastLogicalCommitTime)
    ensures SetInv(sets', index', cutoff, log + [w])
  {
    CutoffSnoc(log, w);
    forall k, v ensures SetCell(sets', k, v) == CellStep(SetCell(sets, k, v), cutoff, w, (k, v)) {
      assert (k, v) in Pairs(key, values) <==> k == key && v in values;
    }
    SetTracksOneMore(sets, sets', log, w);
    forall k, v | IsTombstone(SetCell(sets', k, v))
      ensures SetCell(sets', k, v).value.time > cutoff
      ensures IndexHas(index', SetCell(sets', k, v).value.time, k, v)
    {
      if SetCell(sets', k, v) == SetCell(sets, k, v) {
        assert IndexHas(index, SetCell(sets, k, v).value.time, k, v);
      }
    }
  }

  // ------------------------------------------------------------------------ sweep of the set map

  function KeyMarks(key: Key, values: set<Val>): set<(Key, Val)> {
    set v | v in values :: (key, v)
  }

  function BucketMarks(bucket: map<Key, set<Val>>, keys: set<Key>): set<(Key, Val)> {
    set k, v | k in keys && k in bucket && v in bucket[k] :: (k, v)
  }

  function IndexMarks(index: SetIndex, times: set<Time>): set<(Key, Val)> {
    set t, k, v | t in times && t in index && k in index[t] && v in index[t][k] :: (k, v)
  }

  /** The marked cells have forgotten an old tombstone; nothing else has changed. */
  ghost predicate SetSwept(sets: map<Key, ValueMap>, sets': map<Key, ValueMap>, marks: set<(Key, Val)>, time: Time) {
    forall k, v :: SetCell(sets', k, v) ==
                   if (k, v) in marks then Forget(SetCell(sets, k, v), time) else SetCell(sets, k, v)
  }

  lemma {:induction false} SetSweptOneMore(sets: map<Key, ValueMap>, now: map<Key, ValueMap>,
          next: map<Key, ValueMap>, marks: set<(Key, Val)>, key: Key, value: Val, time: Time)
    requires key in now
    requires SetSwept(sets, now, marks, time)
    requires next == if value in now[key] && now[key][value].isDeleted && now[key][value].lastLogicalCommitTime <= time
                     then now[key := now[key] - {value}] else now
    ensures SetSwept(sets, next, marks + {(key, value)}, time)
  {
    forall k, v
      ensures SetCell(next, k, v) ==
              if (k, v) in marks + {(key, value)} then Forget(SetCell(sets, k, v), time) else SetCell(sets, k, v)
    {
      assert SetCell(now, k, v) == if (k, v) in marks then Forget(SetCell(sets, k, v), time) else SetCell(sets, k, v);
      assert SetCell(next, k, v) == if k == key && v == value then Forget(SetCell(now, k, v), time)
                                    else SetCell(now, k, v);
    }
  }

  lemma {:induction false} SetSweptMore(sets: map<Key, ValueMap>, now: map<Key, ValueMap>, next: map<Key, ValueMap>,
          a: set<(Key, Val)>, b: set<(Key, Val)>, time: Time)
    requires SetSwept(sets, now, a, time) && SetSwept(now, next, b, time)
    ensures SetSwept(sets, next, a + b, time)
  {
    forall k, v
      ensures SetCell(next, k, v) ==
              if (k, v) in a + b then Forget(SetCell(sets, k, v), time) else SetCell(sets, k, v)
    {
      assert SetCell(now, k, v) == if (k, v) in a then Forget(SetCell(sets, k, v), time) else SetCell(sets, k, v);
    }
  }

  /** When every tombstone is indexed at its own time, sweeping the buckets up to `time`
      forgets every tombstone up to `time`, and the remaining buckets serve the others. */
  lemma {:induction false} SetSweptAll(sets: map<Key, ValueMap>, sets': map<Key, ValueMap>, index: SetIndex,
          cutoff: Time, log: seq<Op<(Key, Val), Present>>, time: Time)
    requires SetInv(sets, index, cutoff, log)
    requires NoEmptyValueMap(sets')
    requires SetSwept(sets, sets', IndexMarks(index, set t | t in index && t <= time), time)
    ensures SetInv(sets', index - (set t | t in index && t <= time), Max(cutoff, time), log + [Collect(time)])
  {
    var times := set t | t in index && t <= time;
    CutoffSnoc(log, Collect(time));
    forall k, v ensures SetCell(sets', k, v) == Forget(SetCell(sets, k, v), time) {
      var cell := SetCell(sets, k, v);
      if IsTombstone(cell) && cell.value.time <= time {
        assert IndexHas(index, cell.value.time, k, v);
      }
    }
    SetTracksOneMore(sets, sets', log, Collect(time));
    forall k, v | IsTombstone(SetCell(sets', k, v))
      ensures SetCell(sets', k, v).value.time > Max(cutoff, time)
      ensures IndexHas(index - times, SetCell(sets', k, v).value.time, k, v)
    {
      assert SetCell(sets', k, v) == Forget(SetCell(sets, k, v), time);
      assert IndexHas(index, SetCell(sets, k, v).value.time, k, v);
    }
  }
}
