/** Loading files and real-time messages into the cache, with shard filtering and retries.

A file is a set of decoded records that the concurrent reader may deliver in any order. What
a server does to its cache is a sequence of events, in which the records of a real-time
message may come between those of a file, and its cache holds the histories that `StreamLog`
reads off that sequence.
 */
module DataLoading {

  import opened Basics
  import opened Registers
  import opened KeyValueCaches

  datatype RecordValue = StringValue(text: Val) | StringSet(values: seq<Val>) | UnsupportedValue

  datatype MutationType = Update | Delete | UnsupportedMutation

  datatype Record =
    | Mutation(kind: MutationType, key: Key, value: RecordValue, time: Time)
    | UserDefinedFunctionsConfig
    | UnsupportedRecord

  /** The shard a server belongs to. */
  datatype Server = Server(hash: (Key, int) -> int, shardNum: int, numShards: int)

  predicate ShouldProcessRecord(server: Server, record: Record)
    requires record.Mutation?
  {
    server.numShards <= 1 || server.hash(record.key, server.numShards) == server.shardNum
  }

  /** The record reaches the cache of the server. */
  predicate Applies(server: Server, record: Record) {
    && record.Mutation? && ShouldProcessRecord(server, record)
    && !record.kind.UnsupportedMutation? && !record.value.UnsupportedValue?
  }

  /** With more than one shard, every mutation is accepted by exactly one of them. */
  lemma {:induction false} ExactlyOneShardAccepts(hash: (Key, int) -> int, numShards: int, record: Record)
    requires numShards > 1 && record.Mutation?
    requires 0 <= hash(record.key, numShards) < numShards
    ensures exists i :: 0 <= i < numShards && ShouldProcessRecord(Server(hash, i, numShards), record)
                        && forall j :: ShouldProcessRecord(Server(hash, j, numShards), record) ==> j == i
  {
    assert ShouldProcessRecord(Server(hash, hash(record.key, numShards), numShards), record);
  }

  /** The operation of a record on one of the two maps, if it has one. */
  type OpOf<I(==), P> = Record -> Option<Op<I, P>>

  function KvOp(record: Record): Option<Op<Key, Val>> {
    match record
    case Mutation(Update, key, StringValue(text), time) => Some(Write({key}, Some(text), time))
    case Mutation(Delete, key, StringValue(_), time) => Some(Write({key}, None, time))
    case _ => None
  }

  function SetOp(record: Record): Option<Op<(Key, Val), Present>> {
    match record
    case Mutation(Update, key, StringSet(values), time) => Some(Write(Pairs(key, values), Some(Present), time))
    case Mutation(Delete, key, StringSet(values), time) => Some(Write(Pairs(key, values), None, time))
    case _ => None
  }

  // ----------------------------------------------------------------- histories of events

  /** `Apply` offers records of a file or of a real-time message to the cache. `CleanUp` ends
      the load of a file with the given records. */
  datatype Event = Apply(records: seq<Record>) | CleanUp(records: seq<Record>)

  function Ops<I, P>(server: Server, records: seq<Record>, opOf: OpOf<I, P>): seq<Op<I, P>> {
    if records == [] then []
    else
      var last := records[|records| - 1];
      Ops(server, records[..|records| - 1], opOf)
      + if Applies(server, last) && opOf(last).Some? then [opOf(last).value] else []
  }

  /** The largest commit time of the records that reached the cache, and at least 0. */
  function MaxTimestamp(server: Server, records: seq<Record>): Time {
    if records == [] then 0
    else
      var before := MaxTimestamp(server, records[..|records| - 1]);
      var last := records[|records| - 1];
      if Applies(server, last) then Max(before, last.time) else before
  }

  function EventLog<I, P>(server: Server, e: Event, opOf: OpOf<I, P>): seq<Op<I, P>> {
    match e
    case Apply(records) => Ops(server, records, opOf)
    case CleanUp(records) => [Collect(MaxTimestamp(server, records))]
  }

  function StreamLog<I, P>(server: Server, es: seq<Event>, opOf: OpOf<I, P>): seq<Op<I, P>> {
    if es == [] then []
    else StreamLog(server, es[..|es| - 1], opOf) + EventLog(server, es[|es| - 1], opOf)
  }

  lemma {:induction false} StreamLogSnoc<I, P>(server: Server, es: seq<Event>, e: Event, opOf: OpOf<I, P>)
    ensures StreamLog(server, es + [e], opOf) == StreamLog(server, es, opOf) + EventLog(server, e, opOf)
  {
    assert (es + [e])[..|es|] == es;
  }

  // ---------------------------------------------------------------------------- loading

  /** Unsupported mutations and values are errors that leave the cache alone. */
  method ApplyKeyValueMutationToCache(record: Record, cache: KeyValueCache, maxTimestamp: Time)
    returns (ok: bool, maxTimestamp': Time)
    requires record.Mutation? && cache.Valid()
    modifies cache
    ensures cache.Valid()
    ensures ok <==> !record.kind.UnsupportedMutation? && !record.value.UnsupportedValue?
    ensures cache.kvLog == old(cache.kvLog) + if KvOp(record).Some? then [KvOp(record).value] else []
    ensures cache.setLog == old(cache.setLog) + if SetOp(record).Some? then [SetOp(record).value] else []
    ensures maxTimestamp' == if ok then Max(maxTimestamp, record.time) else maxTimestamp
    ensures record.kind.Update? && record.value.StringValue? ==>
              && cache.kvLog == old(cache.kvLog) + [Write({record.key}, Some(record.value.text), record.time)]
              && cache.setLog == old(cache.setLog)
    ensures record.kind.Delete? && record.value.StringValue? ==>
              && cache.kvLog == old(cache.kvLog) + [Write({record.key}, None, record.time)]
              && cache.setLog == old(cache.setLog)
    ensures record.kind.Update? && record.value.StringSet? ==>
              && cache.setLog == old(cache.setLog) + [Write(set v | v in record.value.values :: (record.key, v),
                                                            Some(Present), record.time)]
              && cache.kvLog == old(cache.kvLog)
    ensures record.kind.Delete? && record.value.StringSet? ==>
              && cache.setLog == old(cache.setLog) + [Write(set v | v in record.value.values :: (record.key, v),
                                                            None, record.time)]
              && cache.kvLog == old(cache.kvLog)
    ensures !ok ==> cache.kvLog == old(cache.kvLog) && cache.setLog == old(cache.setLog)
  {
    maxTimestamp' := maxTimestamp;
    match record.kind
    case Update =>
      match record.value {
        case StringValue(text) => cache.UpdateKeyValue(record.key, text, record.time);
        case StringSet(values) => cache.UpdateKeyValueSet(record.key, values, record.time);
        case UnsupportedValue => return false, maxTimestamp;
      }
      return true, Max(maxTimestamp, record.time);
    case Delete =>
      match record.value {
        case StringValue(_) => cache.DeleteKey(record.key, record.time);
        case StringSet(values) => cache.DeleteValuesInSet(record.key, values, record.time);
        case UnsupportedValue => return false, maxTimestamp;
      }
      return true, Max(maxTimestamp, record.time);
    case UnsupportedMutation =>
      return false, maxTimestamp;
  }

  /** A write at `time` would be the newest of the register, and is not late. */
  predicate IsNewest<I, P>(log: seq<Op<I, P>>, id: I, time: Time) {
    time > Cutoff(log) && (Register(log, id).None? || Register(log, id).value.time < time)
  }

  /** Reads see a string record at once, if it is newer than what the cache has: an update gives
      the key its value, a delete takes the key away. */
  method ApplyAndLookup(record: Record, cache: KeyValueCache, keys: seq<Key>) returns (pairs: map<Key, Val>)
    requires record.Mutation? && record.value.StringValue? && cache.Valid() && record.key in keys
    requires IsNewest(cache.kvLog, record.key, record.time)
    modifies cache
    ensures cache.Valid()
    ensures record.kind.Update? ==> record.key in pairs && pairs[record.key] == record.value.text
    ensures record.kind.Delete? ==> record.key !in pairs
  {
    if !record.kind.UnsupportedMutation? {
      RegisterSnoc(cache.kvLog, Write({record.key}, if record.kind.Update? then Some(record.value.text) else None,
                                      record.time), record.key);
    }
    var _, _ := ApplyKeyValueMutationToCache(record, cache, 0);
    pairs := cache.GetKeyValuePairs(keys);
  }

  /** Likewise for the values of a set. */
  method ApplyAndLookupSet(record: Record, cache: KeyValueCache, v: Val) returns (values: set<Val>)
    requires record.Mutation? && record.value.StringSet? && cache.Valid() && v in record.value.values
    requires IsNewest(cache.setLog, (record.key, v), record.time)
    modifies cache
    ensures cache.Valid()
    ensures record.kind.Update? ==> v in values
    ensures record.kind.Delete? ==> v !in values
  {
    if !record.kind.UnsupportedMutation? {
      RegisterSnoc(cache.setLog, Write(set u | u in record.value.values :: (record.key, u),
                                       if record.kind.Update? then Some(Present) else None, record.time),
                   (record.key, v));
    }
    var _, _ := ApplyKeyValueMutationToCache(record, cache, 0);
    var found := cache.GetKeyValueSet({record.key});
    values := GetValueSet(found, record.key);
  }

  lemma {:induction false} OpsNext<I, P>(server: Server, log: seq<Op<I, P>>, records: seq<Record>, i: nat,
          opOf: OpOf<I, P>)
    requires i < |records|
    ensures log + Ops(server, records[..i + 1], opOf)
         == log + Ops(server, records[..i], opOf)
            + if Applies(server, records[i]) && opOf(records[i]).Some? then [opOf(records[i]).value] else []
  {
    assert records[..i + 1][..i] == records[..i];
  }

  /** Applies delivered records one by one; an error of a single record is not an error of
      the load. */
  method LoadCacheWithData(server: Server, records: seq<Record>, cache: KeyValueCache) returns (maxTimestamp: Time)
    requires cache.Valid()
    modifies cache
    ensures cache.Valid()
    ensures cache.kvLog == old(cache.kvLog) + Ops(server, records, KvOp)
    ensures cache.setLog == old(cache.setLog) + Ops(server, records, SetOp)
    ensures maxTimestamp == MaxTimestamp(server, records)
  {
    maxTimestamp := 0;
    for i := 0 to |records|
      invariant cache.Valid()
      invariant cache.kvLog == old(cache.kvLog) + Ops(server, records[..i], KvOp)
      invariant cache.setLog == old(cache.setLog) + Ops(server, records[..i], SetOp)
      invariant maxTimestamp == MaxTimestamp(server, records[..i])
    {
      var record := records[i];
      OpsNext(server, old(cache.kvLog), records, i, KvOp);
      OpsNext(server, old(cache.setLog), records, i, SetOp);
      assert records[..i + 1][..i] == records[..i];
      if record.Mutation? && ShouldProcessRecord(server, record) {
        var _, max := ApplyKeyValueMutationToCache(record, cache, maxTimestamp);
        maxTimestamp := max;
      }
    }
    assert records[..|records|] == records;
  }

  datatype Metadata = MetadataError | NoSharding | ShardNum(shard: int)

  /** One attempt to load a file: the records the reader delivered, and whether it got through. */
  datatype Attempt = Attempt(metadata: Metadata, delivered: seq<Record>, complete: bool)

  predicate Skips(server: Server, a: Attempt) {
    a.metadata.ShardNum? && a.metadata.shard != server.shardNum
  }

  predicate Succeeds(server: Server, a: Attempt) {
    !a.metadata.MetadataError? && (Skips(server, a) || a.complete)
  }

  function AttemptLog<I, P>(server: Server, a: Attempt, opOf: OpOf<I, P>): seq<Op<I, P>> {
    if a.metadata.MetadataError? || Skips(server, a) then []
    else Ops(server, a.delivered, opOf) + if a.complete then [Collect(MaxTimestamp(server, a.delivered))] else []
  }

  method LoadCacheWithDataFromFile(server: Server, a: Attempt, cache: KeyValueCache) returns (ok: bool)
    requires cache.Valid()
    modifies cache
    ensures cache.Valid()
    ensures ok == Succeeds(server, a)
    ensures cache.kvLog == old(cache.kvLog) + AttemptLog(server, a, KvOp)
    ensures cache.setLog == old(cache.setLog) + AttemptLog(server, a, SetOp)
    ensures a.metadata.MetadataError? ==> !ok && cache.kvLog == old(cache.kvLog) && cache.setLog == old(cache.setLog)
    ensures a.metadata.ShardNum? && a.metadata.shard != server.shardNum ==>
              ok && cache.kvLog == old(cache.kvLog) && cache.setLog == old(cache.setLog)
    ensures a.metadata.NoSharding? || a.metadata == ShardNum(server.shardNum) ==> ok == a.complete
    ensures (a.metadata.NoSharding? || a.metadata == ShardNum(server.shardNum)) && a.complete ==>
              && cache.kvLog == old(cache.kvLog)
                                + (Ops(server, a.delivered, KvOp) + [Collect(MaxTimestamp(server, a.delivered))])
              && cache.setLog == old(cache.setLog)
                                 + (Ops(server, a.delivered, SetOp) + [Collect(MaxTimestamp(server, a.delivered))])
  {
    if a.metadata.MetadataError? {
      return false;
    }
    if a.metadata.ShardNum? && a.metadata.shard != server.shardNum {
      return true;
    }
    var maxTimestamp := LoadCacheWithData(server, a.delivered, cache);
    if a.complete {
      cache.RemoveDeletedKeys(maxTimestamp);
    }
    return a.complete;
  }

  /** A file as every reader of it sees it. */
  datatype File = File(metadata: Metadata, records: seq<Record>)

  predicate SameRecords(a: seq<Record>, b: seq<Record>) {
    (forall r :: r in a ==> r in b) && (forall r :: r in b ==> r in a)
  }

  /** An attempt delivers records of the file in any order, all of them if it is complete. */
  predicate AttemptAt(file: File, a: Attempt) {
    && (a.metadata.MetadataError? || a.metadata == file.metadata)
    && (forall r :: r in a.delivered ==> r in file.records)
    && (a.complete ==> SameRecords(a.delivered, file.records))
  }

  /** A load of the file: attempts that fail, and a last one that succeeds. */
  ghost predicate IsLoadOf(server: Server, file: File, attempts: seq<Attempt>) {
    && |attempts| > 0 && Succeeds(server, attempts[|attempts| - 1])
    && (forall i :: 0 <= i < |attempts| - 1 ==> !Succeeds(server, attempts[i]))
    && (forall i :: 0 <= i < |attempts| ==> AttemptAt(file, attempts[i]))
  }

  function CleanAttempt(file: File): Attempt {
    Attempt(file.metadata, file.records, true)
  }

  function AttemptsLog<I, P>(server: Server, attempts: seq<Attempt>, opOf: OpOf<I, P>): seq<Op<I, P>> {
    if attempts == [] then []
    else AttemptsLog(server, attempts[..|attempts| - 1], opOf) + AttemptLog(server, attempts[|attempts| - 1], opOf)
  }

  lemma {:induction false} AttemptsLogNext<I, P>(server: Server, log: seq<Op<I, P>>, attempts: seq<Attempt>, i: nat,
          opOf: OpOf<I, P>)
    requires i < |attempts|
    ensures log + AttemptsLog(server, attempts[..i], opOf) + AttemptLog(server, attempts[i], opOf)
         == log + AttemptsLog(server, attempts[..i + 1], opOf)
  {
    assert attempts[..i + 1][..i] == attempts[..i];
    var before, last := AttemptsLog(server, attempts[..i], opOf), AttemptLog(server, attempts[i], opOf);
    assert log + (before + last) == log + before + last;
  }

  /** Repeats the load until an attempt succeeds. */
  method LoadUntilOk(server: Server, attempts: seq<Attempt>, cache: KeyValueCache)
    requires cache.Valid()
    requires |attempts| > 0 && Succeeds(server, attempts[|attempts| - 1])
    requires forall i :: 0 <= i < |attempts| - 1 ==> !Succeeds(server, attempts[i])
    modifies cache
    ensures cache.Valid()
    ensures cache.kvLog == old(cache.kvLog) + AttemptsLog(server, attempts, KvOp)
    ensures cache.setLog == old(cache.setLog) + AttemptsLog(server, attempts, SetOp)
  {
    var ok := false;
    var i := 0;
    while !ok
      invariant 0 <= i <= |attempts|
      invariant ok <==> i == |attempts|
      invariant cache.Valid()
      invariant cache.kvLog == old(cache.kvLog) + AttemptsLog(server, attempts[..i], KvOp)
      invariant cache.setLog == old(cache.setLog) + AttemptsLog(server, attempts[..i], SetOp)
      decreases |attempts| - i
    {
      AttemptsLogNext(server, old(cache.kvLog), attempts, i, KvOp);
      AttemptsLogNext(server, old(cache.setLog), attempts, i, SetOp);
      ok := LoadCacheWithDataFromFile(server, attempts[i], cache);
      i := i + 1;
    }
    assert attempts[..i] == attempts;
  }

  /** Starts a server on an empty cache and lets the events of a stream happen to it. */
  method LoadStream(server: Server, es: seq<Event>) returns (cache: KeyValueCache)
    ensures fresh(cache) && cache.Valid()
    ensures cache.kvLog == StreamLog(server, es, KvOp)
    ensures cache.setLog == StreamLog(server, es, SetOp)
  {
    cache := new KeyValueCache();
    for i := 0 to |es|
      invariant cache.Valid()
      invariant cache.kvLog == StreamLog(server, es[..i], KvOp)
      invariant cache.setLog == StreamLog(server, es[..i], SetOp)
    {
      assert es[..i + 1][..i] == es[..i];
      match es[i] {
        case Apply(records) =>
          var _ := LoadCacheWithData(server, records, cache);
        case CleanUp(records) =>
          cache.RemoveDeletedKeys(MaxTimestamp(server, records));
      }
    }
    assert es[..|es|] == es;
  }
}
