/** Lookups across shards: keys are hashed to buckets, every shard gets one request, all
requests are padded to one length, and the answers are merged.

A cluster gives every shard the cache of its server. Encryption and transport are the
identity on success; `failures` says which remote requests fail in this call. The hash is
any function into the shard numbers, the codec any codec whose parser undoes its serialiser.
 */
module ShardedLookup {

  import opened Basics
  import opened Registers
  import opened KeyValueCaches
  import opened Query
  import opened StringPadder
  import opened Lookup

  datatype Codec = Codec(serialize: (seq<Key>, bool) -> Bytes, parse: Bytes -> Option<(seq<Key>, bool)>)

  datatype Cluster = Cluster(
    hash: (Key, int) -> int,
    codec: Codec,
    servers: seq<KeyValueCache>,
    current: int,
    clients: set<int>,
    failures: map<int, int>)
  {
    function NumShards(): int {
      |servers|
    }

    function ShardOf(key: Key): int {
      hash(key, |servers|)
    }

    predicate Fails(shard: int) {
      shard != current && shard in failures
    }

    predicate HasClients() {
      forall i :: 0 <= i < |servers| && i != current ==> i in clients
    }

    ghost predicate Valid()
      reads servers
    {
      && |servers| > 1
      && 0 <= current < |servers|
      && (forall k :: 0 <= ShardOf(k) < |servers|)
      && (forall keys, sets :: codec.parse(codec.serialize(keys, sets)) == Some((keys, sets)))
      && (forall i :: 0 <= i < |servers| ==> servers[i].Valid())
    }
  }

  ghost predicate NoDuplicates(keys: seq<Key>) {
    forall i, j :: 0 <= i < j < |keys| ==> keys[i] != keys[j]
  }

  function KeySet(keyList: seq<Key>): set<Key> {
    set k | k in keyList
  }

  /** Requests for any of these keys fit into an `int32` together with their length prefix. */
  ghost predicate Fits(codec: Codec, keys: set<Key>, lookupSets: bool) {
    forall ks: seq<Key> :: NoDuplicates(ks) && (forall k :: k in ks ==> k in keys) ==>
                           4 + |codec.serialize(ks, lookupSets)| <= MAX_INT32
  }

  // ------------------------------------------------------------------ building requests

  datatype ShardLookupInput = ShardLookupInput(keys: seq<Key>, request: Bytes, padding: int)

  /** Bucket `i` holds the keys that hash to shard `i`, each once. */
  ghost predicate AreBuckets(c: Cluster, keys: set<Key>, buckets: seq<seq<Key>>) {
    && |buckets| == c.NumShards()
    && (forall i :: 0 <= i < |buckets| ==> NoDuplicates(buckets[i]))
    && (forall i, k :: 0 <= i < |buckets| ==> (k in buckets[i] <==> k in keys && c.ShardOf(k) == i))
  }

  method BucketKeys(c: Cluster, keys: set<Key>) returns (buckets: seq<seq<Key>>)
    requires c.Valid()
    ensures AreBuckets(c, keys, buckets)
  {
    buckets := seq(|c.servers|, _ => []);
    var rest := keys;
    while rest != {}
      invariant rest <= keys
      invariant AreBuckets(c, keys - rest, buckets)
      decreases rest
    {
      var key :| key in rest;
      var shard := c.hash(key, |c.servers|);
      assert 0 <= c.ShardOf(key) < |c.servers|;
      BucketsOneMore(c, keys - rest, buckets, key);
      buckets := buckets[shard := buckets[shard] + [key]];
      assert keys - (rest - {key}) == keys - rest + {key};
      rest := rest - {key};
    }
    assert keys - rest == keys;
  }

  lemma {:induction false} BucketsOneMore(c: Cluster, keys: set<Key>, buckets: seq<seq<Key>>, key: Key)
    requires AreBuckets(c, keys, buckets) && key !in keys && 0 <= c.ShardOf(key) < |buckets|
    ensures AreBuckets(c, keys + {key}, buckets[c.ShardOf(key) := buckets[c.ShardOf(key)] + [key]])
  {
    var next := buckets[c.ShardOf(key) := buckets[c.ShardOf(key)] + [key]];
    forall i, k | 0 <= i < |next| ensures k in next[i] <==> k in keys + {key} && c.ShardOf(k) == i {
      assert k in buckets[i] <==> k in keys && c.ShardOf(k) == i;
    }
    forall i | 0 <= i < |next| ensures NoDuplicates(next[i]) {
      if i == c.ShardOf(key) {
        assert key !in buckets[i];
        assert forall j :: 0 <= j < |buckets[i]| ==> buckets[i][j] in buckets[i];
      }
    }
  }

  /** Paddings are not negative and bring every request to one length. */
  ghost predicate EvenLengths(inputs: seq<ShardLookupInput>) {
    && (forall i :: 0 <= i < |inputs| ==> inputs[i].padding >= 0)
    && (forall i, j :: 0 <= i < |inputs| && 0 <= j < |inputs| ==>
                       |inputs[i].request| + inputs[i].padding == |inputs[j].request| + inputs[j].padding)
  }

  method ComputePadding(inputs: seq<ShardLookupInput>) returns (padded: seq<ShardLookupInput>)
    requires forall i :: 0 <= i < |inputs| ==> 4 + |inputs[i].request| <= MAX_INT32
    ensures |padded| == |inputs|
    ensures forall i :: 0 <= i < |inputs| ==> padded[i] == inputs[i].(padding := padded[i].padding)
    ensures EvenLengths(padded)
    ensures forall i :: 0 <= i < |padded| ==> 4 + |padded[i].request| + padded[i].padding <= MAX_INT32
    ensures inputs != [] ==> exists i :: 0 <= i < |padded| && padded[i].padding == 0
  {
    var maxLength := 0;
    ghost var longest := 0;
    for i := 0 to |inputs|
      invariant maxLength >= 0 && 4 + maxLength <= MAX_INT32
      invariant i == 0 ==> maxLength == 0
      invariant forall j :: 0 <= j < i ==> |inputs[j].request| <= maxLength
      invariant i > 0 ==> 0 <= longest < i && |inputs[longest].request| == maxLength
    {
      if maxLength <= |inputs[i].request| {
        longest := i;
      }
      maxLength := Max(maxLength, |inputs[i].request|);
    }
    padded := inputs;
    for i := 0 to |inputs|
      invariant |padded| == |inputs|
      invariant forall j :: 0 <= j < i ==> padded[j] == inputs[j].(padding := maxLength - |inputs[j].request|)
      invariant forall j :: i <= j < |inputs| ==> padded[j] == inputs[j]
    {
      padded := padded[i := padded[i].(padding := maxLength - |padded[i].request|)];
    }
    if inputs != [] {
      assert padded[longest].padding == 0;
    }
  }

  ghost predicate AreInputs(c: Cluster, keys: set<Key>, lookupSets: bool, inputs: seq<ShardLookupInput>) {
    && |inputs| == c.NumShards()
    && (forall i, k :: 0 <= i < |inputs| ==> (k in inputs[i].keys <==> k in keys && c.ShardOf(k) == i))
    && (forall i :: 0 <= i < |inputs| ==> inputs[i].request == c.codec.serialize(inputs[i].keys, lookupSets))
    && (forall i :: 0 <= i < |inputs| ==> 4 + |inputs[i].request| + inputs[i].padding <= MAX_INT32)
    && EvenLengths(inputs)
  }

  method ShardKeys(c: Cluster, keys: set<Key>, lookupSets: bool) returns (inputs: seq<ShardLookupInput>)
    requires c.Valid() && Fits(c.codec, keys, lookupSets)
    ensures AreInputs(c, keys, lookupSets, inputs)
  {
    var buckets := BucketKeys(c, keys);
    inputs := [];
    for i := 0 to |buckets|
      invariant |inputs| == i
      invariant forall j :: 0 <= j < i ==> inputs[j].keys == buckets[j]
      invariant forall j :: 0 <= j < i ==> inputs[j].request == c.codec.serialize(buckets[j], lookupSets)
    {
      inputs := inputs + [ShardLookupInput(buckets[i], c.codec.serialize(buckets[i], lookupSets), 0)];
    }
    forall i | 0 <= i < |inputs| ensures 4 + |inputs[i].request| <= MAX_INT32 {
      assert forall k :: k in buckets[i] ==> k in keys;
    }
    inputs := ComputePadding(inputs);
  }

  /** The requests that leave the server all have one length, whatever keys they carry, and
      the receiver gets back exactly the keys meant for it. */
  lemma {:induction false} RequestsAreUniform(c: Cluster, keys: set<Key>, lookupSets: bool,
          inputs: seq<ShardLookupInput>, i: nat, j: nat)
    requires c.Valid() && AreInputs(c, keys, lookupSets, inputs) && i < |inputs| && j < |inputs|
    ensures |Padded(inputs[i].request, inputs[i].padding)| == |Padded(inputs[j].request, inputs[j].padding)|
    ensures var received := Unpadded(Padded(inputs[i].request, inputs[i].padding));
            received.Some? && c.codec.parse(received.value) == Some((inputs[i].keys, lookupSets))
  {
    assert |inputs[i].request| + inputs[i].padding == |inputs[j].request| + inputs[j].padding;
    UnpadUndoesPad(inputs[i].request, inputs[i].padding);
  }

  // ---------------------------------------------------------------------------- fan-out

  /** The answer for every key of a bucket, as its server gives it. */
  ghost predicate AnswersBucket(c: Cluster, shard: int, keys: seq<Key>, lookupSets: bool, response: Response)
    requires 0 <= shard < |c.servers|
    reads c.servers
  {
    && (forall k :: k in response <==> k in keys)
    && (!lookupSets ==> forall k :: k in keys ==> response[k] == ValueAnswer(c.servers[shard].kvLog, k))
    && (lookupSets ==> forall k :: k in keys ==> IsSetAnswer(c.servers[shard].setLog, k, response[k]))
  }

  /** One remote request: padded by the client, unpadded and parsed by the server. */
  method RemoteGetValues(c: Cluster, shard: int, ghost keys: seq<Key>, ghost lookupSets: bool, request: Bytes,
          padding: int)
    returns (result: Result<Response>)
    requires c.Valid() && 0 <= shard < |c.servers| && shard != c.current
    requires padding >= 0 && 4 + |request| + padding <= MAX_INT32
    requires request == c.codec.serialize(keys, lookupSets)
    ensures result.Ok? <==> !c.Fails(shard)
    ensures result.Error? ==> result.code == c.failures[shard]
    ensures result.Ok? ==> AnswersBucket(c, shard, keys, lookupSets, result.value)
  {
    var padded := Pad(request, padding);
    if shard in c.failures {
      return Error(c.failures[shard]);
    }
    UnpadUndoesPad(request, padding);
    var unpadded := Unpad(padded);
    if unpadded.None? {
      return Error(INTERNAL);
    }
    var parsed := c.codec.parse(unpadded.value);
    if parsed.None? {
      return Error(INTERNAL);
    }
    var response := GetPayload(c.servers[shard], parsed.value.1, parsed.value.0);
    return Ok(response);
  }

  /** A shard answers its whole bucket, or fails as a whole. */
  ghost predicate IsAnswer(c: Cluster, shard: int, keys: seq<Key>, lookupSets: bool, answer: Result<Response>)
    requires 0 <= shard < |c.servers|
    reads c.servers
  {
    && (answer.Ok? <==> !c.Fails(shard))
    && (answer.Error? ==> answer.code == c.failures[shard])
    && (answer.Ok? ==> AnswersBucket(c, shard, keys, lookupSets, answer.value))
  }

  ghost predicate AreAnswers(c: Cluster, inputs: seq<ShardLookupInput>, lookupSets: bool,
          answers: seq<Result<Response>>)
    requires |answers| <= |inputs| == |c.servers|
    reads c.servers
  {
    forall i :: 0 <= i < |answers| ==> IsAnswer(c, i, inputs[i].keys, lookupSets, answers[i])
  }

  lemma {:induction false} AnswersSnoc(c: Cluster, inputs: seq<ShardLookupInput>, lookupSets: bool,
          answers: seq<Result<Response>>, answer: Result<Response>)
    requires |answers| < |inputs| == |c.servers| && AreAnswers(c, inputs, lookupSets, answers)
    requires IsAnswer(c, |answers|, inputs[|answers|].keys, lookupSets, answer)
    ensures AreAnswers(c, inputs, lookupSets, answers + [answer])
  {
  }

  /** This shard answers from its own cache, every other one through its client. */
  method AskShard(c: Cluster, ghost keys: set<Key>, lookupSets: bool, inputs: seq<ShardLookupInput>, shard: nat)
    returns (answer: Result<Response>)
    requires c.Valid() && AreInputs(c, keys, lookupSets, inputs)
    requires shard < |c.servers|
    ensures IsAnswer(c, shard, inputs[shard].keys, lookupSets, answer)
  {
    var input := inputs[shard];
    if shard == c.current {
      var local := GetPayload(c.servers[shard], lookupSets, input.keys);
      return Ok(local);
    }
    answer := RemoteGetValues(c, shard, input.keys, lookupSets, input.request, input.padding);
  }

  /** Fails as a whole exactly when a remote shard has no client. */
  method GetLookupFutures(c: Cluster, ghost keys: set<Key>, lookupSets: bool, inputs: seq<ShardLookupInput>)
    returns (answers: Result<seq<Result<Response>>>)
    requires c.Valid() && AreInputs(c, keys, lookupSets, inputs)
    ensures answers.Ok? <==> c.HasClients()
    ensures answers.Error? ==> answers.code == INTERNAL
    ensures answers.Ok? ==> |answers.value| == |c.servers| && AreAnswers(c, inputs, lookupSets, answers.value)
  {
    var responses := [];
    for shard := 0 to |c.servers|
      invariant |responses| == shard
      invariant forall i :: 0 <= i < shard && i != c.current ==> i in c.clients
      invariant AreAnswers(c, inputs, lookupSets, responses)
    {
      if shard != c.current && shard !in c.clients {
        return Error(INTERNAL);
      }
      var answer := AskShard(c, keys, lookupSets, inputs, shard);
      AnswersSnoc(c, inputs, lookupSets, responses, answer);
      responses := responses + [answer];
    }
    return Ok(responses);
  }

  // ---------------------------------------------------------------------------- merging

  method UpdateResponse(keys: seq<Key>, answers: Response, response: Response) returns (updated: Response)
    ensures forall k :: k in updated <==> k in response || k in keys
    ensures forall k :: k in keys ==> updated[k] == if k in answers then answers[k] else Status(NOT_FOUND)
    ensures forall k :: k in response && k !in keys ==> updated[k] == response[k]
  {
    updated := response;
    for i := 0 to |keys|
      invariant forall k :: k in updated <==> k in response || k in keys[..i]
      invariant forall k :: k in keys[..i] ==> updated[k] == if k in answers then answers[k] else Status(NOT_FOUND)
      invariant forall k :: k in response && k !in keys[..i] ==> updated[k] == response[k]
    {
      var key := keys[i];
      updated := updated[key := if key in answers then answers[key] else Status(NOT_FOUND)];
    }
    assert keys[..|keys|] == keys;
  }

  method SetRequestFailed(keys: seq<Key>, response: Response) returns (updated: Response)
    ensures forall k :: k in updated <==> k in response || k in keys
    ensures forall k :: k in keys ==> updated[k] == Status(INTERNAL)
    ensures forall k :: k in response && k !in keys ==> updated[k] == response[k]
  {
    updated := response;
    for i := 0 to |keys|
      invariant forall k :: k in updated <==> k in response || k in keys[..i]
      invariant forall k :: k in keys[..i] ==> updated[k] == Status(INTERNAL)
      invariant forall k :: k in response && k !in keys[..i] ==> updated[k] == response[k]
    {
      updated := updated[keys[i] := Status(INTERNAL)];
    }
    assert keys[..|keys|] == keys;
  }

  /** What a client is told about a key: an internal error if the key's shard failed, and
      otherwise what the server of that shard holds. */
  ghost function ShardedValue(c: Cluster, key: Key): SingleLookupResult
    requires 0 <= c.ShardOf(key) < |c.servers|
    reads c.servers
  {
    if c.Fails(c.ShardOf(key)) then Status(INTERNAL) else ValueAnswer(c.servers[c.ShardOf(key)].kvLog, key)
  }

  ghost predicate Merged(c: Cluster, keys: set<Key>, upTo: int, response: Response)
    requires c.Valid()
    reads c.servers
  {
    && (forall k :: k in response <==> k in keys && c.ShardOf(k) < upTo)
    && (forall k :: k in response ==> response[k] == ShardedValue(c, k))
  }

  lemma {:induction false} MergedOneMore(c: Cluster, keys: set<Key>, shard: int, bucket: seq<Key>,
          response: Response, next: Response)
    requires c.Valid() && 0 <= shard < |c.servers| && Merged(c, keys, shard, response)
    requires forall k :: k in bucket <==> k in keys && c.ShardOf(k) == shard
    requires forall k :: k in next <==> k in response || k in bucket
    requires forall k :: k in bucket ==> next[k] == ShardedValue(c, k)
    requires forall k :: k in response && k !in bucket ==> next[k] == response[k]
    ensures Merged(c, keys, shard + 1, next)
  {
  }

  method MergeAnswers(c: Cluster, keys: set<Key>, inputs: seq<ShardLookupInput>, answers: seq<Result<Response>>)
    returns (response: Response)
    requires c.Valid() && AreInputs(c, keys, false, inputs)
    requires |answers| == |c.servers| && AreAnswers(c, inputs, false, answers)
    ensures forall k :: k in response <==> k in keys
    ensures forall k :: k in response ==> response[k] == ShardedValue(c, k)
  {
    response := map[];
    for shard := 0 to |c.servers|
      invariant Merged(c, keys, shard, response)
    {
      ghost var before := response;
      if answers[shard].Error? {
        response := SetRequestFailed(inputs[shard].keys, response);
      } else {
        response := UpdateResponse(inputs[shard].keys, answers[shard].value, response);
      }
      MergedOneMore(c, keys, shard, inputs[shard].keys, before, response);
    }
  }

  /** One entry per distinct key, or an internal error when a remote shard has no client. */
  method GetKeyValues(c: Cluster, keyList: seq<Key>) returns (result: Result<Response>)
    requires c.Valid() && Fits(c.codec, KeySet(keyList), false)
    ensures keyList == [] ==> result == Ok(map[])
    ensures keyList != [] ==> (result.Ok? <==> c.HasClients())
    ensures result.Error? ==> result.code == INTERNAL
    ensures result.Ok? ==> forall k :: k in result.value <==> k in keyList
    ensures result.Ok? ==> forall k :: k in result.value ==> result.value[k] == ShardedValue(c, k)
    ensures result.Ok? ==> forall k :: k in keyList && c.Fails(c.ShardOf(k)) ==> result.value[k] == Status(INTERNAL)
    ensures result.Ok? ==> forall k :: k in keyList && !c.Fails(c.ShardOf(k)) ==>
              var held := Register(c.servers[c.ShardOf(k)].kvLog, k);
              && (result.value[k] == Status(NOT_FOUND) <==> held.None? || held.value.payload.None?)
              && (held.Some? && held.value.payload.Some? ==> result.value[k] == Value(held.value.payload.value))
  {
    var keys := KeySet(keyList);
    assert keyList != [] ==> keyList[0] in keys;
    if keys == {} {
      return Ok(map[]);
    }
    var inputs := ShardKeys(c, keys, false);
    var answers := GetLookupFutures(c, keys, false, inputs);
    if answers.Error? {
      return Error(answers.code);
    }
    var response := MergeAnswers(c, keys, inputs, answers.value);
    return Ok(response);
  }

  // ------------------------------------------------------------------------------- sets

  /** Collects the sets of one answer; a status means that the key was not found. */
  method CollectKeySets(keySets: map<Key, set<Val>>, answer: Response) returns (collected: map<Key, set<Val>>)
    ensures forall k :: k in collected <==> k in keySets || (k in answer && answer[k].KeysetValues?)
    ensures forall k :: k in collected ==>
              collected[k] == if k in answer && answer[k].KeysetValues? then answer[k].values else keySets[k]
  {
    collected := keySets;
    var rest := answer.Keys;
    while rest != {}
      invariant rest <= answer.Keys
      invariant forall k :: k in collected <==> k in keySets || (k in answer.Keys - rest && answer[k].KeysetValues?)
      invariant forall k :: k in collected ==>
                  collected[k] == if k in answer.Keys - rest && answer[k].KeysetValues? then answer[k].values
                                  else keySets[k]
      decreases rest
    {
      var key :| key in rest;
      if answer[key].KeysetValues? {
        collected := collected[key := answer[key].values];
      }
      rest := rest - {key};
    }
  }

  /** The sets collected from the first shards hold the live values of their keys. */
  ghost predicate CollectedSets(c: Cluster, keys: set<Key>, upTo: int, keySets: map<Key, set<Val>>)
    requires c.Valid()
    reads c.servers
  {
    && (forall k :: k in keySets ==> k in keys && c.ShardOf(k) < upTo && keySets[k] != {})
    && (forall k :: k in keys && c.ShardOf(k) < upTo ==>
                    IsLiveSet(c.servers[c.ShardOf(k)].setLog, k, GetValueSet(keySets, k)))
  }

  lemma {:induction false} CollectedOneMore(c: Cluster, keys: set<Key>, shard: int, bucket: seq<Key>,
          keySets: map<Key, set<Val>>, answer: Response, next: map<Key, set<Val>>)
    requires c.Valid() && 0 <= shard < |c.servers| && CollectedSets(c, keys, shard, keySets)
    requires forall k :: k in bucket <==> k in keys && c.ShardOf(k) == shard
    requires AnswersBucket(c, shard, bucket, true, answer)
    requires forall k :: k in next <==> k in keySets || (k in answer && answer[k].KeysetValues?)
    requires forall k :: k in next ==>
               next[k] == if k in answer && answer[k].KeysetValues? then answer[k].values else keySets[k]
    ensures CollectedSets(c, keys, shard + 1, next)
  {
    forall k | k in keys && c.ShardOf(k) < shard + 1
      ensures IsLiveSet(c.servers[c.ShardOf(k)].setLog, k, GetValueSet(next, k))
    {
      if c.ShardOf(k) == shard {
        assert k in bucket;
        var values :| IsLiveSet(c.servers[shard].setLog, k, values) && answer[k] == SetAnswer(values);
        assert GetValueSet(next, k) == values;
      } else {
        assert k !in answer;
        assert GetValueSet(next, k) == GetValueSet(keySets, k);
      }
    }
  }

  /** Adds the sets of one shard, or passes its error on. */
  method CollectShard(c: Cluster, ghost keys: set<Key>, ghost inputs: seq<ShardLookupInput>,
          answers: seq<Result<Response>>, shard: nat, keySets: map<Key, set<Val>>)
    returns (next: Result<map<Key, set<Val>>>)
    requires c.Valid() && AreInputs(c, keys, true, inputs)
    requires |answers| == |c.servers| && AreAnswers(c, inputs, true, answers)
    requires shard < |c.servers| && CollectedSets(c, keys, shard, keySets)
    ensures next.Ok? <==> !c.Fails(shard)
    ensures next.Error? ==> next.code == c.failures[shard]
    ensures next.Ok? ==> CollectedSets(c, keys, shard + 1, next.value)
  {
    if answers[shard].Error? {
      return Error(answers[shard].code);
    }
    var collected := CollectKeySets(keySets, answers[shard].value);
    CollectedOneMore(c, keys, shard, inputs[shard].keys, keySets, answers[shard].value, collected);
    return Ok(collected);
  }

  predicate IsFirstFailure(c: Cluster, shard: int, code: int) {
    && 0 <= shard < |c.servers| && c.Fails(shard) && code == c.failures[shard]
    && forall j :: 0 <= j < shard ==> !c.Fails(j)
  }

  /** The sets of all shards, or the error of the first one that failed. */
  method CollectShards(c: Cluster, ghost keys: set<Key>, ghost inputs: seq<ShardLookupInput>,
          answers: seq<Result<Response>>)
    returns (result: Result<map<Key, set<Val>>>)
    requires c.Valid() && AreInputs(c, keys, true, inputs)
    requires |answers| == |c.servers| && AreAnswers(c, inputs, true, answers)
    ensures result.Ok? <==> !AnyFails(c)
    ensures result.Error? ==> exists i :: IsFirstFailure(c, i, result.code)
    ensures result.Ok? ==> CollectedSets(c, keys, |c.servers|, result.value)
  {
    var keySets: map<Key, set<Val>> := map[];
    for shard := 0 to |c.servers|
      invariant CollectedSets(c, keys, shard, keySets)
      invariant forall i :: 0 <= i < shard ==> !c.Fails(i)
    {
      var next := CollectShard(c, keys, inputs, answers, shard, keySets);
      if next.Error? {
        assert IsFirstFailure(c, shard, next.code);
        return next;
      }
      keySets := next.value;
    }
    return Ok(keySets);
  }

  predicate AnyFails(c: Cluster) {
    exists i :: 0 <= i < |c.servers| && c.Fails(i)
  }

  /** Unlike values, sets are all or nothing: one failed shard, even one that was asked for no
      key, fails the lookup. */
  method GetShardedKeyValueSet(c: Cluster, keys: set<Key>) returns (result: Result<map<Key, set<Val>>>)
    requires c.Valid() && Fits(c.codec, keys, true)
    ensures result.Ok? <==> c.HasClients() && !AnyFails(c)
    ensures result.Error? && c.HasClients() ==> exists i :: IsFirstFailure(c, i, result.code)
    ensures result.Error? && !c.HasClients() ==> result.code == INTERNAL
    ensures result.Ok? ==> forall k :: k in keys ==>
              IsLiveSet(c.servers[c.ShardOf(k)].setLog, k, GetValueSet(result.value, k))
    ensures result.Ok? ==> forall k :: k in result.value ==> k in keys && result.value[k] != {}
  {
    var inputs := ShardKeys(c, keys, true);
    var answers := GetLookupFutures(c, keys, true, inputs);
    if answers.Error? {
      return Error(answers.code);
    }
    result := CollectShards(c, keys, inputs, answers.value);
  }

  method GetKeyValueSet(c: Cluster, keys: set<Key>) returns (result: Result<Response>)
    requires c.Valid() && Fits(c.codec, keys, true)
    ensures keys == {} ==> result == Ok(map[])
    ensures keys != {} ==> (result.Ok? <==> c.HasClients() && !AnyFails(c))
    ensures result.Ok? ==> result.value.Keys == keys
    ensures result.Ok? ==> forall k :: k in keys ==> IsSetAnswer(c.servers[c.ShardOf(k)].setLog, k, result.value[k])
    ensures result.Ok? ==> forall k :: k in keys ==>
              (result.value[k] == Status(NOT_FOUND) <==>
               forall v :: var held := Register(c.servers[c.ShardOf(k)].setLog, (k, v));
                           held.None? || held.value.payload.None?)
    ensures result.Ok? ==> forall k, v :: k in keys && result.value[k] != Status(NOT_FOUND) ==>
              var held := Register(c.servers[c.ShardOf(k)].setLog, (k, v));
              && result.value[k].KeysetValues?
              && (v in result.value[k].values <==> held.Some? && held.value.payload.Some?)
  {
    if keys == {} {
      return Ok(map[]);
    }
    var fetched := GetShardedKeyValueSet(c, keys);
    if fetched.Error? {
      return Error(fetched.code);
    }
    var response: Response := map[];
    var rest := keys;
    while rest != {}
      invariant rest <= keys
      invariant response.Keys == keys - rest
      invariant forall k :: k in keys - rest ==> IsSetAnswer(c.servers[c.ShardOf(k)].setLog, k, response[k])
      decreases rest
    {
      var key :| key in rest;
      var answer := if key in fetched.value then KeysetValues(fetched.value[key]) else Status(NOT_FOUND);
      assert answer == SetAnswer(GetValueSet(fetched.value, key));
      response := response[key := answer];
      rest := rest - {key};
    }
    forall k | k in keys {
      SetAnswerMeans(c.servers[c.ShardOf(k)].setLog, k, response[k]);
    }
    return Ok(response);
  }

  // ---------------------------------------------------------------------------- queries

  /** The query evaluates to the set algebra of its tree over the live values that the shards
      hold, whatever function `lookup` gives them. */
  method RunQuery(c: Cluster, parsed: Parsed) returns (result: Result<set<Val>>)
    requires c.Valid() && (parsed.Tree? ==> Fits(c.codec, LeafKeys(parsed.root), true))
    ensures parsed.EmptyQuery? ==> result == Ok({})
    ensures parsed.SyntaxError? ==> result == Error(INVALID_ARGUMENT)
    ensures parsed.Tree? ==> (result.Ok? <==> c.HasClients() && !AnyFails(c))
    ensures parsed.Tree? && result.Ok? ==>
              forall lookup: Key -> set<Val> ::
                (forall k :: k in LeafKeys(parsed.root) ==>
                             IsLiveSet(c.servers[c.ShardOf(k)].setLog, k, lookup(k))) ==>
                result.value == Meaning(parsed.root, lookup)
  {
    if parsed.EmptyQuery? {
      return Ok({});
    }
    if parsed.SyntaxError? {
      return Error(INVALID_ARGUMENT);
    }
    var keys := Keys(parsed.root);
    var fetched := GetShardedKeyValueSet(c, keys);
    if fetched.Error? {
      return Error(fetched.code);
    }
    var keySets := fetched.value;
    var lookupFn := (k: Key) => GetValueSet(keySets, k);
    var elements := Eval(parsed.root, lookupFn);
    forall lookup: Key -> set<Val>
      | forall k :: k in LeafKeys(parsed.root) ==> IsLiveSet(c.servers[c.ShardOf(k)].setLog, k, lookup(k))
      ensures elements == Meaning(parsed.root, lookup)
    {
      forall k | k in LeafKeys(parsed.root) ensures lookupFn(k) == lookup(k) {
        LiveSetsEqual(c.servers[c.ShardOf(k)].setLog, k, lookupFn(k), lookup(k));
      }
      MeaningReadsLeavesOnly(parsed.root, lookupFn, lookup);
    }
    return Ok(elements);
  }

  // ----------------------------------------------------------- one store instead of shards

  /** `single` shows, for every key, what the server of the key's shard shows. */
  ghost predicate IsUnion(c: Cluster, single: KeyValueCache)
    requires c.Valid()
    reads c.servers, single
  {
    && (forall k :: Visible(Register(single.kvLog, k)) == Visible(Register(c.servers[c.ShardOf(k)].kvLog, k)))
    && (forall k, v :: Visible(Register(single.setLog, (k, v))) ==
                       Visible(Register(c.servers[c.ShardOf(k)].setLog, (k, v))))
  }

  /** The answer of the cluster for a key, next to that of one server with all the data. */
  predicate AnswersAs(c: Cluster, k: Key, sharded: SingleLookupResult, local: SingleLookupResult) {
    sharded == if c.Fails(c.ShardOf(k)) then Status(INTERNAL) else local
  }

  /** The cluster answers every lookup as one server that holds the data of all shards, except
      that the keys of failed shards are marked. */
  method LookupEqualsUnion(c: Cluster, single: KeyValueCache, keyList: seq<Key>)
    returns (sharded: Result<Response>, local: Response)
    requires c.Valid() && single.Valid() && IsUnion(c, single)
    requires c.HasClients() && Fits(c.codec, KeySet(keyList), false)
    ensures sharded.Ok? && sharded.value.Keys == local.Keys == KeySet(keyList)
    ensures forall k :: k in keyList ==> AnswersAs(c, k, sharded.value[k], local[k])
    ensures !AnyFails(c) ==> sharded == Ok(local)
  {
    sharded := GetKeyValues(c, keyList);
    local := ProcessKeys(single, keyList);
    forall k | k in keyList ensures AnswersAs(c, k, sharded.value[k], local[k]) {
      assert k in sharded.value && k in local;
    }
    assert !AnyFails(c) ==> sharded.value == local by {
      assert forall k :: k in keyList ==> c.Fails(c.ShardOf(k)) ==> AnyFails(c);
    }
  }

  /** Likewise for sets, which are all or nothing. */
  method SetsEqualUnion(c: Cluster, single: KeyValueCache, keys: set<Key>)
    returns (sharded: Result<Response>, local: Response)
    requires c.Valid() && single.Valid() && IsUnion(c, single)
    requires c.HasClients() && !AnyFails(c) && Fits(c.codec, keys, true)
    ensures sharded == Ok(local)
  {
    sharded := GetKeyValueSet(c, keys);
    local := ProcessKeysetKeys(single, keys);
    UnionResponses(c, single, keys, sharded.value, local);
  }

  lemma {:induction false} UnionResponses(c: Cluster, single: KeyValueCache, keys: set<Key>, x: Response, y: Response)
    requires c.Valid() && IsUnion(c, single) && x.Keys == y.Keys == keys
    requires forall k :: k in keys ==> IsSetAnswer(c.servers[c.ShardOf(k)].setLog, k, x[k])
    requires forall k :: k in keys ==> IsSetAnswer(single.setLog, k, y[k])
    ensures x == y
  {
    forall k | k in keys ensures x[k] == y[k] {
      UnionSetAnswers(c, single, k, x[k], y[k]);
    }
  }

  lemma {:induction false} SetAnswersEqual(a: SetLog, b: SetLog, k: Key, x: SingleLookupResult, y: SingleLookupResult)
    requires forall v :: Visible(Register(a, (k, v))) == Visible(Register(b, (k, v)))
    requires IsSetAnswer(a, k, x) && IsSetAnswer(b, k, y)
    ensures x == y
  {
    var values :| IsLiveSet(a, k, values) && x == SetAnswer(values);
    var values' :| IsLiveSet(b, k, values') && y == SetAnswer(values');
    assert IsLiveSet(a, k, values');
    LiveSetsEqual(a, k, values, values');
  }

  lemma {:induction false} UnionSetAnswers(c: Cluster, single: KeyValueCache, k: Key, x: SingleLookupResult,
          y: SingleLookupResult)
    requires c.Valid() && IsUnion(c, single)
    requires IsSetAnswer(c.servers[c.ShardOf(k)].setLog, k, x) && IsSetAnswer(single.setLog, k, y)
    ensures x == y
  {
    SetAnswersEqual(c.servers[c.ShardOf(k)].setLog, single.setLog, k, x, y);
  }

  lemma {:induction false} UnionLiveSets(c: Cluster, single: KeyValueCache, k: Key, values: set<Val>)
    requires c.Valid() && IsUnion(c, single)
    ensures IsLiveSet(single.setLog, k, values) <==> IsLiveSet(c.servers[c.ShardOf(k)].setLog, k, values)
  {
  }

  /** Likewise for queries: the cluster and the one server agree on every query but the empty
      one. */
  method QueryEqualsUnion(c: Cluster, single: KeyValueCache, parsed: Parsed)
    returns (sharded: Result<set<Val>>, local: Result<set<Val>>)
    requires c.Valid() && single.Valid() && IsUnion(c, single)
    requires c.HasClients() && !AnyFails(c) && (parsed.Tree? ==> Fits(c.codec, LeafKeys(parsed.root), true))
    ensures sharded == local <==> !parsed.EmptyQuery?
    ensures parsed.Tree? ==> sharded.Ok?
  {
    sharded := RunQuery(c, parsed);
    local := ProcessQuery(single, parsed);
    if parsed.Tree? {
      var found := single.GetKeyValueSet(LeafKeys(parsed.root));
      var lookup := (k: Key) => GetValueSet(found, k);
      forall k | k in LeafKeys(parsed.root)
        ensures IsLiveSet(single.setLog, k, lookup(k))
        ensures IsLiveSet(c.servers[c.ShardOf(k)].setLog, k, lookup(k))
      {
        UnionLiveSets(c, single, k, lookup(k));
      }
      assert local.value == Meaning(parsed.root, lookup);
      assert sharded.value == Meaning(parsed.root, lookup);
    }
  }
}
