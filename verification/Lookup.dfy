/** Lookups in the cache of one server, local or on behalf of another shard.

Answers are specified by the histories of the cache, through the reference semantics.
 */
module Lookup {

  import opened Basics
  import opened Registers
  import opened KeyValueCaches
  import opened Query

  /** The repeated field of set values comes from a hash set; its order carries no meaning. */
  datatype SingleLookupResult =
    | Value(value: Val)
    | Status(code: int)
    | KeysetValues(values: set<Val>)

  type Response = map<Key, SingleLookupResult>

  type KvLog = seq<Op<Key, Val>>
  type SetLog = seq<Op<(Key, Val), Present>>

  /** The answer of a store with this history for one key. */
  function ValueAnswer(log: KvLog, key: Key): SingleLookupResult {
    var visible := Visible(Register(log, key));
    if visible.Some? then Value(visible.value) else Status(NOT_FOUND)
  }

  /** `values` are the values that a store with this history holds for a key. */
  ghost predicate IsLiveSet(log: SetLog, key: Key, values: set<Val>) {
    forall v :: v in values <==> Visible(Register(log, (key, v))).Some?
  }

  function SetAnswer(values: set<Val>): SingleLookupResult {
    if values == {} then Status(NOT_FOUND) else KeysetValues(values)
  }

  /** `answer` is the answer of a store with this history for a key of sets. */
  ghost predicate IsSetAnswer(log: SetLog, key: Key, answer: SingleLookupResult) {
    exists values :: IsLiveSet(log, key, values) && answer == SetAnswer(values)
  }

  lemma {:induction false} LiveSetsEqual(log: SetLog, key: Key, a: set<Val>, b: set<Val>)
    requires IsLiveSet(log, key, a) && IsLiveSet(log, key, b)
    ensures a == b
  {
    assert forall v :: v in a <==> v in b;
  }

  /** Not found exactly if no value of the key is live, and otherwise exactly the live ones. */
  lemma {:induction false} SetAnswerMeans(log: SetLog, key: Key, answer: SingleLookupResult)
    requires IsSetAnswer(log, key, answer)
    ensures answer == Status(NOT_FOUND) <==>
            forall v :: Register(log, (key, v)).None? || Register(log, (key, v)).value.payload.None?
    ensures answer != Status(NOT_FOUND) ==>
              && answer.KeysetValues?
              && forall v :: v in answer.values <==>
                             Register(log, (key, v)).Some? && Register(log, (key, v)).value.payload.Some?
  {
    var values :| IsLiveSet(log, key, values) && answer == SetAnswer(values);
    if values != {} {
      var v :| v in values;
      assert Visible(Register(log, (key, v))).Some?;
    }
  }

  // --------------------------------------------------------------------- local lookup

  method ProcessKeys(cache: KeyValueCache, keys: seq<Key>) returns (response: Response)
    requires cache.Valid()
    ensures forall k :: k in response <==> k in keys
    ensures forall k :: k in response ==> response[k] == ValueAnswer(cache.kvLog, k)
    ensures forall k :: k in keys ==>
              (response[k] == Status(NOT_FOUND) <==>
               Register(cache.kvLog, k).None? || Register(cache.kvLog, k).value.payload.None?)
    ensures forall k :: k in keys && Register(cache.kvLog, k).Some? && Register(cache.kvLog, k).value.payload.Some? ==>
              response[k] == Value(Register(cache.kvLog, k).value.payload.value)
  {
    response := map[];
    if keys == [] {
      return;
    }
    var pairs := cache.GetKeyValuePairs(keys);
    for i := 0 to |keys|
      invariant forall k :: k in response <==> k in keys[..i]
      invariant forall k :: k in response ==> response[k] == ValueAnswer(cache.kvLog, k)
    {
      var key := keys[i];
      var result := if key in pairs then Value(pairs[key]) else Status(NOT_FOUND);
      assert result == ValueAnswer(cache.kvLog, key);
      response := response[key := result];
    }
  }

  method ProcessKeysetKeys(cache: KeyValueCache, keys: set<Key>) returns (response: Response)
    requires cache.Valid()
    ensures response.Keys == keys
    ensures forall k :: k in keys ==> IsSetAnswer(cache.setLog, k, response[k])
    ensures forall k :: k in keys ==>
              (response[k] == Status(NOT_FOUND) <==>
               forall v :: Register(cache.setLog, (k, v)).None? || Register(cache.setLog, (k, v)).value.payload.None?)
    ensures forall k, v :: k in keys && response[k] != Status(NOT_FOUND) ==>
              && response[k].KeysetValues?
              && (v in response[k].values <==>
                  Register(cache.setLog, (k, v)).Some? && Register(cache.setLog, (k, v)).value.payload.Some?)
  {
    response := map[];
    if keys == {} {
      return;
    }
    var found := cache.GetKeyValueSet(keys);
    var rest := keys;
    while rest != {}
      invariant rest <= keys
      invariant response.Keys == keys - rest
      invariant forall k :: k in keys - rest ==> IsSetAnswer(cache.setLog, k, response[k])
      decreases rest
    {
      var key :| key in rest;
      var values := GetValueSet(found, key);
      var result := if values == {} then Status(NOT_FOUND) else KeysetValues(values);
      assert IsLiveSet(cache.setLog, key, values) && result == SetAnswer(values);
      response := response[key := result];
      rest := rest - {key};
    }
    forall k | k in keys {
      SetAnswerMeans(cache.setLog, k, response[k]);
    }
  }

  /** `elements` is the meaning of a query over the live values of a store with this history,
      whatever function `lookup` gives them. */
  ghost predicate IsQueryAnswer(log: SetLog, root: Node, elements: set<Val>) {
    forall lookup: Key -> set<Val> ::
      (forall k :: k in LeafKeys(root) ==> IsLiveSet(log, k, lookup(k))) ==> elements == Meaning(root, lookup)
  }

  /** Evaluates a query on the cache. The code builds its answer to an empty query from an OK
      status, which the status library turns into an internal error. */
  method ProcessQuery(cache: KeyValueCache, parsed: Parsed) returns (result: Result<set<Val>>)
    requires cache.Valid()
    ensures parsed.EmptyQuery? ==> result == Error(INTERNAL)
    ensures parsed.SyntaxError? ==> result == Error(INVALID_ARGUMENT)
    ensures parsed.Tree? ==> result.Ok? && IsQueryAnswer(cache.setLog, parsed.root, result.value)
  {
    if parsed.EmptyQuery? {
      return Error(INTERNAL);
    }
    if parsed.SyntaxError? {
      return Error(INVALID_ARGUMENT);
    }
    var root := parsed.root;
    var keys := Keys(root);
    var found := cache.GetKeyValueSet(keys);
    var fetched := (k: Key) => GetValueSet(found, k);
    var elements := Eval(root, fetched);
    forall lookup: Key -> set<Val> | forall k :: k in LeafKeys(root) ==> IsLiveSet(cache.setLog, k, lookup(k))
      ensures elements == Meaning(root, lookup)
    {
      forall k | k in LeafKeys(root) ensures fetched(k) == lookup(k) {
        LiveSetsEqual(cache.setLog, k, fetched(k), lookup(k));
      }
      MeaningReadsLeavesOnly(root, fetched, lookup);
    }
    return Ok(elements);
  }

  // ------------------------------------------------------------- the remote side of a shard

  /** What a server answers to a request of another shard; an empty request has an empty answer. */
  method GetPayload(cache: KeyValueCache, lookupSets: bool, keys: seq<Key>) returns (response: Response)
    requires cache.Valid()
    ensures forall k :: k in response <==> k in keys
    ensures !lookupSets ==> forall k :: k in keys ==> response[k] == ValueAnswer(cache.kvLog, k)
    ensures lookupSets ==> forall k :: k in keys ==> IsSetAnswer(cache.setLog, k, response[k])
  {
    response := map[];
    if keys == [] {
      return;
    }
    if lookupSets {
      response := ProcessKeysetKeys(cache, set k | k in keys);
    } else {
      response := ProcessKeys(cache, keys);
    }
  }
}
