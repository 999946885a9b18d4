/** What the delta file pipeline does to the cache: after every step of a run, the cache holds
the stream of the files loaded so far. */
module PipelineLoading {

  import opened Basics
  import opened Registers
  import opened KeyValueCaches
  import opened DataLoading
  import opened LoadingTheorems
  import opened ShardedDeployment
  import opened FileNames
  import opened DeltaFiles
  import opened DeltaPipeline

  /** The files of a bucket by name; a file does not change once it is there. */
  type Contents = string -> File

  function FilesEvents(server: Server, contents: Contents, names: seq<string>): seq<Event> {
    if names == [] then []
    else
      FilesEvents(server, contents, names[..|names| - 1])
      + ItemEvents(server, FileItem(contents(names[|names| - 1]), []))
  }

  /** The cache holds what came before, such as a snapshot, and then the files loaded so far. */
  ghost predicate CacheFollows(cache: KeyValueCache, server: Server, contents: Contents, before: seq<Event>,
          loaded: seq<string>)
    reads cache
  {
    Holds(cache, server, before + FilesEvents(server, contents, loaded))
  }

  lemma {:induction false} FilesEventsSnoc(server: Server, contents: Contents, before: seq<Event>, names: seq<string>,
          name: string, attempts: seq<Attempt>)
    ensures before + FilesEvents(server, contents, names + [name])
         == before + FilesEvents(server, contents, names) + ItemEvents(server, FileItem(contents(name), attempts))
  {
    assert (names + [name])[..|names|] == names;
  }

  /** Loads one more file, with as many attempts as it takes. */
  method LoadNamed(server: Server, contents: Contents, ghost before: seq<Event>, ghost loaded: seq<string>,
          name: string, attempts: seq<Attempt>, cache: KeyValueCache)
    requires cache.Valid() && CacheFollows(cache, server, contents, before, loaded)
    requires IsItem(server, FileItem(contents(name), attempts))
    modifies cache
    ensures cache.Valid() && CacheFollows(cache, server, contents, before, loaded + [name])
  {
    FilesEventsSnoc(server, contents, before, loaded, name, attempts);
    LoadFile(server, contents(name), attempts, cache, before + FilesEvents(server, contents, loaded));
  }

  /** An attempt at a file of the bucket, whose records do not conflict. */
  ghost predicate IsTry(contents: Contents, name: string, a: Attempt) {
    var file := contents(name);
    && !file.metadata.MetadataError? && AttemptAt(file, a)
    && ConflictFreeRecords(file.records, KvOp) && ConflictFreeRecords(file.records, SetOp)
  }

  predicate AllSucceed(server: Server, names: seq<string>, tries: string -> Attempt) {
    forall i :: 0 <= i < |names| ==> Succeeds(server, tries(names[i]))
  }

  ghost predicate AreTries(contents: Contents, names: seq<string>, tries: string -> Attempt) {
    forall i :: 0 <= i < |names| ==> IsTry(contents, names[i], tries(names[i]))
  }

  /** Loads files one after the other, each with one attempt, up to the first failure. */
  method LoadNames(server: Server, contents: Contents, ghost before: seq<Event>, names: seq<string>,
          tries: string -> Attempt, cache: KeyValueCache)
    returns (ok: bool)
    requires cache.Valid() && Holds(cache, server, before)
    requires AreTries(contents, names, tries)
    modifies cache
    ensures cache.Valid()
    ensures ok <==> AllSucceed(server, names, tries)
    ensures ok ==> CacheFollows(cache, server, contents, before, names)
  {
    assert before + FilesEvents(server, contents, []) == before;
    for i := 0 to |names|
      invariant cache.Valid() && CacheFollows(cache, server, contents, before, names[..i])
      invariant forall j :: 0 <= j < i ==> Succeeds(server, tries(names[j]))
    {
      assert names[..i + 1] == names[..i] + [names[i]];
      if !Succeeds(server, tries(names[i])) {
        var _ := LoadCacheWithDataFromFile(server, tries(names[i]), cache);
        return false;
      }
      LoadNamed(server, contents, before, names[..i], names[i], [tries(names[i])], cache);
    }
    assert names[..|names|] == names;
    return true;
  }

  /** Initialisation succeeds exactly if the load of every listed delta file does. The pipeline
      then starts in an initial state whose loaded files the cache holds. */
  method InitCache(server: Server, contents: Contents, ghost before: seq<Event>, start: string, bucket: set<string>,
          listing: seq<string>, tries: string -> Attempt, cache: KeyValueCache)
    returns (r: Result<Pipeline>)
    requires cache.Valid() && Holds(cache, server, before)
    requires IsListing(bucket, DELTA_PREFIX, start, listing)
    requires AreTries(contents, DeltasOf(listing), tries)
    modifies cache
    ensures cache.Valid()
    ensures r.Ok? <==> AllSucceed(server, DeltasOf(listing), tries)
    ensures r.Ok? ==> CacheFollows(cache, server, contents, before, r.value.loaded)
    ensures r.Ok? ==> Initialized(r.value) && r.value.start == start && r.value.bucket == bucket
  {
    var ok := LoadNames(server, contents, before, DeltasOf(listing), tries, cache);
    if !ok {
      return Error(INTERNAL);
    }
    r := Start(start, bucket, listing, _ => Ok(()));
  }

  lemma {:induction false} OtherStepsLoadNothing(s: Pipeline, s': Pipeline)
    requires Next(s, s') && !FinishLoad(s, s')
    ensures s'.loaded == s.loaded
  {
  }

  lemma {:induction false} NextOf(run: seq<Pipeline>, i: nat)
    requires IsRun(run) && 0 < i < |run|
    ensures Next(run[i - 1], run[i])
  {
    assert Next(run[i - 1], run[i - 1 + 1]);
  }

  /** The loads of a run: the attempts at the file that a step finishes. */
  ghost predicate AreLoads(server: Server, contents: Contents, run: seq<Pipeline>, loads: seq<seq<Attempt>>) {
    && |loads| == |run|
    && forall i :: 0 < i < |run| && FinishLoad(run[i - 1], run[i]) ==>
                     IsItem(server, FileItem(contents(run[i - 1].loading.value), loads[i]))
  }

  /** One step of a run, on the cache. */
  method PlayStep(server: Server, contents: Contents, ghost before: seq<Event>, s: Pipeline, s': Pipeline,
          attempts: seq<Attempt>, cache: KeyValueCache)
    requires cache.Valid() && CacheFollows(cache, server, contents, before, s.loaded) && Next(s, s')
    requires FinishLoad(s, s') ==> IsItem(server, FileItem(contents(s.loading.value), attempts))
    modifies cache
    ensures cache.Valid() && CacheFollows(cache, server, contents, before, s'.loaded)
  {
    if FinishLoad(s, s') {
      LoadNamed(server, contents, before, s.loaded, s.loading.value, attempts, cache);
    } else {
      OtherStepsLoadNothing(s, s');
    }
  }

  /** The cache follows every run of the pipeline: started with the files that initialisation
      loaded, and loading a file whenever the run finishes one, it holds at every moment what
      came before and the files loaded so far, which by then are in strictly ascending order. */
  method PlayRun(server: Server, contents: Contents, ghost before: seq<Event>, run: seq<Pipeline>,
          loads: seq<seq<Attempt>>, cache: KeyValueCache)
    requires IsRun(run) && AreLoads(server, contents, run, loads)
    requires cache.Valid() && CacheFollows(cache, server, contents, before, run[0].loaded)
    modifies cache
    ensures cache.Valid() && CacheFollows(cache, server, contents, before, run[|run| - 1].loaded)
    ensures Ascending(run[|run| - 1].loaded)
  {
    for i := 1 to |run|
      invariant cache.Valid() && CacheFollows(cache, server, contents, before, run[i - 1].loaded)
    {
      NextOf(run, i);
      PlayStep(server, contents, before, run[i - 1], run[i], loads[i], cache);
    }
    LoadsAreOrdered(run, |run| - 1);
  }
}
