/** Every run of the delta file pipeline.

The watcher and the loader are threads of their own, and files come and go in the bucket at
any time. `Pipeline` is the state they share and `Next` one step of any of them.
 */
module DeltaPipeline {

  import opened Basics
  import opened FileNames
  import opened DeltaFiles

  // ------------------------------------------------------------------ the shared queue

  /** The watcher puts names in at the front; the loader takes them from the back. */
  class FileQueue {
    var unprocessedBasenames: seq<string>
    var lastKey: string

    /** Names in the order in which they will be taken. */
    function Waiting(): seq<string>
      reads this
    {
      Reversed(unprocessedBasenames)
    }

    method EnqueueNewFilesToProcess(basename: string)
      modifies `unprocessedBasenames
      ensures Waiting() == old(Waiting()) + [basename]
    {
      unprocessedBasenames := [basename] + unprocessedBasenames;
    }

    /** Woken up when a file waits or the server stops, takes the file that waits longest;
        nothing when the server stops. */
    method TakeFileToProcess(stop: bool) returns (basename: Option<string>)
      requires unprocessedBasenames != [] || stop
      modifies `unprocessedBasenames
      ensures basename.None? <==> stop
      ensures stop ==> Waiting() == old(Waiting())
      ensures !stop ==> [basename.value] + Waiting() == old(Waiting())
    {
      if stop {
        return None;
      }
      var last := |unprocessedBasenames| - 1;
      var name := unprocessedBasenames[last];
      ReversedSnoc(unprocessedBasenames[..last], name);
      assert unprocessedBasenames == unprocessedBasenames[..last] + [name];
      unprocessedBasenames := unprocessedBasenames[..last];
      return Some(name);
    }

    /** The watcher hands over the delta files of a listing and remembers the last one. */
    method DeliverListing(listing: seq<string>)
      modifies this
      ensures Waiting() == old(Waiting()) + DeltasOf(listing)
      ensures lastKey == LastOr(DeltasOf(listing), old(lastKey))
    {
      for i := 0 to |listing|
        invariant Waiting() == old(Waiting()) + DeltasOf(listing[..i])
        invariant lastKey == LastOr(DeltasOf(listing[..i]), old(lastKey))
      {
        var key := listing[i];
        assert listing[..i + 1] == listing[..i] + [key];
        DeltasOfSnoc(listing[..i], key);
        if IsDeltaFilename(key) {
          EnqueueNewFilesToProcess(key);
          lastKey := key;
        }
      }
      assert listing[..|listing|] == listing;
    }
  }

  // ----------------------------------------------------------------------------- steps

  /** `pending` is the part of the current listing that the watcher has still to walk through,
      `late` the files that turned up behind what had been listed. */
  datatype Pipeline = Pipeline(
    start: string,
    bucket: set<string>,
    pending: seq<string>,
    lastKey: string,
    queue: seq<string>,
    loading: Option<string>,
    loaded: seq<string>,
    late: set<string>)

  function Current(s: Pipeline): seq<string> {
    if s.loading.Some? then [s.loading.value] else []
  }

  /** Everything handed over so far, in the order of loading. */
  function Handed(s: Pipeline): seq<string> {
    s.loaded + Current(s) + Reversed(s.queue)
  }

  /** Everything listed so far, in the order of loading. */
  function Timeline(s: Pipeline): seq<string> {
    Handed(s) + DeltasOf(s.pending)
  }

  /** The last file listed so far. */
  function Horizon(s: Pipeline): string {
    LastOr(DeltasOf(s.pending), s.lastKey)
  }

  /** Initialisation loaded the first listing; the watcher goes on after its last file. */
  ghost predicate Initialized(s: Pipeline) {
    && (exists listing :: IsListing(s.bucket, DELTA_PREFIX, s.start, listing) && s.loaded == DeltasOf(listing))
    && s.lastKey == LastOr(s.loaded, s.start)
    && s.pending == [] && s.queue == [] && s.loading == None && s.late == {}
  }

  /** Initialisation, when it succeeds, leaves the pipeline in an initial state. */
  method Start(endingDeltaFile: string, bucket: set<string>, listing: seq<string>, loads: string -> Result<()>)
    returns (r: Result<Pipeline>)
    requires IsListing(bucket, DELTA_PREFIX, endingDeltaFile, listing)
    ensures r.Ok? <==> forall f :: f in DeltasOf(listing) ==> loads(f).Ok?
    ensures r.Ok? ==> Initialized(r.value) && r.value.start == endingDeltaFile && r.value.bucket == bucket
    ensures r.Ok? ==> r.value.loaded == DeltasOf(listing)
  {
    var last, loaded := Init(endingDeltaFile, listing, loads);
    if last.Error? {
      return Error(last.code);
    }
    return Ok(Pipeline(endingDeltaFile, bucket, [], last.value, [], None, loaded, {}));
  }

  /** The name belongs to the stream but is not ahead of what was listed. */
  predicate Behind(s: Pipeline, f: string) {
    IsDeltaFilename(f) && Less(s.start, f) && AtMost(f, Horizon(s)) && f !in Timeline(s)
  }

  function LateArrivals(s: Pipeline, bucket: set<string>): set<string> {
    set f | f in bucket && f !in s.bucket && Behind(s, f)
  }

  predicate BucketChanges(s: Pipeline, s': Pipeline) {
    s' == s.(bucket := s'.bucket, late := s.late + LateArrivals(s, s'.bucket))
  }

  ghost predicate ListBlobs(s: Pipeline, s': Pipeline) {
    && s.pending == []
    && IsListing(s.bucket, DELTA_PREFIX, s.lastKey, s'.pending)
    && s' == s.(pending := s'.pending)
  }

  predicate HandOver(s: Pipeline, s': Pipeline) {
    && s.pending != []
    && s' == if IsDeltaFilename(s.pending[0])
             then s.(pending := s.pending[1..], queue := [s.pending[0]] + s.queue, lastKey := s.pending[0])
             else s.(pending := s.pending[1..])
  }

  predicate TakeFile(s: Pipeline, s': Pipeline) {
    && s.loading.None? && s.queue != []
    && var last := |s.queue| - 1;
       s' == s.(queue := s.queue[..last],
                loading := if IsDeltaFilename(s.queue[last]) then Some(s.queue[last]) else None)
  }

  /** An attempt to load succeeds; failed attempts change nothing here. */
  predicate FinishLoad(s: Pipeline, s': Pipeline) {
    && s.loading.Some?
    && s' == s.(loading := None, loaded := s.loaded + [s.loading.value])
  }

  ghost predicate Next(s: Pipeline, s': Pipeline) {
    BucketChanges(s, s') || ListBlobs(s, s') || HandOver(s, s') || TakeFile(s, s') || FinishLoad(s, s')
  }

  ghost predicate IsRun(run: seq<Pipeline>) {
    && |run| > 0 && Initialized(run[0])
    && forall i :: 0 <= i < |run| - 1 ==> Next(run[i], run[i + 1])
  }

  // ------------------------------------------------------------------------- invariant

  /** Listed files are delta files after the start, in strictly ascending order. */
  ghost predicate InOrder(s: Pipeline) {
    && Ascending(Timeline(s))
    && forall f :: f in Timeline(s) ==> IsDeltaFilename(f) && Less(s.start, f)
  }

  /** The watcher continues after the last file it handed over. */
  ghost predicate Continues(s: Pipeline) {
    && s.lastKey == LastOr(Handed(s), s.start)
    && Ascending(s.pending)
  }

  /** A file of the stream up to the horizon was listed, or turned up late; never both. */
  ghost predicate Accounted(s: Pipeline) {
    && (forall f :: f in s.bucket && Behind(s, f) ==> f in s.late)
    && (forall f :: f in s.late ==> Behind(s, f))
  }

  ghost predicate Inv(s: Pipeline) {
    InOrder(s) && Continues(s) && Accounted(s)
  }

  lemma {:induction false} HorizonIsLast(s: Pipeline)
    requires Continues(s)
    ensures Horizon(s) == LastOr(Timeline(s), s.start)
  {
  }

  lemma {:induction false} InitializedInv(s: Pipeline)
    requires Initialized(s)
    ensures Inv(s)
  {
    var listing :| IsListing(s.bucket, DELTA_PREFIX, s.start, listing) && s.loaded == DeltasOf(listing);
    assert Timeline(s) == s.loaded;
    DeltasOfMembers(listing);
    DeltasOfAscending(listing);
    forall f | f in s.bucket ensures !Behind(s, f) {
      LessIsStrictOrder(s.start, f, s.start);
    }
  }

  /** Taking a file and finishing it move it along without changing the order. */
  lemma {:induction false} LoaderKeepsHanded(s: Pipeline, s': Pipeline)
    requires InOrder(s) && (TakeFile(s, s') || FinishLoad(s, s'))
    ensures Handed(s') == Handed(s)
  {
    if TakeFile(s, s') {
      var last := |s.queue| - 1;
      assert s.queue == s.queue[..last] + [s.queue[last]];
      ReversedSnoc(s.queue[..last], s.queue[last]);
      assert Timeline(s)[|s.loaded|] == s.queue[last];
      assert s.queue[last] in Timeline(s);
    }
  }

  lemma {:induction false} HandOverKeepsTimeline(s: Pipeline, s': Pipeline)
    requires Continues(s) && HandOver(s, s')
    ensures Timeline(s') == Timeline(s) && Continues(s')
  {
    if IsDeltaFilename(s.pending[0]) {
      assert Handed(s') == Handed(s) + [s.pending[0]];
    }
  }

  lemma {:induction false} MovesKeepInv(s: Pipeline, s': Pipeline)
    requires Inv(s) && (HandOver(s, s') || TakeFile(s, s') || FinishLoad(s, s'))
    ensures Inv(s') && Timeline(s') == Timeline(s)
  {
    if HandOver(s, s') {
      HandOverKeepsTimeline(s, s');
    } else {
      LoaderKeepsHanded(s, s');
    }
    HorizonIsLast(s);
    HorizonIsLast(s');
    assert forall f :: Behind(s', f) <==> Behind(s, f);
  }

  lemma {:induction false} BucketKeepsInv(s: Pipeline, s': Pipeline)
    requires Inv(s) && BucketChanges(s, s')
    ensures Inv(s') && Timeline(s') == Timeline(s)
  {
    assert forall f :: Behind(s', f) <==> Behind(s, f);
  }

  /** A listing appends names after everything listed before. */
  lemma {:induction false} ListingExtends(s: Pipeline, s': Pipeline)
    requires Inv(s) && ListBlobs(s, s')
    ensures Timeline(s') == Timeline(s) + DeltasOf(s'.pending)
    ensures InOrder(s') && Continues(s')
  {
    DeltasOfMembers(s'.pending);
    DeltasOfAscending(s'.pending);
    var before, new_ := Timeline(s), DeltasOf(s'.pending);
    assert before == Handed(s) == Handed(s');
    forall f | f in new_ ensures Less(s.start, f) {
      LessIsStrictOrder(s.start, s.lastKey, f);
    }
    forall i, j | 0 <= i < |before| && 0 <= j < |new_| ensures Less(before[i], new_[j]) {
      assert new_[j] in new_;
      LessIsStrictOrder(before[i], s.lastKey, new_[j]);
    }
  }

  /** What was behind stays behind, and nothing in the bucket that is still missing falls
      behind by a listing. */
  lemma {:induction false} ListingKeepsAccounts(s: Pipeline, s': Pipeline)
    requires Inv(s) && ListBlobs(s, s')
    ensures Accounted(s')
    ensures forall f :: f in s.bucket && IsDeltaFilename(f) && Less(s.start, f) ==>
                          (f in Timeline(s') <==> f !in s.late)
  {
    ListingExtends(s, s');
    DeltasOfMembers(s'.pending);
    HorizonIsLast(s);
    HorizonIsLast(s');
    forall f ensures Behind(s, f) ==> Behind(s', f) {
      LessIsStrictOrder(f, s.lastKey, Horizon(s'));
      LessIsStrictOrder(f, s.lastKey, f);
      if Behind(s, f) {
        assert f !in s'.pending;
        assert Horizon(s') == s.lastKey || Less(s.lastKey, Horizon(s'));
      }
    }
    forall f | f in s.bucket && IsDeltaFilename(f) && Less(s.start, f)
      ensures f in Timeline(s') <==> f !in s.late
    {
      LessIsStrictOrder(f, s.lastKey, f);
      assert DELTA_PREFIX <= f;
      assert Less(s.lastKey, f) ==> f in s'.pending;
      assert f in s.late ==> Behind(s', f);
    }
  }

  lemma {:induction false} NextKeepsInv(s: Pipeline, s': Pipeline)
    requires Inv(s) && Next(s, s')
    ensures Inv(s')
    ensures Timeline(s) <= Timeline(s') && s.loaded <= s'.loaded && s.late <= s'.late && s.start == s'.start
  {
    if ListBlobs(s, s') {
      ListingExtends(s, s');
      ListingKeepsAccounts(s, s');
    } else if BucketChanges(s, s') {
      BucketKeepsInv(s, s');
    } else {
      MovesKeepInv(s, s');
    }
  }

  // -------------------------------------------------------------------------- theorems

  lemma {:induction false} RunInv(run: seq<Pipeline>, i: nat)
    requires IsRun(run) && i < |run|
    ensures Inv(run[i]) && run[i].start == run[0].start
  {
    if i == 0 {
      InitializedInv(run[0]);
    } else {
      RunInv(run, i - 1);
      NextKeepsInv(run[i - 1], run[i]);
    }
  }

  /** Delta files are loaded in strictly ascending order of their names, so none twice, and
      only files after the snapshot's ending delta file. */
  lemma {:induction false} LoadsAreOrdered(run: seq<Pipeline>, i: nat)
    requires IsRun(run) && i < |run|
    ensures Ascending(run[i].loaded)
    ensures forall f :: f in run[i].loaded ==> IsDeltaFilename(f) && Less(run[0].start, f)
    ensures run[i].loaded <= Timeline(run[i])
  {
    RunInv(run, i);
    assert run[i].loaded <= Timeline(run[i]);
    assert forall j :: 0 <= j < |run[i].loaded| ==> Timeline(run[i])[j] == run[i].loaded[j];
  }

  predicate Extends(s: Pipeline, s': Pipeline) {
    Timeline(s) <= Timeline(s') && s.loaded <= s'.loaded && s.late <= s'.late
  }

  /** Nothing listed is ever lost or overtaken. */
  lemma {:induction false} HistoryOnlyGrows(run: seq<Pipeline>, i: nat, j: nat)
    requires IsRun(run) && i <= j < |run|
    ensures Extends(run[i], run[j])
    decreases j - i
  {
    if i < j {
      HistoryOnlyGrows(run, i, j - 1);
      RunInv(run, j - 1);
      NextKeepsInv(run[j - 1], run[j]);
      ExtendsTransitive(run[i], run[j - 1], run[j]);
    }
  }

  lemma {:induction false} ExtendsTransitive(a: Pipeline, b: Pipeline, c: Pipeline)
    requires Extends(a, b) && Extends(b, c)
    ensures Extends(a, c)
  {
  }

  /** A file that turned up late is never listed. */
  lemma {:induction false} LateFilesAreNeverListed(run: seq<Pipeline>, i: nat, j: nat, f: string)
    requires IsRun(run) && i <= j < |run| && f in run[i].late
    ensures f !in Timeline(run[j])
  {
    HistoryOnlyGrows(run, i, j);
    RunInv(run, j);
    assert Behind(run[j], f);
  }

  /** After a successful listing, a delta file in the bucket after the start has been listed
      if and only if it did not turn up late. */
  lemma {:induction false} ListingIsComplete(run: seq<Pipeline>, i: nat)
    requires IsRun(run) && i + 1 < |run| && ListBlobs(run[i], run[i + 1])
    ensures forall f :: f in run[i + 1].bucket && IsDeltaFilename(f) && Less(run[0].start, f) ==>
                          (f in Timeline(run[i + 1]) <==> f !in run[i + 1].late)
  {
    RunInv(run, i);
    ListingKeepsAccounts(run[i], run[i + 1]);
  }

  predicate NoLateArrival(s: Pipeline, s': Pipeline) {
    forall f :: f in s'.bucket && f !in s.bucket ==> !Behind(s, f)
  }

  /** Files turn up only ahead of what was listed. */
  ghost predicate Punctual(run: seq<Pipeline>) {
    forall i :: 0 <= i < |run| - 1 ==> NoLateArrival(run[i], run[i + 1])
  }

  /** If files turn up in order, a successful listing leaves no delta file behind. */
  lemma {:induction false} PunctualFilesAreListed(run: seq<Pipeline>, i: nat)
    requires IsRun(run) && Punctual(run) && i + 1 < |run| && ListBlobs(run[i], run[i + 1])
    ensures forall f :: f in run[i + 1].bucket && IsDeltaFilename(f) && Less(run[0].start, f) ==>
                          f in Timeline(run[i + 1])
  {
    NoneLate(run, i + 1);
    ListingIsComplete(run, i);
  }

  lemma {:induction false} NoneLate(run: seq<Pipeline>, i: nat)
    requires IsRun(run) && Punctual(run) && i < |run|
    ensures run[i].late == {}
  {
    if i > 0 {
      NoneLate(run, i - 1);
      var s, s' := run[i - 1], run[i];
      assert Next(s, s') && NoLateArrival(s, s');
      assert LateArrivals(s, s'.bucket) == {};
    }
  }

  /** Steps that the watcher and the loader still have to make. */
  function WorkLeft(s: Pipeline): nat {
    3 * |s.pending| + 2 * |s.queue| + |Current(s)|
  }

  /** While there is work, one of the two threads can step, and every step of theirs uses up
      work. */
  lemma {:induction false} ThreadsProgress(s: Pipeline) returns (s': Pipeline)
    requires WorkLeft(s) > 0
    ensures HandOver(s, s') || TakeFile(s, s') || FinishLoad(s, s')
    ensures forall t :: HandOver(s, t) || TakeFile(s, t) || FinishLoad(s, t) ==> WorkLeft(t) < WorkLeft(s)
  {
    if s.loading.Some? {
      s' := s.(loading := None, loaded := s.loaded + [s.loading.value]);
    } else if s.queue != [] {
      var last := |s.queue| - 1;
      s' := s.(queue := s.queue[..last],
               loading := if IsDeltaFilename(s.queue[last]) then Some(s.queue[last]) else None);
    } else if IsDeltaFilename(s.pending[0]) {
      s' := s.(pending := s.pending[1..], queue := [s.pending[0]] + s.queue, lastKey := s.pending[0]);
    } else {
      s' := s.(pending := s.pending[1..]);
    }
  }

  /** From every point of a run the two threads can finish their work, which loads everything
      listed, in order. */
  lemma {:induction false} WorkCanFinish(run: seq<Pipeline>) returns (longer: seq<Pipeline>)
    requires IsRun(run)
    ensures IsRun(longer) && run <= longer
    ensures longer[|longer| - 1].loaded == Timeline(run[|run| - 1])
    decreases WorkLeft(run[|run| - 1])
  {
    var s := run[|run| - 1];
    if WorkLeft(s) == 0 {
      return run;
    }
    var s' := RunProgresses(run);
    longer := WorkCanFinish(run + [s']);
    assert longer[..|run|] == run;
  }

  lemma {:induction false} RunProgresses(run: seq<Pipeline>) returns (s': Pipeline)
    requires IsRun(run) && WorkLeft(run[|run| - 1]) > 0
    ensures IsRun(run + [s'])
    ensures WorkLeft(s') < WorkLeft(run[|run| - 1]) && Timeline(s') == Timeline(run[|run| - 1])
  {
    RunInv(run, |run| - 1);
    s' := ThreadsProgress(run[|run| - 1]);
    MovesKeepInv(run[|run| - 1], s');
    RunSnoc(run, s');
  }

  lemma {:induction false} RunSnoc(run: seq<Pipeline>, s: Pipeline)
    requires IsRun(run) && Next(run[|run| - 1], s)
    ensures IsRun(run + [s])
  {
  }

  /** A step in which new files come after everything handed over so far. */
  ghost predicate TidyNext(s: Pipeline, s': Pipeline) {
    && Next(s, s')
    && forall f, g :: f in s'.bucket && f !in s.bucket && g in Handed(s) ==> Less(g, f)
  }

  function Listed(start: string, g: string): Pipeline {
    Pipeline(start, {g}, [g], start, [], None, [], {})
  }

  function Overtaken(start: string, f: string, g: string): Pipeline {
    Pipeline(start, {f, g}, [g], start, [], None, [], LateArrivals(Listed(start, g), {f, g}))
  }

  lemma {:induction false} StepsToListed(start: string, g: string)
    requires IsDeltaFilename(g) && Less(start, g)
    ensures Initialized(Pipeline(start, {}, [], start, [], None, [], {}))
    ensures TidyNext(Pipeline(start, {}, [], start, [], None, [], {}), Listed(start, g).(pending := []))
    ensures TidyNext(Listed(start, g).(pending := []), Listed(start, g))
  {
    LessIsStrictOrder(start, g, start);
    var s0 := Pipeline(start, {}, [], start, [], None, [], {});
    assert IsListing(s0.bucket, DELTA_PREFIX, s0.start, []) && s0.loaded == DeltasOf([]);
    assert LateArrivals(s0, {g}) == {};
    assert BucketChanges(s0, Listed(start, g).(pending := []));
    assert ListBlobs(Listed(start, g).(pending := []), Listed(start, g));
  }

  lemma {:induction false} StepsFromListed(start: string, f: string, g: string)
    requires IsDeltaFilename(f) && IsDeltaFilename(g) && Less(start, f) && Less(f, g)
    ensures TidyNext(Listed(start, g), Overtaken(start, f, g))
    ensures var s := Overtaken(start, f, g).(pending := [], queue := [g], lastKey := g);
            TidyNext(Overtaken(start, f, g), s) && ListBlobs(s, s) && f !in Timeline(s)
  {
    LessIsStrictOrder(g, g, f);
    LessIsStrictOrder(f, g, f);
    assert Less(f, g) && !Less(g, f) && !Less(g, g);
    var s := Overtaken(start, f, g).(pending := [], queue := [g], lastKey := g);
    assert BucketChanges(Listed(start, g), Overtaken(start, f, g));
    assert HandOver(Overtaken(start, f, g), s);
    assert Timeline(s) == [g];
  }

  /** It is not enough that files turn up after those handed over: one that turns up after a
      later file was listed, but before that file is handed over, is missed. */
  lemma {:induction false} AheadOfHandedIsNotEnough(start: string, f: string, g: string) returns (run: seq<Pipeline>)
    requires IsDeltaFilename(f) && IsDeltaFilename(g) && Less(start, f) && Less(f, g)
    ensures |run| > 1 && Initialized(run[0]) && run[0].start == start
    ensures forall i :: 0 <= i < |run| - 1 ==> TidyNext(run[i], run[i + 1])
    ensures var s := run[|run| - 1]; ListBlobs(s, s) && f in s.bucket && f !in Timeline(s)
  {
    LessIsStrictOrder(start, f, g);
    StepsToListed(start, g);
    StepsFromListed(start, f, g);
    var s := Overtaken(start, f, g);
    run := [Pipeline(start, {}, [], start, [], None, [], {}), Listed(start, g).(pending := []), Listed(start, g), s,
            s.(pending := [], queue := [g], lastKey := g)];
  }
}
