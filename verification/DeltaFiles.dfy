/** Which files are loaded: notifications, listings, the snapshot and the initial delta files.

Listings of the bucket are parameters that obey the contract of the storage client.
 */
module DeltaFiles {

  import opened Basics
  import opened FileNames

  // --------------------------------------------------------------------- notifications

  predicate AtMost(a: string, b: string) {
    Less(a, b) || a == b
  }

  /** The largest change that names a delta file, or the empty string. */
  method WaitForNotification(changes: Result<seq<string>>) returns (r: Result<string>)
    ensures changes.Error? ==> r == Error(changes.code)
    ensures changes.Ok? ==>
              && r.Ok?
              && (r.value == "" || (r.value in changes.value && IsDeltaFilename(r.value)))
              && forall c :: c in changes.value && IsDeltaFilename(c) ==> AtMost(c, r.value)
  {
    if changes.Error? {
      return Error(changes.code);
    }
    var maxChange := "";
    for i := 0 to |changes.value|
      invariant maxChange == "" || (maxChange in changes.value && IsDeltaFilename(maxChange))
      invariant forall j :: 0 <= j < i && IsDeltaFilename(changes.value[j]) ==> AtMost(changes.value[j], maxChange)
    {
      var change := changes.value[i];
      forall c ensures AtMost(c, maxChange) && Less(maxChange, change) ==> AtMost(c, change) {
        LessIsStrictOrder(c, maxChange, change);
      }
      LessIsStrictOrder(change, maxChange, change);
      if Less(maxChange, change) && IsDeltaFilename(change) {
        maxChange := change;
      }
    }
    return Ok(maxChange);
  }

  /** The bucket is left alone exactly while the flag stands and every notified delta file is
      older than the last one seen. */
  method ShouldListBlobs(flagIsSet: bool, changes: Result<seq<string>>, lastKey: string) returns (r: Result<bool>)
    ensures r == Ok(false) <==>
            flagIsSet && changes.Ok? && forall c :: c in changes.value && IsDeltaFilename(c) ==> Less(c, lastKey)
    ensures r.Error? <==> flagIsSet && changes.Error? && changes.code != DEADLINE_EXCEEDED
    ensures r.Error? ==> r.code == changes.code
  {
    if !flagIsSet {
      return Ok(true);
    }
    var key := WaitForNotification(changes);
    if key.Ok? {
      forall c ensures (AtMost(c, key.value) && Less(key.value, lastKey) ==> Less(c, lastKey)) {
        LessIsStrictOrder(c, key.value, lastKey);
      }
      if Less(key.value, lastKey) {
        return Ok(false);
      }
      assert !IsDeltaFilename("");
      return Ok(IsDeltaFilename(key.value));
    }
    if key.code == DEADLINE_EXCEEDED {
      return Ok(true);
    }
    return Error(key.code);
  }

  // -------------------------------------------------------------------------- listings

  predicate Ascending(names: seq<string>) {
    forall i, j :: 0 <= i < j < |names| ==> Less(names[i], names[j])
  }

  /** The contract of `ListBlobs`: the names in the bucket with the prefix and strictly after
      the given one, in lexicographic order. */
  ghost predicate IsListing(bucket: set<string>, prefix: string, startAfter: string, names: seq<string>) {
    && Ascending(names)
    && forall f :: f in names <==> f in bucket && prefix <= f && Less(startAfter, f)
  }

  function DeltasOf(names: seq<string>): seq<string> {
    if names == [] then []
    else (if IsDeltaFilename(names[0]) then [names[0]] else []) + DeltasOf(names[1..])
  }

  function LastOr(names: seq<string>, default: string): string {
    if names == [] then default else names[|names| - 1]
  }

  lemma {:induction false} DeltasOfMembers(names: seq<string>)
    ensures forall f :: f in DeltasOf(names) <==> f in names && IsDeltaFilename(f)
  {
    if names != [] {
      DeltasOfMembers(names[1..]);
      assert names == [names[0]] + names[1..];
    }
  }

  lemma {:induction false} DeltasOfAscending(names: seq<string>)
    requires Ascending(names)
    ensures Ascending(DeltasOf(names))
  {
    if names != [] {
      DeltasOfAscending(names[1..]);
      DeltasOfMembers(names[1..]);
      var rest := DeltasOf(names[1..]);
      forall i | 0 <= i < |rest| ensures Less(names[0], rest[i]) {
        assert rest[i] in names[1..];
      }
    }
  }

  lemma {:induction false} DeltasOfSnoc(names: seq<string>, f: string)
    ensures DeltasOf(names + [f]) == DeltasOf(names) + if IsDeltaFilename(f) then [f] else []
  {
    if names == [] {
      assert names + [f] == [f];
    } else {
      DeltasOfSnoc(names[1..], f);
      assert (names + [f])[1..] == names[1..] + [f];
    }
  }

  // -------------------------------------------------------------------- initialisation

  /** What reading the metadata of a snapshot gives. */
  datatype SnapshotMetadata = Unreadable(code: int) | Snapshot(shard: Sharding, endingDeltaFile: string)

  datatype Sharding = AnyShard | OnlyShard(shardNum: int)

  predicate ForShard(m: SnapshotMetadata, shardNum: int) {
    m.Snapshot? && (m.shard.OnlyShard? ==> m.shard.shardNum == shardNum)
  }

  predicate Skipped(f: string, metadata: string -> SnapshotMetadata, shardNum: int) {
    IsSnapshotFilename(f) ==> metadata(f).Snapshot? && !ForShard(metadata(f), shardNum)
  }

  /** Loads the newest snapshot for this shard: every newer name is no snapshot or belongs to
      another shard. The result is the delta file the snapshot ends with, and the empty
      string exactly if there is no snapshot to load or it names none. */
  method LoadSnapshotFiles(snapshots: seq<string>, metadata: string -> SnapshotMetadata,
          loads: string -> Result<()>, shardNum: int)
    returns (r: Result<string>, loaded: seq<string>)
    ensures |loaded| <= 1
    ensures r.Ok? && loaded == [] ==>
              forall f :: f in snapshots && IsSnapshotFilename(f) ==>
                            && metadata(f).Snapshot? && metadata(f).shard.OnlyShard?
                            && metadata(f).shard.shardNum != shardNum
    ensures loaded != [] ==>
              && "SNAPSHOT_" <= loaded[0] && metadata(loaded[0]).Snapshot?
              && (metadata(loaded[0]).shard == AnyShard || metadata(loaded[0]).shard == OnlyShard(shardNum))
    ensures r.Ok? && loaded == [] ==>
              r.value == "" && forall f :: f in snapshots ==> Skipped(f, metadata, shardNum)
    ensures r.Ok? && loaded != [] ==>
              exists i :: && 0 <= i < |snapshots| && loaded == [snapshots[i]]
                          && IsSnapshotFilename(snapshots[i]) && ForShard(metadata(snapshots[i]), shardNum)
                          && loads(snapshots[i]).Ok? && r.value == metadata(snapshots[i]).endingDeltaFile
                          && forall j :: i < j < |snapshots| ==> Skipped(snapshots[j], metadata, shardNum)
    ensures r.Error? ==>
              exists i :: && 0 <= i < |snapshots| && IsSnapshotFilename(snapshots[i])
                          && (metadata(snapshots[i]) == Unreadable(r.code)
                              || (ForShard(metadata(snapshots[i]), shardNum) && loads(snapshots[i]) == Error(r.code)))
                          && forall j :: i < j < |snapshots| ==> Skipped(snapshots[j], metadata, shardNum)
  {
    loaded := [];
    var endingDeltaFile := "";
    var s := |snapshots| - 1;
    while s >= 0
      invariant -1 <= s < |snapshots|
      invariant loaded == [] && endingDeltaFile == ""
      invariant forall j :: s < j < |snapshots| ==> Skipped(snapshots[j], metadata, shardNum)
    {
      var snapshot := snapshots[s];
      if IsSnapshotFilename(snapshot) {
        var m := metadata(snapshot);
        if m.Unreadable? {
          return Error(m.code), [];
        }
        if ForShard(m, shardNum) {
          var status := loads(snapshot);
          if status.Error? {
            return Error(status.code), [];
          }
          NameFormats(snapshot);
          loaded := [snapshot];
          if Less(endingDeltaFile, m.endingDeltaFile) {
            endingDeltaFile := m.endingDeltaFile;
          }
          return Ok(endingDeltaFile), loaded;
        }
      }
      s := s - 1;
    }
    return Ok(endingDeltaFile), loaded;
  }

  /** The files before the first one that does not load, and its error. */
  predicate StopsAt(names: seq<string>, loads: string -> Result<()>, loaded: seq<string>, code: int) {
    && |loaded| < |names| && loaded == names[..|loaded|] && loads(names[|loaded|]) == Error(code)
    && forall f :: f in loaded ==> loads(f).Ok?
  }

  /** A delta file of a listing comes right after those before it. */
  lemma {:induction false} DeltasOfAt(names: seq<string>, i: nat)
    requires i < |names| && IsDeltaFilename(names[i])
    ensures var before := DeltasOf(names[..i]);
            && |before| < |DeltasOf(names)| && before == DeltasOf(names)[..|before|]
            && DeltasOf(names)[|before|] == names[i] && names[i] in DeltasOf(names)
  {
    assert names[..i + 1] == names[..i] + [names[i]];
    DeltasOfSnoc(names[..i], names[i]);
    DeltasOfPrefix(names, i + 1);
    var before, longer, all := DeltasOf(names[..i]), DeltasOf(names[..i + 1]), DeltasOf(names);
    assert longer == before + [names[i]] && longer <= all;
    assert all[|before|] == longer[|before|];
  }

  /** Loads the delta files of the first listing in order; stops at the first failure. */
  method Init(endingDeltaFile: string, listing: seq<string>, loads: string -> Result<()>)
    returns (r: Result<string>, loaded: seq<string>)
    ensures r.Ok? <==> forall f :: f in DeltasOf(listing) ==> loads(f).Ok?
    ensures r.Ok? ==> loaded == DeltasOf(listing) && r.value == LastOr(DeltasOf(listing), endingDeltaFile)
    ensures r.Error? ==> StopsAt(DeltasOf(listing), loads, loaded, r.code)
  {
    var lastBasename := endingDeltaFile;
    loaded := [];
    for i := 0 to |listing|
      invariant loaded == DeltasOf(listing[..i])
      invariant lastBasename == LastOr(loaded, endingDeltaFile)
      invariant forall f :: f in loaded ==> loads(f).Ok?
    {
      var basename := listing[i];
      assert listing[..i + 1] == listing[..i] + [basename];
      DeltasOfSnoc(listing[..i], basename);
      if IsDeltaFilename(basename) {
        lastBasename := basename;
        var status := loads(basename);
        if status.Error? {
          DeltasOfAt(listing, i);
          return Error(status.code), loaded;
        }
        loaded := loaded + [basename];
      }
    }
    assert listing[..|listing|] == listing;
    return Ok(lastBasename), loaded;
  }

  lemma {:induction false} DeltasOfPrefix(names: seq<string>, n: nat)
    requires n <= |names|
    ensures DeltasOf(names[..n]) <= DeltasOf(names)
  {
    if n > 0 {
      DeltasOfPrefix(names[1..], n - 1);
      assert names[..n][1..] == names[1..][..n - 1];
    }
  }
}
