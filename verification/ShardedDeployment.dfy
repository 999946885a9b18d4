/** A sharded deployment next to one unsharded server, from the files they are fed to the
answers they give. */
module ShardedDeployment {

  import opened Basics
  import opened Registers
  import opened KeyValueCaches
  import opened DataLoading
  import opened LoadingTheorems
  import opened Query
  import opened Lookup
  import opened ShardedLookup

  // --------------------------------------------------------------- what the shards hold

  function Unsharded(hash: (Key, int) -> int): Server {
    Server(hash, 0, 1)
  }

  /** The cache is as after this stream of events, in cutoffs and in every register. */
  ghost predicate Holds(cache: KeyValueCache, server: Server, es: seq<Event>)
    reads cache
  {
    && SameOutcome(cache.kvLog, StreamLog(server, es, KvOp))
    && SameOutcome(cache.setLog, StreamLog(server, es, SetOp))
  }

  /** The cluster and the single server were fed one stream of events, each with the records of
      an event in its own order. */
  ghost predicate FedAlike(c: Cluster, single: KeyValueCache, a: seq<Event>, b: seq<seq<Event>>)
    reads c.servers, single
  {
    && |b| == |c.servers|
    && Holds(single, Unsharded(c.hash), a)
    && forall i :: 0 <= i < |b| ==> SameEvents(a, b[i]) && Holds(c.servers[i], Server(c.hash, i, |b|), b[i])
  }

  predicate ShardsKeys(hash: (Key, int) -> int, b: seq<seq<Event>>, k: Key) {
    0 <= hash(k, |b|) < |b|
  }

  /** Every shard settles the ties of its own keys within one event as the single server does. */
  ghost predicate OwnTiesAlike(hash: (Key, int) -> int, a: seq<Event>, b: seq<seq<Event>>)
    requires forall i :: 0 <= i < |b| ==> SameEvents(a, b[i])
  {
    forall k | ShardsKeys(hash, b, k) ::
      TiesAlike(a, b[hash(k, |b|)], KvOp, k) && forall v :: TiesAlike(a, b[hash(k, |b|)], SetOp, (k, v))
  }

  ghost predicate ConflictFreeEvents(a: seq<Event>) {
    forall i :: 0 <= i < |a| ==>
                  ConflictFreeRecords(a[i].records, KvOp) && ConflictFreeRecords(a[i].records, SetOp)
  }

  lemma {:induction false} TiesOf<I(!new), P(!new)>(a: seq<Event>, b: seq<Event>, opOf: OpOf<I, P>, id: I)
    requires SameEvents(a, b)
    requires b == a || forall i :: 0 <= i < |a| ==> ConflictFreeRecords(a[i].records, opOf)
    ensures TiesAlike(a, b, opOf, id)
  {
    forall i | 0 <= i < |a| ensures SameTies(a[i].records, b[i].records, opOf, id) {
      if b != a {
        ConflictFreeSameTies(a[i].records, b[i].records, opOf, id);
      }
    }
  }

  /** A shard settles ties alike if it applies the records of every event in the single server's
      order, or if no two records of one event conflict; ties between events are no conflict. */
  lemma {:induction false} TiesAreSettled(hash: (Key, int) -> int, a: seq<Event>, b: seq<seq<Event>>)
    requires forall i :: 0 <= i < |b| ==> SameEvents(a, b[i]) && (b[i] == a || ConflictFreeEvents(a))
    ensures OwnTiesAlike(hash, a, b)
  {
    forall k | ShardsKeys(hash, b, k)
      ensures TiesAlike(a, b[hash(k, |b|)], KvOp, k) && forall v :: TiesAlike(a, b[hash(k, |b|)], SetOp, (k, v))
    {
      var es := b[hash(k, |b|)];
      TiesOf(a, es, KvOp, k);
      forall v ensures TiesAlike(a, es, SetOp, (k, v)) {
        TiesOf(a, es, SetOp, (k, v));
      }
    }
  }

  ghost predicate KvAgrees(c: Cluster, single: KeyValueCache, k: Key)
    requires 0 <= c.ShardOf(k) < |c.servers|
    reads c.servers, single
  {
    Register(single.kvLog, k) == Register(c.servers[c.ShardOf(k)].kvLog, k)
  }

  ghost predicate SetAgrees(c: Cluster, single: KeyValueCache, k: Key, v: Val)
    requires 0 <= c.ShardOf(k) < |c.servers|
    reads c.servers, single
  {
    Register(single.setLog, (k, v)) == Register(c.servers[c.ShardOf(k)].setLog, (k, v))
  }

  /** The shard of a key takes every record of the key, and no record that one unsharded server
      rejects. */
  lemma {:induction false} KvOwned(hash: (Key, int) -> int, n: int, k: Key)
    ensures OnlyWrites(KvOp) && AcceptsLess(Server(hash, hash(k, n), n), Unsharded(hash))
    ensures Owns(Unsharded(hash), KvOp, k) && Owns(Server(hash, hash(k, n), n), KvOp, k)
  {
  }

  lemma {:induction false} SetOwned(hash: (Key, int) -> int, n: int, k: Key, v: Val)
    ensures OnlyWrites(SetOp) && AcceptsLess(Server(hash, hash(k, n), n), Unsharded(hash))
    ensures Owns(Unsharded(hash), SetOp, (k, v)) && Owns(Server(hash, hash(k, n), n), SetOp, (k, v))
  {
  }

  /** Exactly when a shard holds what one server would: if and only if it admitted no write
      newer than all that the one server admitted, and ties at the winning time have the same
      winner. */
  lemma {:induction false} KvHoldsIff(c: Cluster, single: KeyValueCache, a: seq<Event>, b: seq<seq<Event>>, k: Key)
    requires FedAlike(c, single, a, b) && 0 <= c.ShardOf(k) < |c.servers|
    ensures var here, there := StreamLog(Unsharded(c.hash), a, KvOp),
                               StreamLog(Server(c.hash, c.ShardOf(k), |b|), b[c.ShardOf(k)], KvOp);
            KvAgrees(c, single, k) <==> CatchesUp(here, there, k) && SameWinner(here, there, k)
  {
    var i := c.ShardOf(k);
    KvOwned(c.hash, |b|, k);
    ShardAgreesIff(Unsharded(c.hash), a, Server(c.hash, i, |b|), b[i], KvOp, k);
  }

  lemma {:induction false} SetHoldsIff(c: Cluster, single: KeyValueCache, a: seq<Event>, b: seq<seq<Event>>, k: Key,
          v: Val)
    requires FedAlike(c, single, a, b) && 0 <= c.ShardOf(k) < |c.servers|
    ensures var here, there := StreamLog(Unsharded(c.hash), a, SetOp),
                               StreamLog(Server(c.hash, c.ShardOf(k), |b|), b[c.ShardOf(k)], SetOp);
            SetAgrees(c, single, k, v) <==> CatchesUp(here, there, (k, v)) && SameWinner(here, there, (k, v))
  {
    var i := c.ShardOf(k);
    SetOwned(c.hash, |b|, k, v);
    ShardAgreesIff(Unsharded(c.hash), a, Server(c.hash, i, |b|), b[i], SetOp, (k, v));
  }

  ghost predicate DropsNothing(server: Server, es: seq<Event>) {
    && (forall k :: NoneDropped(StreamLog(server, es, KvOp), k))
    && (forall p :: NoneDropped(StreamLog(server, es, SetOp), p))
  }

  /** One stream in one order, of which one unsharded server would drop no write. */
  ghost predicate InOneOrder(c: Cluster, single: KeyValueCache, a: seq<Event>, b: seq<seq<Event>>)
    reads c.servers, single
  {
    FedAlike(c, single, a, b) && OwnTiesAlike(c.hash, a, b) && DropsNothing(Unsharded(c.hash), a)
  }

  /** The same records in any order, with clean-ups anywhere, of which no server drops one, and no
      two of which conflict. */
  ghost predicate InAnyOrder(c: Cluster, single: KeyValueCache, a: seq<Event>, b: seq<seq<Event>>)
    reads c.servers, single
  {
    && |b| == |c.servers|
    && Holds(single, Unsharded(c.hash), a) && DropsNothing(Unsharded(c.hash), a)
    && (forall i :: 0 <= i < |b| ==>
          && SameContents(a, b[i]) && Holds(c.servers[i], Server(c.hash, i, |b|), b[i])
          && DropsNothing(Server(c.hash, i, |b|), b[i]))
    && ConflictFreeLog(StreamLog(Unsharded(c.hash), a, KvOp)) && ConflictFreeLog(StreamLog(Unsharded(c.hash), a, SetOp))
  }

  ghost predicate ConflictFreeLog<I(!new), P(!new)>(log: seq<Op<I, P>>) {
    forall id :: ConflictFree(log, log, id)
  }

  lemma {:induction false} KvHolds(c: Cluster, single: KeyValueCache, a: seq<Event>, b: seq<seq<Event>>, k: Key)
    requires InOneOrder(c, single, a, b) || InAnyOrder(c, single, a, b)
    requires 0 <= c.ShardOf(k) < |c.servers|
    ensures KvAgrees(c, single, k)
  {
    var i := c.ShardOf(k);
    KvOwned(c.hash, |b|, k);
    if InOneOrder(c, single, a, b) {
      assert ShardsKeys(c.hash, b, k);
      ShardHoldsRegister(Unsharded(c.hash), a, Server(c.hash, i, |b|), b[i], KvOp, k);
    } else {
      ShardHoldsInAnyOrder(Unsharded(c.hash), a, Server(c.hash, i, |b|), b[i], KvOp, k);
    }
  }

  lemma {:induction false} SetHolds(c: Cluster, single: KeyValueCache, a: seq<Event>, b: seq<seq<Event>>, k: Key,
          v: Val)
    requires InOneOrder(c, single, a, b) || InAnyOrder(c, single, a, b)
    requires 0 <= c.ShardOf(k) < |c.servers|
    ensures SetAgrees(c, single, k, v)
  {
    var i := c.ShardOf(k);
    SetOwned(c.hash, |b|, k, v);
    if InOneOrder(c, single, a, b) {
      assert ShardsKeys(c.hash, b, k);
      ShardHoldsRegister(Unsharded(c.hash), a, Server(c.hash, i, |b|), b[i], SetOp, (k, v));
    } else {
      ShardHoldsInAnyOrder(Unsharded(c.hash), a, Server(c.hash, i, |b|), b[i], SetOp, (k, v));
    }
  }

  /** The shards together show what one unsharded server shows, if all see one stream of events of
      which that server drops no write, or if they see the records in different orders and none
      drops or ties anything. */
  lemma {:induction false} ShardsFormUnion(c: Cluster, single: KeyValueCache, a: seq<Event>, b: seq<seq<Event>>)
    requires c.Valid() && (InOneOrder(c, single, a, b) || InAnyOrder(c, single, a, b))
    ensures IsUnion(c, single)
  {
    forall k
      ensures Visible(Register(single.kvLog, k)) == Visible(Register(c.servers[c.ShardOf(k)].kvLog, k))
    {
      KvHolds(c, single, a, b, k);
    }
    forall k, v
      ensures Visible(Register(single.setLog, (k, v))) == Visible(Register(c.servers[c.ShardOf(k)].setLog, (k, v)))
    {
      SetHolds(c, single, a, b, k, v);
    }
  }

  // ------------------------------------------------------------- loading with retries

  /** A file with the attempts it takes to load it; a real-time message; or everything that
      reached the cache between two clean-ups, pieces of failed and successful attempts at a file
      and of messages in any interleaving, which together carry `records`. */
  datatype Item =
    | FileItem(file: File, attempts: seq<Attempt>)
    | Message(records: seq<Record>)
    | Interleaved(pieces: seq<seq<Record>>, records: seq<Record>, fileRecords: seq<Record>)

  function Flatten(pieces: seq<seq<Record>>): seq<Record> {
    if pieces == [] then [] else Flatten(pieces[..|pieces| - 1]) + pieces[|pieces| - 1]
  }

  ghost predicate IsItem(server: Server, item: Item) {
    match item
    case FileItem(file, attempts) =>
      && !file.metadata.MetadataError? && IsLoadOf(server, file, attempts)
      && ConflictFreeRecords(file.records, KvOp) && ConflictFreeRecords(file.records, SetOp)
    case Message(_) => true
    case Interleaved(pieces, records, _) =>
      && SameRecords(Flatten(pieces), records)
      && ConflictFreeRecords(records, KvOp) && ConflictFreeRecords(records, SetOp)
  }

  ghost predicate AreItems(server: Server, items: seq<Item>) {
    forall i :: 0 <= i < |items| ==> IsItem(server, items[i])
  }

  predicate ForOtherShard(server: Server, file: File) {
    file.metadata.ShardNum? && file.metadata.shard != server.shardNum
  }

  /** What loading the item amounts to, without the failed attempts. */
  function ItemEvents(server: Server, item: Item): seq<Event> {
    match item
    case FileItem(file, _) =>
      if ForOtherShard(server, file) then [] else [Apply(file.records), CleanUp(file.records)]
    case Message(records) => [Apply(records)]
    case Interleaved(_, records, fileRecords) => [Apply(records), CleanUp(fileRecords)]
  }

  function AllEvents(server: Server, items: seq<Item>): seq<Event> {
    if items == [] then []
    else AllEvents(server, items[..|items| - 1]) + ItemEvents(server, items[|items| - 1])
  }

  /** What an item brings to the server: a file that is not meant for another shard its records, a
      message its own, and pieces what they hold together. */
  predicate ItemCarries(server: Server, item: Item, r: Record) {
    match item
    case FileItem(file, _) => (file.metadata.ShardNum? ==> file.metadata.shard == server.shardNum) && r in file.records
    case Message(records) => r in records
    case Interleaved(pieces, _, _) => r in Flatten(pieces)
  }

  lemma {:induction false} CarriesConcat(a: seq<Event>, b: seq<Event>, r: Record)
    ensures Carries(a + b, r) <==> Carries(a, r) || Carries(b, r)
  {
    if b == [] {
      assert a + b == a;
    } else {
      CarriesConcat(a, b[..|b| - 1], r);
      assert (a + b)[..|a + b| - 1] == a + b[..|b| - 1];
    }
  }

  lemma {:induction false} OneEventCarries(records: seq<Record>, fileRecords: seq<Record>, r: Record)
    ensures Carries([Apply(records)], r) <==> r in records
    ensures Carries([Apply(records), CleanUp(fileRecords)], r) <==> r in records
  {
    assert [Apply(records)][..0] == [];
    assert [Apply(records), CleanUp(fileRecords)][..1] == [Apply(records)];
  }

  lemma {:induction false} ItemEventsCarry(server: Server, item: Item, r: Record)
    requires IsItem(server, item)
    ensures Carries(ItemEvents(server, item), r) <==> ItemCarries(server, item, r)
  {
    match item
    case FileItem(file, _) => OneEventCarries(file.records, file.records, r);
    case Message(records) => OneEventCarries(records, [], r);
    case Interleaved(_, records, fileRecords) => OneEventCarries(records, fileRecords, r);
  }

  ghost predicate AnyCarries(server: Server, items: seq<Item>, r: Record) {
    exists i :: 0 <= i < |items| && ItemCarries(server, items[i], r)
  }

  lemma {:induction false} AnyCarriesSnoc(server: Server, items: seq<Item>, item: Item, r: Record)
    ensures AnyCarries(server, items + [item], r) <==> AnyCarries(server, items, r) || ItemCarries(server, item, r)
  {
    var more := items + [item];
    assert more[|items|] == item;
    if AnyCarries(server, items, r) {
      var i :| 0 <= i < |items| && ItemCarries(server, items[i], r);
      assert more[i] == items[i];
    }
    if ItemCarries(server, item, r) {
      assert ItemCarries(server, more[|items|], r);
    }
  }

  /** Nothing is lost and nothing made up: the stream of a server carries exactly the records that
      its items bring. */
  lemma {:induction false} ItemsCarry(server: Server, items: seq<Item>, r: Record)
    requires AreItems(server, items)
    ensures Carries(AllEvents(server, items), r) <==> AnyCarries(server, items, r)
  {
    if items != [] {
      var before, last := items[..|items| - 1], items[|items| - 1];
      ItemsCarry(server, before, r);
      ItemEventsCarry(server, last, r);
      CarriesConcat(AllEvents(server, before), ItemEvents(server, last), r);
      AnyCarriesSnoc(server, before, last, r);
      assert items == before + [last];
    }
  }

  lemma {:induction false} FileLog<I, P>(server: Server, es: seq<Event>, file: File, attempts: seq<Attempt>,
          opOf: OpOf<I, P>)
    requires !file.metadata.MetadataError?
    ensures StreamLog(server, es + ItemEvents(server, FileItem(file, attempts)), opOf)
         == StreamLog(server, es, opOf) + AttemptLog(server, CleanAttempt(file), opOf)
  {
    if ForOtherShard(server, file) {
      assert es + [] == es && AttemptLog(server, CleanAttempt(file), opOf) == [];
    } else {
      var applied := es + [Apply(file.records)];
      StreamLogSnoc(server, es, Apply(file.records), opOf);
      StreamLogSnoc(server, applied, CleanUp(file.records), opOf);
      assert es + [Apply(file.records), CleanUp(file.records)] == applied + [CleanUp(file.records)];
    }
  }

  lemma {:induction false} OutcomeAfter<I(!new), P>(now: seq<Op<I, P>>, before: seq<Op<I, P>>, target: seq<Op<I, P>>,
          more: seq<Op<I, P>>)
    requires SameOutcome(before, target) && SameOutcome(now, before + more)
    ensures SameOutcome(now, target + more)
  {
    OutcomeDecides(before, target, more);
  }

  /** Loads a file into a cache that holds a stream; the cache then holds the longer one. */
  method LoadFile(server: Server, file: File, attempts: seq<Attempt>, cache: KeyValueCache, ghost es: seq<Event>)
    requires cache.Valid() && Holds(cache, server, es) && IsItem(server, FileItem(file, attempts))
    modifies cache
    ensures cache.Valid() && Holds(cache, server, es + ItemEvents(server, FileItem(file, attempts)))
  {
    ghost var kvs, sets := cache.kvLog, cache.setLog;
    LoadWithRetries(server, file, attempts, cache);
    OutcomeAfter(cache.kvLog, kvs, StreamLog(server, es, KvOp), AttemptLog(server, CleanAttempt(file), KvOp));
    OutcomeAfter(cache.setLog, sets, StreamLog(server, es, SetOp), AttemptLog(server, CleanAttempt(file), SetOp));
    FileLog(server, es, file, attempts, KvOp);
    FileLog(server, es, file, attempts, SetOp);
  }

  method LoadMessage(server: Server, records: seq<Record>, cache: KeyValueCache, ghost es: seq<Event>)
    requires cache.Valid() && Holds(cache, server, es)
    modifies cache
    ensures cache.Valid() && Holds(cache, server, es + [Apply(records)])
  {
    ghost var kvs, sets := cache.kvLog, cache.setLog;
    var _ := LoadCacheWithData(server, records, cache);
    OutcomeAfter(cache.kvLog, kvs, StreamLog(server, es, KvOp), Ops(server, records, KvOp));
    OutcomeAfter(cache.setLog, sets, StreamLog(server, es, SetOp), Ops(server, records, SetOp));
    StreamLogSnoc(server, es, Apply(records), KvOp);
    StreamLogSnoc(server, es, Apply(records), SetOp);
  }

  lemma {:induction false} OpsSnoc<I, P>(server: Server, records: seq<Record>, last: Record, opOf: OpOf<I, P>)
    ensures Ops(server, records + [last], opOf) == Ops(server, records, opOf) + Ops(server, [last], opOf)
  {
    assert (records + [last])[..|records|] == records;
    assert [last][..0] == [];
  }

  lemma {:induction false} OpsConcat<I, P>(server: Server, x: seq<Record>, y: seq<Record>, opOf: OpOf<I, P>)
    ensures Ops(server, x + y, opOf) == Ops(server, x, opOf) + Ops(server, y, opOf)
  {
    if y == [] {
      assert x + y == x;
    } else {
      var front, last := y[..|y| - 1], y[|y| - 1];
      OpsConcat(server, x, front, opOf);
      OpsSnoc(server, x + front, last, opOf);
      OpsSnoc(server, front, last, opOf);
      assert y == front + [last] && x + y == x + front + [last];
    }
  }

  lemma {:induction false} OpsFlatten<I, P>(server: Server, log: seq<Op<I, P>>, pieces: seq<seq<Record>>, i: nat,
          opOf: OpOf<I, P>)
    requires i < |pieces|
    ensures log + Ops(server, Flatten(pieces[..i]), opOf) + Ops(server, pieces[i], opOf)
         == log + Ops(server, Flatten(pieces[..i + 1]), opOf)
  {
    assert pieces[..i + 1][..i] == pieces[..i];
    OpsConcat(server, Flatten(pieces[..i]), pieces[i], opOf);
    var before, last := Ops(server, Flatten(pieces[..i]), opOf), Ops(server, pieces[i], opOf);
    assert log + (before + last) == log + before + last;
  }

  /** The pieces reach the cache one after the other. */
  method ApplyPieces(server: Server, pieces: seq<seq<Record>>, cache: KeyValueCache)
    requires cache.Valid()
    modifies cache
    ensures cache.Valid()
    ensures cache.kvLog == old(cache.kvLog) + Ops(server, Flatten(pieces), KvOp)
    ensures cache.setLog == old(cache.setLog) + Ops(server, Flatten(pieces), SetOp)
  {
    for i := 0 to |pieces|
      invariant cache.Valid()
      invariant cache.kvLog == old(cache.kvLog) + Ops(server, Flatten(pieces[..i]), KvOp)
      invariant cache.setLog == old(cache.setLog) + Ops(server, Flatten(pieces[..i]), SetOp)
    {
      OpsFlatten(server, old(cache.kvLog), pieces, i, KvOp);
      OpsFlatten(server, old(cache.setLog), pieces, i, SetOp);
      var _ := LoadCacheWithData(server, pieces[i], cache);
    }
    assert pieces[..|pieces|] == pieces;
  }

  /** In whatever pieces and however often conflict-free records reach the cache before a
      clean-up, the outcome is that of applying them once. */
  lemma {:induction false} PiecesSettle<I(!new), P(!new)>(server: Server, log: seq<Op<I, P>>, delivered: seq<Record>,
          records: seq<Record>, time: Time, opOf: OpOf<I, P>)
    requires OnlyWrites(opOf) && SameRecords(delivered, records) && ConflictFreeRecords(records, opOf)
    ensures SameOutcome(log + (Ops(server, delivered, opOf) + [Collect(time)]),
                        log + (Ops(server, records, opOf) + [Collect(time)]))
  {
    var ws, ds := Ops(server, delivered, opOf), Ops(server, records, opOf);
    var op: Op<I, P> := Collect(time);
    OpsCollectFree(server, delivered, opOf);
    OpsCollectFree(server, records, opOf);
    CutoffAfterWrites(log, ws, op);
    CutoffAfterWrites(log, ds, op);
    forall id ensures Register(log + (ws + [op]), id) == Register(log + (ds + [op]), id) {
      CompleteAttempt(server, File(NoSharding, records), [], delivered, opOf, id);
      assert [] + ws == ws;
      SameWritesCollectAlike(log, ws, ds, op, id);
    }
  }

  lemma {:induction false} PiecesLog<I, P>(server: Server, es: seq<Event>, records: seq<Record>,
          fileRecords: seq<Record>, opOf: OpOf<I, P>)
    ensures StreamLog(server, es + [Apply(records), CleanUp(fileRecords)], opOf)
         == StreamLog(server, es, opOf)
            + (Ops(server, records, opOf) + [Collect(MaxTimestamp(server, fileRecords))])
  {
    var applied := es + [Apply(records)];
    StreamLogSnoc(server, es, Apply(records), opOf);
    StreamLogSnoc(server, applied, CleanUp(fileRecords), opOf);
    assert es + [Apply(records), CleanUp(fileRecords)] == applied + [CleanUp(fileRecords)];
  }

  lemma {:induction false} PiecesHold<I(!new), P(!new)>(server: Server, es: seq<Event>, before: seq<Op<I, P>>,
          delivered: seq<Record>, records: seq<Record>, fileRecords: seq<Record>, opOf: OpOf<I, P>)
    requires OnlyWrites(opOf) && SameRecords(delivered, records) && ConflictFreeRecords(records, opOf)
    requires SameOutcome(before, StreamLog(server, es, opOf))
    ensures SameOutcome(before + Ops(server, delivered, opOf) + [Collect(MaxTimestamp(server, fileRecords))],
                        StreamLog(server, es + [Apply(records), CleanUp(fileRecords)], opOf))
  {
    var op: Op<I, P> := Collect(MaxTimestamp(server, fileRecords));
    var ws := Ops(server, delivered, opOf);
    assert before + ws + [op] == before + (ws + [op]);
    PiecesSettle(server, before, delivered, records, op.time, opOf);
    OutcomeDecides(before, StreamLog(server, es, opOf), Ops(server, records, opOf) + [op]);
    PiecesLog(server, es, records, fileRecords, opOf);
  }

  /** Loads a file while messages arrive. */
  method LoadInterleaved(server: Server, pieces: seq<seq<Record>>, ghost records: seq<Record>,
          fileRecords: seq<Record>, cache: KeyValueCache, ghost es: seq<Event>)
    requires cache.Valid() && Holds(cache, server, es) && IsItem(server, Interleaved(pieces, records, fileRecords))
    modifies cache
    ensures cache.Valid() && Holds(cache, server, es + [Apply(records), CleanUp(fileRecords)])
  {
    ghost var kvs, sets := cache.kvLog, cache.setLog;
    ApplyPieces(server, pieces, cache);
    cache.RemoveDeletedKeys(MaxTimestamp(server, fileRecords));
    PiecesHold(server, es, kvs, Flatten(pieces), records, fileRecords, KvOp);
    PiecesHold(server, es, sets, Flatten(pieces), records, fileRecords, SetOp);
  }

  /** A server that loads files, retrying each until it gets through, and real-time messages, one
      after the other or interleaved, holds the stream of its items. */
  method LoadItems(server: Server, items: seq<Item>) returns (cache: KeyValueCache)
    requires AreItems(server, items)
    ensures fresh(cache) && cache.Valid() && Holds(cache, server, AllEvents(server, items))
  {
    cache := new KeyValueCache();
    for i := 0 to |items|
      invariant cache.Valid() && Holds(cache, server, AllEvents(server, items[..i]))
    {
      assert items[..i + 1][..i] == items[..i];
      ghost var es := AllEvents(server, items[..i]);
      match items[i] {
        case FileItem(file, attempts) => LoadFile(server, file, attempts, cache, es);
        case Message(records) => LoadMessage(server, records, cache, es);
        case Interleaved(pieces, records, fileRecords) =>
          LoadInterleaved(server, pieces, records, fileRecords, cache, es);
      }
    }
    assert items[..|items|] == items;
  }

  // --------------------------------------------------------------------------- end to end

  /** A sharded deployment answers a lookup as one server fed the same records, except that keys
      of failed shards are marked. */
  method ShardedAnswersMatch(c: Cluster, single: KeyValueCache, ghost a: seq<Event>, ghost b: seq<seq<Event>>,
          keyList: seq<Key>)
    returns (sharded: Result<Response>, local: Response)
    requires c.Valid() && single.Valid() && (InOneOrder(c, single, a, b) || InAnyOrder(c, single, a, b))
    requires c.HasClients() && Fits(c.codec, KeySet(keyList), false)
    ensures sharded.Ok? && sharded.value.Keys == local.Keys == KeySet(keyList)
    ensures forall k :: k in keyList ==> AnswersAs(c, k, sharded.value[k], local[k])
    ensures !AnyFails(c) ==> sharded == Ok(local)
  {
    ShardsFormUnion(c, single, a, b);
    sharded, local := LookupEqualsUnion(c, single, keyList);
  }

  /** The same for sets, when no shard fails. */
  method ShardedSetsMatch(c: Cluster, single: KeyValueCache, ghost a: seq<Event>, ghost b: seq<seq<Event>>,
          keys: set<Key>)
    returns (sharded: Result<Response>, local: Response)
    requires c.Valid() && single.Valid() && (InOneOrder(c, single, a, b) || InAnyOrder(c, single, a, b))
    requires c.HasClients() && !AnyFails(c) && Fits(c.codec, keys, true)
    ensures sharded == Ok(local)
  {
    ShardsFormUnion(c, single, a, b);
    sharded, local := SetsEqualUnion(c, single, keys);
  }

  /** The same for every query but the empty one, when no shard fails. */
  method ShardedQueriesMatch(c: Cluster, single: KeyValueCache, ghost a: seq<Event>, ghost b: seq<seq<Event>>,
          parsed: Parsed)
    returns (sharded: Result<set<Val>>, local: Result<set<Val>>)
    requires c.Valid() && single.Valid() && (InOneOrder(c, single, a, b) || InAnyOrder(c, single, a, b))
    requires c.HasClients() && !AnyFails(c) && (parsed.Tree? ==> Fits(c.codec, LeafKeys(parsed.root), true))
    ensures sharded == local <==> !parsed.EmptyQuery?
    ensures parsed.Tree? ==> sharded.Ok?
  {
    ShardsFormUnion(c, single, a, b);
    sharded, local := QueryEqualsUnion(c, single, parsed);
  }

  /** A server that is up and holds its stream. */
  ghost predicate Runs(cache: KeyValueCache, server: Server, es: seq<Event>)
    reads cache
  {
    cache.Valid() && Holds(cache, server, es)
  }

  method StartShard(server: Server, items: seq<Item>) returns (cache: KeyValueCache)
    requires AreItems(server, items)
    ensures fresh(cache) && Runs(cache, server, AllEvents(server, items))
  {
    cache := LoadItems(server, items);
  }

  function ShardEvents(hash: (Key, int) -> int, items: seq<seq<Item>>): (b: seq<seq<Event>>)
    ensures |b| == |items|
    ensures forall i :: 0 <= i < |b| ==> b[i] == AllEvents(Server(hash, i, |items|), items[i])
  {
    seq(|items|, i requires 0 <= i < |items| => AllEvents(Server(hash, i, |items|), items[i]))
  }

  /** The servers started so far run, each on its own stream. */
  ghost predicate AllRun(hash: (Key, int) -> int, servers: seq<KeyValueCache>, b: seq<seq<Event>>)
    reads servers
  {
    && |servers| <= |b|
    && forall i :: 0 <= i < |servers| ==> Runs(servers[i], Server(hash, i, |b|), b[i])
  }

  lemma {:induction false} OneMoreRuns(hash: (Key, int) -> int, servers: seq<KeyValueCache>, cache: KeyValueCache,
          b: seq<seq<Event>>)
    requires AllRun(hash, servers, b) && |servers| < |b|
    requires Runs(cache, Server(hash, |servers|, |b|), b[|servers|])
    ensures AllRun(hash, servers + [cache], b)
  {
    var more := servers + [cache];
    forall i | 0 <= i < |more| ensures Runs(more[i], Server(hash, i, |b|), b[i]) {
      assert more[i] == if i < |servers| then servers[i] else cache;
    }
  }

  /** Starts one server per list of items. */
  method StartShards(hash: (Key, int) -> int, items: seq<seq<Item>>) returns (servers: seq<KeyValueCache>)
    requires forall i :: 0 <= i < |items| ==> AreItems(Server(hash, i, |items|), items[i])
    ensures |servers| == |items| && AllRun(hash, servers, ShardEvents(hash, items))
    ensures forall i :: 0 <= i < |servers| ==> fresh(servers[i])
  {
    servers := [];
    ghost var b := ShardEvents(hash, items);
    for i := 0 to |items|
      invariant |servers| == i && AllRun(hash, servers, b)
      invariant forall j :: 0 <= j < i ==> fresh(servers[j])
    {
      var cache := StartShard(Server(hash, i, |items|), items[i]);
      OneMoreRuns(hash, servers, cache, b);
      servers := servers + [cache];
    }
  }

  /** What a deployment must be given: a hash and a codec that work, and clients. */
  ghost predicate CanDeploy(hash: (Key, int) -> int, codec: Codec, n: int, current: nat, clients: set<int>) {
    && 1 < n && current < n && (forall k :: 0 <= hash(k, n) < n)
    && (forall keys, sets :: codec.parse(codec.serialize(keys, sets)) == Some((keys, sets)))
    && (forall i :: 0 <= i < n && i != current ==> i in clients)
  }

  /** From the files and messages to a cluster and one unsharded server that can be compared. The
      shards may retry loads and interleave messages, each in its own way. */
  method Deploy(hash: (Key, int) -> int, codec: Codec, current: nat, clients: set<int>, failures: map<int, int>,
          a: seq<Event>, items: seq<seq<Item>>)
    returns (c: Cluster, single: KeyValueCache)
    requires CanDeploy(hash, codec, |items|, current, clients)
    requires forall i :: 0 <= i < |items| ==> AreItems(Server(hash, i, |items|), items[i])
    requires forall i :: 0 <= i < |items| ==> SameEvents(a, ShardEvents(hash, items)[i])
    ensures c.Valid() && single.Valid() && c.HasClients() && FedAlike(c, single, a, ShardEvents(hash, items))
    ensures c.hash == hash && c.codec == codec && c.current == current && c.failures == failures
    ensures fresh(single) && forall i :: 0 <= i < |c.servers| ==> fresh(c.servers[i])
  {
    var servers := StartShards(hash, items);
    single := LoadStream(Unsharded(hash), a);
    c := Cluster(hash, codec, servers, current, clients, failures);
  }

  /** From the files and messages to the answers, with any shards failing. */
  method DeployAndLookup(hash: (Key, int) -> int, codec: Codec, current: nat, clients: set<int>,
          failures: map<int, int>, a: seq<Event>, items: seq<seq<Item>>, keyList: seq<Key>)
    returns (sharded: Result<Response>, local: Response)
    requires CanDeploy(hash, codec, |items|, current, clients) && Fits(codec, KeySet(keyList), false)
    requires forall i :: 0 <= i < |items| ==> AreItems(Server(hash, i, |items|), items[i])
    requires forall i :: 0 <= i < |items| ==> SameEvents(a, ShardEvents(hash, items)[i])
    requires OwnTiesAlike(hash, a, ShardEvents(hash, items)) && DropsNothing(Unsharded(hash), a)
    ensures sharded.Ok? && sharded.value.Keys == local.Keys == KeySet(keyList)
    ensures forall k :: k in keyList ==> sharded.value[k] == if Failed(hash, |items|, current, failures, k)
                                                             then Status(INTERNAL) else local[k]
  {
    var c, single := Deploy(hash, codec, current, clients, failures, a, items);
    sharded, local := ShardedAnswersMatch(c, single, a, ShardEvents(hash, items), keyList);
  }

  /** The key belongs to another shard, and that shard fails. */
  predicate Failed(hash: (Key, int) -> int, n: int, current: nat, failures: map<int, int>, k: Key) {
    hash(k, n) != current && hash(k, n) in failures
  }

  /** The same for sets and every query but the empty one, with no shard failing. */
  method DeployAndQuery(hash: (Key, int) -> int, codec: Codec, current: nat, clients: set<int>, a: seq<Event>,
          items: seq<seq<Item>>, keys: set<Key>, parsed: Parsed)
    returns (sharded: Result<Response>, local: Response, query: Result<set<Val>>, localQuery: Result<set<Val>>)
    requires CanDeploy(hash, codec, |items|, current, clients)
    requires Fits(codec, keys, true) && (parsed.Tree? ==> Fits(codec, LeafKeys(parsed.root), true))
    requires forall i :: 0 <= i < |items| ==> AreItems(Server(hash, i, |items|), items[i])
    requires forall i :: 0 <= i < |items| ==> SameEvents(a, ShardEvents(hash, items)[i])
    requires OwnTiesAlike(hash, a, ShardEvents(hash, items)) && DropsNothing(Unsharded(hash), a)
    ensures sharded == Ok(local)
    ensures query == localQuery <==> !parsed.EmptyQuery?
    ensures parsed.Tree? ==> query.Ok?
  {
    var c, single := Deploy(hash, codec, current, clients, map[], a, items);
    ghost var b := ShardEvents(hash, items);
    sharded, local := ShardedSetsMatch(c, single, a, b, keys);
    query, localQuery := ShardedQueriesMatch(c, single, a, b, parsed);
  }
}
