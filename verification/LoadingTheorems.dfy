/** What the loading pipeline guarantees: when shards together hold what one server would, and
that retried loads leave no trace. */
module LoadingTheorems {

  import opened Basics
  import opened Registers
  import opened KeyValueCaches
  import opened DataLoading

  // ----------------------------------------------------------- what records are written

  /** The record, when applied, offers entry `e` to register `id`. */
  ghost predicate Gives<I, P>(opOf: OpOf<I, P>, r: Record, id: I, e: Entry<P>) {
    && opOf(r).Some? && Hits(opOf(r).value, id)
    && e == Entry(opOf(r).value.payload, opOf(r).value.time)
  }

  ghost predicate OnlyWrites<I(!new), P(!new)>(opOf: OpOf<I, P>) {
    forall r :: opOf(r).Some? ==> opOf(r).value.Write?
  }

  lemma {:induction false} OpsCollectFree<I(!new), P(!new)>(server: Server, records: seq<Record>, opOf: OpOf<I, P>)
    requires OnlyWrites(opOf)
    ensures CollectFree(Ops(server, records, opOf))
  {
    if records != [] {
      OpsCollectFree(server, records[..|records| - 1], opOf);
    }
  }

  /** A load offers exactly the entries of the records that apply. */
  lemma {:induction false} OpsOffered<I(!new), P(!new)>(server: Server, records: seq<Record>, opOf: OpOf<I, P>,
          id: I, e: Entry<P>)
    requires OnlyWrites(opOf)
    ensures Offered(Ops(server, records, opOf), id, e) <==>
            exists r :: r in records && Applies(server, r) && Gives(opOf, r, id, e)
  {
    if records != [] {
      var n := |records| - 1;
      var last := records[n];
      OpsOffered(server, records[..n], opOf, id, e);
      assert records == records[..n] + [last];
      if Applies(server, last) && opOf(last).Some? {
        var op := opOf(last).value;
        OfferedConcat(Ops(server, records[..n], opOf), [op], id, e);
        assert [op][0] == op;
        assert Offered([op], id, e) <==> Gives(opOf, last, id, e);
      } else {
        assert Ops(server, records, opOf) == Ops(server, records[..n], opOf);
      }
    }
  }

  /** `MaxTimestamp` is the largest time that was applied, and at least 0. */
  lemma {:induction false} MaxTimestampIsMaximum(server: Server, records: seq<Record>)
    ensures MaxTimestamp(server, records) >= 0
    ensures forall r :: r in records && Applies(server, r) ==> r.time <= MaxTimestamp(server, records)
    ensures MaxTimestamp(server, records) == 0
            || exists r :: r in records && Applies(server, r) && r.time == MaxTimestamp(server, records)
  {
    if records != [] {
      var n := |records| - 1;
      MaxTimestampIsMaximum(server, records[..n]);
      assert records == records[..n] + [records[n]];
    }
  }

  /** Fewer accepted records give no later clean-up, whatever the delivery order. */
  lemma {:induction false} MaxTimestampMonotone(a: Server, x: seq<Record>, b: Server, y: seq<Record>)
    requires forall r :: r in x && Applies(a, r) ==> r in y && Applies(b, r)
    ensures MaxTimestamp(a, x) <= MaxTimestamp(b, y)
  {
    MaxTimestampIsMaximum(a, x);
    MaxTimestampIsMaximum(b, y);
  }

  // ------------------------------------------------------------------------------- ties

  /** The entry of the first record that writes register `id` at a commit time. */
  ghost function FirstGiven<I, P>(records: seq<Record>, opOf: OpOf<I, P>, id: I, time: Time): Option<Entry<P>> {
    if records == [] then None
    else
      var before := FirstGiven(records[..|records| - 1], opOf, id, time);
      var op := opOf(records[|records| - 1]);
      if before.Some? then before
      else if op.Some? && Hits(op.value, id) && op.value.time == time then Some(Entry(op.value.payload, time))
      else None
  }

  /** Records that tie on the register come in the same order, as far as the winner goes. */
  ghost predicate SameTies<I, P>(x: seq<Record>, y: seq<Record>, opOf: OpOf<I, P>, id: I) {
    forall time :: FirstGiven(x, opOf, id, time) == FirstGiven(y, opOf, id, time)
  }

  /** No two of the records offer different entries at one time to one register. */
  ghost predicate ConflictFreeRecords<I(!new), P(!new)>(records: seq<Record>, opOf: OpOf<I, P>) {
    forall r, s, id, e, f ::
      r in records && s in records && Gives(opOf, r, id, e) && Gives(opOf, s, id, f) && e.time == f.time ==> e == f
  }

  lemma {:induction false} FirstGivenIsGiven<I, P>(records: seq<Record>, opOf: OpOf<I, P>, id: I, time: Time)
    ensures var first := FirstGiven(records, opOf, id, time);
            first.Some? ==> first.value.time == time && exists r :: r in records && Gives(opOf, r, id, first.value)
    ensures forall r :: r in records && opOf(r).Some? && Hits(opOf(r).value, id) && opOf(r).value.time == time ==>
                          FirstGiven(records, opOf, id, time).Some?
  {
    if records != [] {
      var n := |records| - 1;
      FirstGivenIsGiven(records[..n], opOf, id, time);
      assert records == records[..n] + [records[n]];
      var first := FirstGiven(records, opOf, id, time);
      if first.Some? && FirstGiven(records[..n], opOf, id, time).None? {
        assert Gives(opOf, records[n], id, first.value);
      }
    }
  }

  /** Without conflicts the order of the records does not matter for ties. */
  lemma {:induction false} ConflictFreeSameTies<I(!new), P(!new)>(x: seq<Record>, y: seq<Record>, opOf: OpOf<I, P>,
          id: I)
    requires SameRecords(x, y) && ConflictFreeRecords(x, opOf)
    ensures SameTies(x, y, opOf, id)
  {
    forall time ensures FirstGiven(x, opOf, id, time) == FirstGiven(y, opOf, id, time) {
      FirstGivenIsGiven(x, opOf, id, time);
      FirstGivenIsGiven(y, opOf, id, time);
    }
  }

  // ------------------------------------------------------------------ shards and streams

  /** The same events in the same order; within each, records in any order. */
  predicate SameEvents(a: seq<Event>, b: seq<Event>) {
    && |a| == |b|
    && forall i :: 0 <= i < |a| ==> a[i].Apply? == b[i].Apply? && SameRecords(a[i].records, b[i].records)
  }

  /** Ties on the register within one event are settled alike. Ties between events always are. */
  ghost predicate TiesAlike<I, P>(a: seq<Event>, b: seq<Event>, opOf: OpOf<I, P>, id: I)
    requires SameEvents(a, b)
  {
    forall i :: 0 <= i < |a| && a[i].Apply? ==> SameTies(a[i].records, b[i].records, opOf, id)
  }

  /** Every record that writes register `id` applies at the server. */
  ghost predicate Owns<I(!new), P(!new)>(server: Server, opOf: OpOf<I, P>, id: I) {
    forall r, e :: Gives(opOf, r, id, e) ==> Applies(server, r)
  }

  /** Server `b` accepts no record that `a` rejects. */
  ghost predicate AcceptsLess(b: Server, a: Server) {
    forall r :: Applies(b, r) ==> Applies(a, r)
  }

  lemma {:induction false} OwnedFirsts<I(!new), P(!new)>(server: Server, records: seq<Record>, opOf: OpOf<I, P>,
          id: I, time: Time)
    requires Owns(server, opOf, id)
    ensures FirstOffer(Ops(server, records, opOf), id, time) == FirstGiven(records, opOf, id, time)
  {
    if records != [] {
      var n := |records| - 1;
      var last := records[n];
      OwnedFirsts(server, records[..n], opOf, id, time);
      if Applies(server, last) && opOf(last).Some? {
        var op := opOf(last).value;
        FirstOfferConcat(Ops(server, records[..n], opOf), [op], id, time);
        assert [op][..0] == [];
      } else {
        assert Ops(server, records, opOf) == Ops(server, records[..n], opOf);
        assert opOf(last).Some? && Hits(opOf(last).value, id) ==>
                 Gives(opOf, last, id, Entry(opOf(last).value.payload, opOf(last).value.time));
      }
    }
  }

  lemma {:induction false} OwnedWrites<I(!new), P(!new)>(a: Server, x: seq<Record>, b: Server, y: seq<Record>,
          opOf: OpOf<I, P>, id: I)
    requires OnlyWrites(opOf) && SameRecords(x, y) && Owns(a, opOf, id) && Owns(b, opOf, id)
    ensures SameWrites(Ops(a, x, opOf), Ops(b, y, opOf), id)
  {
    forall e ensures Offered(Ops(a, x, opOf), id, e) <==> Offered(Ops(b, y, opOf), id, e) {
      OpsOffered(a, x, opOf, id, e);
      OpsOffered(b, y, opOf, id, e);
    }
  }

  lemma {:induction false} EventCutoff<I(!new), P(!new)>(server: Server, es: seq<Event>, opOf: OpOf<I, P>)
    requires OnlyWrites(opOf) && es != []
    ensures var before, e := Cutoff(StreamLog(server, es[..|es| - 1], opOf)), es[|es| - 1];
            Cutoff(StreamLog(server, es, opOf)) ==
            if e.CleanUp? then Max(before, MaxTimestamp(server, e.records)) else before
  {
    var log, e := StreamLog(server, es[..|es| - 1], opOf), es[|es| - 1];
    if e.Apply? {
      OpsCollectFree(server, e.records, opOf);
      CutoffConcat(log, Ops(server, e.records, opOf));
    } else {
      CutoffSnoc(log, Collect(MaxTimestamp(server, e.records)));
    }
  }

  /** What an event offers, and what of it is admitted. */
  lemma {:induction false} EventOffers<I(!new), P(!new)>(server: Server, es: seq<Event>, opOf: OpOf<I, P>, id: I,
          entry: Entry<P>)
    requires OnlyWrites(opOf) && es != []
    ensures var log, e := StreamLog(server, es[..|es| - 1], opOf), es[|es| - 1];
            var offers := e.Apply? && Offered(Ops(server, e.records, opOf), id, entry);
            && (Offered(StreamLog(server, es, opOf), id, entry) <==> Offered(log, id, entry) || offers)
            && (Admitted(StreamLog(server, es, opOf), id, entry) <==>
                Admitted(log, id, entry) || (offers && entry.time > Cutoff(log)))
  {
    var log, e := StreamLog(server, es[..|es| - 1], opOf), es[|es| - 1];
    OfferedConcat(log, EventLog(server, e, opOf), id, entry);
    if e.Apply? {
      OpsCollectFree(server, e.records, opOf);
      AdmittedConcat(log, Ops(server, e.records, opOf), id, entry);
    } else {
      AdmittedSnoc(log, Collect(MaxTimestamp(server, e.records)), id, entry);
    }
  }

  /** A shard's cutoff never passes the cutoff of a server that takes every record. */
  lemma {:induction false} ShardCutoff<I(!new), P(!new)>(single: Server, a: seq<Event>, shard: Server, b: seq<Event>,
          opOf: OpOf<I, P>)
    requires OnlyWrites(opOf) && SameEvents(a, b) && AcceptsLess(shard, single)
    ensures Cutoff(StreamLog(shard, b, opOf)) <= Cutoff(StreamLog(single, a, opOf))
  {
    if a != [] {
      var n := |a| - 1;
      ShardCutoff(single, a[..n], shard, b[..n], opOf);
      EventCutoff(single, a, opOf);
      EventCutoff(shard, b, opOf);
      MaxTimestampMonotone(shard, b[n].records, single, a[n].records);
    }
  }

  /** So a write that the server taking every record admits is admitted by its shard, too; and
      both are offered the same writes. */
  lemma {:induction false} ShardAdmits<I(!new), P(!new)>(single: Server, a: seq<Event>, shard: Server, b: seq<Event>,
          opOf: OpOf<I, P>, id: I, entry: Entry<P>)
    requires OnlyWrites(opOf) && SameEvents(a, b) && AcceptsLess(shard, single)
    requires Owns(single, opOf, id) && Owns(shard, opOf, id)
    ensures Offered(StreamLog(single, a, opOf), id, entry) <==> Offered(StreamLog(shard, b, opOf), id, entry)
    ensures Admitted(StreamLog(single, a, opOf), id, entry) ==> Admitted(StreamLog(shard, b, opOf), id, entry)
  {
    if a != [] {
      var n := |a| - 1;
      ShardAdmits(single, a[..n], shard, b[..n], opOf, id, entry);
      ShardCutoff(single, a[..n], shard, b[..n], opOf);
      EventOffers(single, a, opOf, id, entry);
      EventOffers(shard, b, opOf, id, entry);
      OwnedWrites(single, a[n].records, shard, b[n].records, opOf, id);
    }
  }

  lemma {:induction false} EventFirsts<I, P>(server: Server, es: seq<Event>, opOf: OpOf<I, P>, id: I, time: Time)
    requires es != []
    ensures var before := FirstOffer(StreamLog(server, es[..|es| - 1], opOf), id, time);
            var e := es[|es| - 1];
            FirstOffer(StreamLog(server, es, opOf), id, time) ==
            if before.Some? || e.CleanUp? then before else FirstOffer(Ops(server, e.records, opOf), id, time)
  {
    var e := es[|es| - 1];
    FirstOfferConcat(StreamLog(server, es[..|es| - 1], opOf), EventLog(server, e, opOf), id, time);
    if e.CleanUp? {
      assert EventLog(server, e, opOf)[..0] == [];
    }
  }

  lemma {:induction false} ShardFirsts<I(!new), P(!new)>(single: Server, a: seq<Event>, shard: Server, b: seq<Event>,
          opOf: OpOf<I, P>, id: I, time: Time)
    requires SameEvents(a, b) && TiesAlike(a, b, opOf, id)
    requires Owns(single, opOf, id) && Owns(shard, opOf, id)
    ensures FirstOffer(StreamLog(single, a, opOf), id, time) == FirstOffer(StreamLog(shard, b, opOf), id, time)
  {
    if a != [] {
      var n := |a| - 1;
      ShardFirsts(single, a[..n], shard, b[..n], opOf, id, time);
      EventFirsts(single, a, opOf, id, time);
      EventFirsts(shard, b, opOf, id, time);
      OwnedFirsts(single, a[n].records, opOf, id, time);
      OwnedFirsts(shard, b[n].records, opOf, id, time);
      assert a[n].Apply? ==> SameTies(a[n].records, b[n].records, opOf, id);
    }
  }

  /** Exactly when a register has the same content on its shard as on a server that takes every
      record: if and only if nothing the shard admits is newer than everything that server
      admits, and ties at the winning time have the same winner. */
  lemma {:induction false} ShardAgreesIff<I(!new), P(!new)>(single: Server, a: seq<Event>, shard: Server, b: seq<Event>,
          opOf: OpOf<I, P>, id: I)
    requires OnlyWrites(opOf) && SameEvents(a, b) && AcceptsLess(shard, single)
    requires Owns(single, opOf, id) && Owns(shard, opOf, id)
    ensures Register(StreamLog(single, a, opOf), id) == Register(StreamLog(shard, b, opOf), id) <==>
            && CatchesUp(StreamLog(single, a, opOf), StreamLog(shard, b, opOf), id)
            && SameWinner(StreamLog(single, a, opOf), StreamLog(shard, b, opOf), id)
  {
    forall e ensures Admitted(StreamLog(single, a, opOf), id, e) ==> Admitted(StreamLog(shard, b, opOf), id, e) {
      ShardAdmits(single, a, shard, b, opOf, id, e);
    }
    AdmittedDecides(StreamLog(single, a, opOf), StreamLog(shard, b, opOf), id);
  }

  /** In particular if the server that takes every record drops no write, and ties within one
      event are settled alike. */
  lemma {:induction false} ShardHoldsRegister<I(!new), P(!new)>(single: Server, a: seq<Event>, shard: Server,
          b: seq<Event>, opOf: OpOf<I, P>, id: I)
    requires OnlyWrites(opOf) && SameEvents(a, b) && TiesAlike(a, b, opOf, id) && AcceptsLess(shard, single)
    requires Owns(single, opOf, id) && Owns(shard, opOf, id)
    requires NoneDropped(StreamLog(single, a, opOf), id)
    ensures Register(StreamLog(single, a, opOf), id) == Register(StreamLog(shard, b, opOf), id)
  {
    forall e | Admitted(StreamLog(shard, b, opOf), id, e) ensures Reaches(StreamLog(single, a, opOf), id, e.time) {
      ShardAdmits(single, a, shard, b, opOf, id, e);
      NoneDroppedAdmitsAll(StreamLog(single, a, opOf), id, e);
    }
    var q := Register(StreamLog(shard, b, opOf), id);
    if q.Some? {
      ShardFirsts(single, a, shard, b, opOf, id, q.value.time);
    }
    ShardAgreesIff(single, a, shard, b, opOf, id);
  }

  // ------------------------------------------------------------- streams in any order

  /** The stream offers the record to the cache. */
  predicate Carries(es: seq<Event>, r: Record) {
    && es != []
    && (Carries(es[..|es| - 1], r) || (es[|es| - 1].Apply? && r in es[|es| - 1].records))
  }

  /** The same records, in any order, with clean-ups anywhere. */
  ghost predicate SameContents(a: seq<Event>, b: seq<Event>) {
    forall r :: Carries(a, r) <==> Carries(b, r)
  }

  ghost predicate StreamGives<I, P>(es: seq<Event>, opOf: OpOf<I, P>, id: I, entry: Entry<P>) {
    exists r :: Carries(es, r) && Gives(opOf, r, id, entry)
  }

  /** The last event, or one before it, gives what a stream gives. */
  lemma {:induction false} StreamGivesLast<I, P>(es: seq<Event>, opOf: OpOf<I, P>, id: I, entry: Entry<P>)
    requires es != []
    ensures var last := es[|es| - 1];
            StreamGives(es, opOf, id, entry) <==>
            || StreamGives(es[..|es| - 1], opOf, id, entry)
            || (last.Apply? && exists r :: r in last.records && Gives(opOf, r, id, entry))
  {
    var before, last := es[..|es| - 1], es[|es| - 1];
    if StreamGives(before, opOf, id, entry) {
      var r :| Carries(before, r) && Gives(opOf, r, id, entry);
      assert Carries(es, r);
    }
    if last.Apply? && exists r :: r in last.records && Gives(opOf, r, id, entry) {
      var r :| r in last.records && Gives(opOf, r, id, entry);
      assert Carries(es, r);
    }
  }

  lemma {:induction false} StreamOffered<I(!new), P(!new)>(server: Server, es: seq<Event>, opOf: OpOf<I, P>, id: I,
          entry: Entry<P>)
    requires OnlyWrites(opOf) && Owns(server, opOf, id)
    ensures Offered(StreamLog(server, es, opOf), id, entry) <==> StreamGives(es, opOf, id, entry)
  {
    if es != [] {
      var n := |es| - 1;
      StreamOffered(server, es[..n], opOf, id, entry);
      EventOffers(server, es, opOf, id, entry);
      OpsOffered(server, es[n].records, opOf, id, entry);
      StreamGivesLast(es, opOf, id, entry);
    }
  }

  /** If neither server drops a write of the register and no two writes of it conflict, the order
      in which each sees the records does not matter. */
  lemma {:induction false} ShardHoldsInAnyOrder<I(!new), P(!new)>(single: Server, a: seq<Event>, shard: Server,
          b: seq<Event>, opOf: OpOf<I, P>, id: I)
    requires OnlyWrites(opOf) && SameContents(a, b) && Owns(single, opOf, id) && Owns(shard, opOf, id)
    requires NoneDropped(StreamLog(single, a, opOf), id) && NoneDropped(StreamLog(shard, b, opOf), id)
    requires ConflictFree(StreamLog(single, a, opOf), StreamLog(single, a, opOf), id)
    ensures Register(StreamLog(single, a, opOf), id) == Register(StreamLog(shard, b, opOf), id)
  {
    forall e ensures Offered(StreamLog(single, a, opOf), id, e) <==> Offered(StreamLog(shard, b, opOf), id, e) {
      StreamOffered(single, a, opOf, id, e);
      StreamOffered(shard, b, opOf, id, e);
    }
    OrderIsIrrelevant(StreamLog(single, a, opOf), StreamLog(shard, b, opOf), id);
  }

  // ------------------------------------------------------------- streams that diverge

  /** The history of a server after one record in a file and one in a real-time message. */
  lemma {:induction false} FileThenMessage(server: Server, r: Record, q: Record)
    ensures StreamLog(server, [Apply([r]), CleanUp([r]), Apply([q])], KvOp)
         == Ops(server, [r], KvOp) + [Collect(MaxTimestamp(server, [r]))] + Ops(server, [q], KvOp)
  {
    var es := [Apply([r]), CleanUp([r])];
    StreamLogSnoc(server, [], Apply([r]), KvOp);
    StreamLogSnoc(server, [Apply([r])], CleanUp([r]), KvOp);
    StreamLogSnoc(server, es, Apply([q]), KvOp);
    assert [] + [Apply([r])] == [Apply([r])] && [Apply([r])] + [CleanUp([r])] == es;
    assert es + [Apply([q])] == [Apply([r]), CleanUp([r]), Apply([q])];
  }

  lemma {:induction false} OneRecord(server: Server, r: Record)
    ensures Ops(server, [r], KvOp) == if Applies(server, r) && KvOp(r).Some? then [KvOp(r).value] else []
    ensures MaxTimestamp(server, [r]) == if Applies(server, r) then Max(0, r.time) else 0
  {
    assert [r][..0] == [];
  }

  /** A late write that the single server drops, because another key raised its cutoff, is kept
      by its shard. */
  lemma {:induction false} DroppedWriteDiverges(hash: (Key, int) -> int, n: int, j: Key, k: Key, x: Val, y: Val,
          time: Time, late: Time)
    requires n > 1 && hash(j, n) != hash(k, n) && 0 < late <= time
    ensures var r, q := Mutation(Update, j, StringValue(x), time), Mutation(Update, k, StringValue(y), late);
            var es := [Apply([r]), CleanUp([r]), Apply([q])];
            && Register(StreamLog(Server(hash, 0, 1), es, KvOp), k) == None
            && Register(StreamLog(Server(hash, hash(k, n), n), es, KvOp), k) == Some(Entry(Some(y), late))
  {
    var r, q := Mutation(Update, j, StringValue(x), time), Mutation(Update, k, StringValue(y), late);
    SingleDrops(Server(hash, 0, 1), r, q);
    ShardKeeps(Server(hash, hash(k, n), n), r, q);
  }

  lemma {:induction false} SingleDrops(single: Server, r: Record, q: Record)
    requires Applies(single, r) && Applies(single, q) && KvOp(r).Some? && KvOp(q).Some?
    requires q.key != r.key && 0 < q.time <= r.time
    ensures Register(StreamLog(single, [Apply([r]), CleanUp([r]), Apply([q])], KvOp), q.key) == None
  {
    FileThenMessage(single, r, q);
    OneRecord(single, r);
    OneRecord(single, q);
    var first: seq<Op<Key, Val>> := [KvOp(r).value];
    CutoffSnoc(first, Collect(r.time));
    RegisterSnoc(first, Collect(r.time), q.key);
    RegisterSnoc(first + [Collect(r.time)], KvOp(q).value, q.key);
  }

  lemma {:induction false} ShardKeeps(shard: Server, r: Record, q: Record)
    requires !Applies(shard, r) && Applies(shard, q) && KvOp(q).Some? && 0 < q.time
    ensures Register(StreamLog(shard, [Apply([r]), CleanUp([r]), Apply([q])], KvOp), q.key)
         == Some(Entry(KvOp(q).value.payload, q.time))
  {
    FileThenMessage(shard, r, q);
    OneRecord(shard, r);
    OneRecord(shard, q);
    var none: seq<Op<Key, Val>> := [];
    CutoffSnoc(none, Collect(0));
    RegisterSnoc(none, Collect(0), q.key);
    RegisterSnoc(none + [Collect(0)], KvOp(q).value, q.key);
  }

  // ------------------------------------------------------------------------------ retries

  /** Failed attempts only write, and only what the file holds. */
  lemma {:induction false} FailedAttempts<I(!new), P(!new)>(server: Server, file: File, attempts: seq<Attempt>,
          opOf: OpOf<I, P>)
    requires OnlyWrites(opOf)
    requires forall i :: 0 <= i < |attempts| ==> AttemptAt(file, attempts[i]) && !Succeeds(server, attempts[i])
    ensures CollectFree(AttemptsLog(server, attempts, opOf))
    ensures forall id, e :: Offered(AttemptsLog(server, attempts, opOf), id, e) ==>
                              Offered(Ops(server, file.records, opOf), id, e)
  {
    if attempts != [] {
      var n := |attempts| - 1;
      var before, last := AttemptsLog(server, attempts[..n], opOf), AttemptLog(server, attempts[n], opOf);
      FailedAttempts(server, file, attempts[..n], opOf);
      OpsCollectFree(server, attempts[n].delivered, opOf);
      forall id, e | Offered(before + last, id, e) ensures Offered(Ops(server, file.records, opOf), id, e) {
        OfferedConcat(before, last, id, e);
        OpsOffered(server, attempts[n].delivered, opOf, id, e);
        OpsOffered(server, file.records, opOf, id, e);
      }
    }
  }

  /** Any number of failed attempts before a complete load change nothing: every register and
      the cutoff end up as after one clean load of the file. */
  lemma {:induction false} RetriesLeaveNoTrace<I(!new), P(!new)>(server: Server, file: File, attempts: seq<Attempt>,
          log: seq<Op<I, P>>, opOf: OpOf<I, P>)
    requires OnlyWrites(opOf) && ConflictFreeRecords(file.records, opOf)
    requires IsLoadOf(server, file, attempts)
    ensures SameOutcome(log + AttemptsLog(server, attempts, opOf), log + AttemptLog(server, CleanAttempt(file), opOf))
  {
    var n := |attempts| - 1;
    var failed, last := AttemptsLog(server, attempts[..n], opOf), attempts[n];
    if Skips(server, last) {
      SkippedAttempts(server, file, attempts[..n], opOf);
      assert AttemptsLog(server, attempts, opOf) == [];
    } else {
      FailedAttempts(server, file, attempts[..n], opOf);
      var ws, ds := Ops(server, last.delivered, opOf), Ops(server, file.records, opOf);
      var op: Op<I, P> := Collect(MaxTimestamp(server, last.delivered));
      assert AttemptsLog(server, attempts, opOf) == failed + ws + [op];
      SameMaxTimestamp(server, last.delivered, file.records);
      OpsCollectFree(server, last.delivered, opOf);
      OpsCollectFree(server, file.records, opOf);
      CutoffAfterWrites(log, failed + ws, op);
      CutoffAfterWrites(log, ds, op);
      forall id ensures Register(log + (failed + ws + [op]), id) == Register(log + (ds + [op]), id) {
        CompleteAttempt(server, file, failed, last.delivered, opOf, id);
        SameWritesCollectAlike(log, failed + ws, ds, op, id);
      }
    }
  }

  lemma {:induction false} SameMaxTimestamp(server: Server, x: seq<Record>, y: seq<Record>)
    requires SameRecords(x, y)
    ensures MaxTimestamp(server, x) == MaxTimestamp(server, y)
  {
    MaxTimestampMonotone(server, x, server, y);
    MaxTimestampMonotone(server, y, server, x);
  }

  lemma {:induction false} CutoffAfterWrites<I, P>(log: seq<Op<I, P>>, ws: seq<Op<I, P>>, op: Op<I, P>)
    requires CollectFree(ws) && op.Collect?
    ensures Cutoff(log + (ws + [op])) == Max(Cutoff(log), op.time)
  {
    CutoffConcat(log, ws);
    assert log + (ws + [op]) == log + ws + [op];
    CutoffSnoc(log + ws, op);
  }

  lemma {:induction false} SameWritesCollectAlike<I(!new), P(!new)>(log: seq<Op<I, P>>, a: seq<Op<I, P>>,
          b: seq<Op<I, P>>, op: Op<I, P>, id: I)
    requires CollectFree(a) && CollectFree(b) && ConflictFree(a, b, id) && SameWrites(a, b, id) && op.Collect?
    ensures Register(log + (a + [op]), id) == Register(log + (b + [op]), id)
  {
    SameWritesSettleAlike(log, a, b, id);
    assert log + (a + [op]) == log + a + [op] && log + (b + [op]) == log + b + [op];
    RegisterSnoc(log + a, op, id);
    RegisterSnoc(log + b, op, id);
  }

  lemma {:induction false} SkippedAttempts<I, P>(server: Server, file: File, attempts: seq<Attempt>, opOf: OpOf<I, P>)
    requires file.metadata.ShardNum? && file.metadata.shard != server.shardNum
    requires forall i :: 0 <= i < |attempts| ==> AttemptAt(file, attempts[i])
    ensures AttemptsLog(server, attempts, opOf) == []
  {
    if attempts != [] {
      SkippedAttempts(server, file, attempts[..|attempts| - 1], opOf);
    }
  }

  lemma {:induction false} CompleteAttempt<I(!new), P(!new)>(server: Server, file: File, failed: seq<Op<I, P>>,
          delivered: seq<Record>, opOf: OpOf<I, P>, id: I)
    requires OnlyWrites(opOf) && ConflictFreeRecords(file.records, opOf)
    requires CollectFree(failed) && SameRecords(delivered, file.records)
    requires forall e :: Offered(failed, id, e) ==> Offered(Ops(server, file.records, opOf), id, e)
    ensures var ws, ds := Ops(server, delivered, opOf), Ops(server, file.records, opOf);
            && CollectFree(failed + ws) && CollectFree(ds)
            && SameWrites(failed + ws, ds, id) && ConflictFree(failed + ws, ds, id)
  {
    var ws, ds := Ops(server, delivered, opOf), Ops(server, file.records, opOf);
    OpsCollectFree(server, delivered, opOf);
    OpsCollectFree(server, file.records, opOf);
    forall e ensures Offered(failed + ws, id, e) <==> Offered(ds, id, e) {
      OfferedConcat(failed, ws, id, e);
      OpsOffered(server, delivered, opOf, id, e);
      OpsOffered(server, file.records, opOf, id, e);
    }
    forall e, f | Offered(ds, id, e) && Offered(ds, id, f) && e.time == f.time ensures e == f {
      OpsOffered(server, file.records, opOf, id, e);
      OpsOffered(server, file.records, opOf, id, f);
    }
  }

  /** A cache after a load with failures is as it would be after one clean load. */
  method LoadWithRetries(server: Server, ghost file: File, attempts: seq<Attempt>, cache: KeyValueCache)
    requires cache.Valid() && IsLoadOf(server, file, attempts)
    requires ConflictFreeRecords(file.records, KvOp) && ConflictFreeRecords(file.records, SetOp)
    modifies cache
    ensures cache.Valid()
    ensures SameOutcome(cache.kvLog, old(cache.kvLog) + AttemptLog(server, CleanAttempt(file), KvOp))
    ensures SameOutcome(cache.setLog, old(cache.setLog) + AttemptLog(server, CleanAttempt(file), SetOp))
  {
    LoadUntilOk(server, attempts, cache);
    RetriesLeaveNoTrace(server, file, attempts, old(cache.kvLog), KvOp);
    RetriesLeaveNoTrace(server, file, attempts, old(cache.setLog), SetOp);
  }
}
