/** The steps of the set-map protocol that change the shared memory keep the invariant. */
module SetMapSteps {

  import opened Basics
  import opened Registers
  import opened KeyValueCaches
  import opened SetMapProtocol
  import opened SetMapInvariants

  /** Replacing the value map of one key leaves the value maps of the other keys alone. */
  lemma {:induction false} OtherKeysSame(s: State, key: Key, values: ValueMap, k: Key)
    requires MemoryOk(s) && key in s.table && k != key
    ensures ValuesAt(s.table, s.heap[s.table[key] := values], k) == ValuesAt(s.table, s.heap, k)
  {
  }

  /** A value map under the exclusive use of `t` is in no other result, and no other call has
      a value left to write to it. */
  lemma {:induction false} OthersAwayFrom(s: State, t: Tid, u: Tid, k: Key)
    requires CallsInv(s) && t in s.threads && u in s.threads && t != u && k in s.table
    requires WritesKey(s.threads[t], k, s.table[k]) || Erases(s.threads[t], k, s.table[k])
    ensures HasResult(s.threads[u].pc) ==> k !in s.threads[u].pc.found
    ensures forall v :: !Remaining(s.threads[u], k, v)
  {
    assert Exclusion(s.threads[t], s.threads[u]);
    assert CallInv(s, u, s.threads[u]);
    if HasResult(s.threads[u].pc) && k in s.threads[u].pc.found {
      assert PointsTo(s.threads[u], k, s.threads[u].pc.found[k].ref);
      assert false;
    }
    forall v ensures !Remaining(s.threads[u], k, v) {
      RemainingHolds(s, u, k, v);
    }
  }

  /** What a step that replaces one value map owes to the other calls. */
  lemma {:induction false} HeapChangeOther(s: State, t: Tid, s': State, u: Tid, key: Key, values: ValueMap)
    requires Inv(s) && t in s.threads && u in s.threads && u != t && key in s.table
    requires WritesKey(s.threads[t], key, s.table[key]) || Erases(s.threads[t], key, s.table[key])
    requires s' == s.(threads := s'.threads, heap := s.heap[s.table[key] := values])
    ensures CallInv(s', u, s.threads[u])
  {
    var th := s.threads[u];
    assert CallInv(s, u, th);
    OthersAwayFrom(s, t, u, key);
    if HasResult(th.pc) {
      forall k | k in th.pc.found
        ensures th.pc.found[k].values == LiveValues(ValuesAt(s'.table, s'.heap, k))
      {
        OtherKeysSame(s, key, values, k);
      }
    }
    forall k, v | Remaining(th, k, v)
      ensures Register(s.log, (k, v)) == Merge(CellAt(s'.table, s'.heap, k, v), OpOf(th.call))
    {
      assert k != key;
      OtherKeysSame(s, key, values, k);
    }
  }

  // ------------------------------------------------------------------------ ApplyOne

  /** The turn of the loop offers the value; every other cell stays. */
  lemma {:induction false} ApplyOneCells(s: State, t: Tid, s': State)
    requires ApplyOne(s, t, s') && CallInv(s, t, s.threads[t]) && MemoryOk(s)
    ensures s.threads[t].call.key in s.table && s.table[s.threads[t].call.key] == s.threads[t].pc.ref
    ensures WritesKey(s.threads[t], s.threads[t].call.key, s.threads[t].pc.ref)
    ensures forall k, v :: CellAt(s'.table, s'.heap, k, v) ==
              if k == s.threads[t].call.key && v == s.threads[t].call.values[s.threads[t].pc.next]
              then Merge(CellAt(s.table, s.heap, k, v), OpOf(s.threads[t].call))
              else CellAt(s.table, s.heap, k, v)
  {
    var call, pc := s.threads[t].call, s.threads[t].pc;
    assert PointsTo(s.threads[t], call.key, pc.ref);
    var value := call.values[pc.next];
    forall k, v
      ensures CellAt(s'.table, s'.heap, k, v) ==
              if k == call.key && v == value then Merge(CellAt(s.table, s.heap, k, v), OpOf(call))
              else CellAt(s.table, s.heap, k, v)
    {
      if k != call.key {
        OtherKeysSame(s, call.key, s'.heap[pc.ref], k);
      }
    }
  }

  lemma {:induction false} ApplyOneOwn(s: State, t: Tid, s': State)
    requires ApplyOne(s, t, s') && CallInv(s, t, s.threads[t]) && MemoryOk(s)
    ensures CallInv(s', t, s'.threads[t])
    ensures LocksWithin(s.threads[t], s'.threads[t])
  {
    var th, th' := s.threads[t], s'.threads[t];
    ApplyOneCells(s, t, s');
    SamePointers(s.table, th, th');
    forall k, v | Remaining(th', k, v)
      ensures Register(s'.log, (k, v)) == Merge(CellAt(s'.table, s'.heap, k, v), OpOf(th'.call))
    {
      assert Remaining(th, k, v);
    }
  }

  lemma {:induction false} ApplyOneCalls(s: State, t: Tid, s': State)
    requires Inv(s) && ApplyOne(s, t, s')
    ensures CallsInv(s')
  {
    var th := s.threads[t];
    assert CallInv(s, t, th);
    ApplyOneCells(s, t, s');
    ApplyOneOwn(s, t, s');
    forall u | u in s.threads && u != t ensures CallInv(s', u, s.threads[u]) {
      HeapChangeOther(s, t, s', u, th.call.key, s'.heap[th.pc.ref]);
    }
    NoNewLocks(s, t, s'.threads[t]);
    CallsAssemble(s, t, s');
  }

  lemma {:induction false} ApplyOneTombstone(s: State, t: Tid, s': State, k: Key, v: Val)
    requires Inv(s) && ApplyOne(s, t, s')
    ensures TombstoneOk(s', k, v)
  {
    var th, th' := s.threads[t], s'.threads[t];
    assert CallInv(s, t, th);
    ApplyOneCells(s, t, s');
    assert TombstoneOk(s, k, v);
    var cell' := CellAt(s'.table, s'.heap, k, v);
    if IsTombstone(cell') {
      var m := Mark(cell'.value.time, k, v);
      if cell' != CellAt(s.table, s.heap, k, v) {
        assert Pending(s'.threads[t], m);
      } else if PendingIn(s, m) {
        PendingStays(s, t, s', m);
      } else {
        IndexedStays(s, t, s', m);
      }
    }
  }

  /** The last turn that offers a value completes its register. */
  lemma {:induction false} ApplyOneCompletes(s: State, t: Tid, s': State, k: Key, v: Val)
    requires ApplyOne(s, t, s') && CallInv(s, t, s.threads[t]) && MemoryOk(s)
    requires Remaining(s.threads[t], k, v) && !Remaining(s'.threads[t], k, v)
    ensures CellAt(s'.table, s'.heap, k, v) == Register(s'.log, (k, v))
  {
    ApplyOneCells(s, t, s');
    assert v == s.threads[t].call.values[s.threads[t].pc.next];
  }

  lemma {:induction false} ApplyOneLeaves(s: State, t: Tid, s': State, k: Key, v: Val)
    requires ApplyOne(s, t, s') && CallInv(s, t, s.threads[t]) && MemoryOk(s)
    requires !Remaining(s.threads[t], k, v)
    ensures CellAt(s'.table, s'.heap, k, v) == CellAt(s.table, s.heap, k, v)
  {
    ApplyOneCells(s, t, s');
    assert s.threads[t].call.values[s.threads[t].pc.next] in s.threads[t].call.values[s.threads[t].pc.next..];
  }

  lemma {:induction false} ApplyOneCell(s: State, t: Tid, s': State, k: Key, v: Val)
    requires Inv(s) && ApplyOne(s, t, s')
    ensures CellOk(s', k, v)
  {
    assert CallInv(s, t, s.threads[t]);
    if NoneRemains(s', k, v) {
      assert !Remaining(s'.threads[t], k, v);
      if Remaining(s.threads[t], k, v) {
        ApplyOneCompletes(s, t, s', k, v);
      } else {
        ApplyOneLeaves(s, t, s', k, v);
        NoneRemainsBefore(s, t, s', k, v);
        assert CellOk(s, k, v);
      }
    }
  }

  lemma {:induction false} ApplyOneNoEmpty(s: State, t: Tid, s': State)
    requires ApplyOne(s, t, s') && CallInv(s, t, s.threads[t]) && MemoryOk(s) && NoEmptyMap(s)
    ensures NoEmptyMap(s')
  {
    var th := s.threads[t];
    ApplyOneCells(s, t, s');
    assert th.call.values[th.pc.next] in ValuesAt(s'.table, s'.heap, th.call.key);
    forall k | k in s'.table && ValuesAt(s'.table, s'.heap, k) == map[] ensures ErasedFrom(s', k) {
      OtherKeysSame(s, th.call.key, s'.heap[th.pc.ref], k);
      ErasedStays(s, t, s', k);
    }
  }

  lemma {:induction false} ApplyOneMemory(s: State, t: Tid, s': State)
    requires Inv(s) && ApplyOne(s, t, s')
    ensures MemoryInv(s')
  {
    var th := s.threads[t];
    assert CallInv(s, t, th);
    ApplyOneCells(s, t, s');
    ApplyOneNoEmpty(s, t, s');
    forall k, v ensures TombstoneOk(s', k, v) {
      ApplyOneTombstone(s, t, s', k, v);
    }
    forall k, v ensures CellOk(s', k, v) {
      ApplyOneCell(s, t, s', k, v);
    }
    LogStaysOk(s, t, s');
    if forall u :: u in s'.threads ==> !Cleaning(s'.threads[u]) {
      NobodyCleansBefore(s, t, s');
    }
  }

  // ------------------------------------------------------------------------ EraseOne

  /** Erasing forgets the cell if it is an old tombstone; every other cell stays. */
  lemma {:induction false} EraseOneCells(s: State, t: Tid, value: Val, s': State)
    requires EraseOne(s, t, value, s') && CallInv(s, t, s.threads[t]) && MemoryOk(s)
    ensures s.threads[t].pc.at.1 in s.table && s.table[s.threads[t].pc.at.1] == s.threads[t].pc.ref
    ensures forall k, v :: CellAt(s'.table, s'.heap, k, v) ==
              if k == s.threads[t].pc.at.1 && v == value
              then Forget(CellAt(s.table, s.heap, k, v), s.threads[t].call.time)
              else CellAt(s.table, s.heap, k, v)
  {
    var call, pc := s.threads[t].call, s.threads[t].pc;
    assert PointsTo(s.threads[t], pc.at.1, pc.ref);
    forall k, v
      ensures CellAt(s'.table, s'.heap, k, v) ==
              if k == pc.at.1 && v == value then Forget(CellAt(s.table, s.heap, k, v), call.time)
              else CellAt(s.table, s.heap, k, v)
    {
      if k != pc.at.1 {
        OtherKeysSame(s, pc.at.1, s'.heap[pc.ref], k);
      }
    }
  }

  lemma {:induction false} EraseOneOwn(s: State, t: Tid, value: Val, s': State)
    requires EraseOne(s, t, value, s') && CallInv(s, t, s.threads[t])
    ensures CallInv(s', t, s'.threads[t]) && LocksWithin(s.threads[t], s'.threads[t])
  {
    SamePointers(s.table, s.threads[t], s'.threads[t]);
  }

  lemma {:induction false} EraseOneCalls(s: State, t: Tid, value: Val, s': State)
    requires Inv(s) && EraseOne(s, t, value, s')
    ensures CallsInv(s')
  {
    var th := s.threads[t];
    assert CallInv(s, t, th);
    EraseOneCells(s, t, value, s');
    EraseOneOwn(s, t, value, s');
    forall u | u in s.threads && u != t ensures CallInv(s', u, s.threads[u]) {
      HeapChangeOther(s, t, s', u, th.pc.at.1, s'.heap[th.pc.ref]);
    }
    NoNewLocks(s, t, s'.threads[t]);
    CallsAssemble(s, t, s');
  }

  lemma {:induction false} EraseOneTombstone(s: State, t: Tid, value: Val, s': State, k: Key, v: Val)
    requires Inv(s) && EraseOne(s, t, value, s')
    ensures TombstoneOk(s', k, v)
  {
    var th, th' := s.threads[t], s'.threads[t];
    assert CallInv(s, t, th);
    EraseOneCells(s, t, value, s');
    assert TombstoneOk(s, k, v);
    var cell' := CellAt(s'.table, s'.heap, k, v);
    if IsTombstone(cell') {
      var m := Mark(cell'.value.time, k, v);
      if PendingIn(s, m) {
        PendingStays(s, t, s', m);
      } else {
        IndexedStays(s, t, s', m);
      }
    }
  }

  lemma {:induction false} EraseOneCell(s: State, t: Tid, value: Val, s': State, k: Key, v: Val)
    requires Inv(s) && EraseOne(s, t, value, s')
    ensures CellOk(s', k, v)
  {
    var th := s.threads[t];
    assert CallInv(s, t, th);
    EraseOneCells(s, t, value, s');
    assert CellOk(s, k, v);
    if NoneRemains(s', k, v) {
      NoneRemainsBefore(s, t, s', k, v);
    }
  }

  lemma {:induction false} EraseOneMemory(s: State, t: Tid, value: Val, s': State)
    requires Inv(s) && EraseOne(s, t, value, s')
    ensures MemoryInv(s')
  {
    var th, th' := s.threads[t], s'.threads[t];
    assert CallInv(s, t, th);
    EraseOneCells(s, t, value, s');
    forall k | k in s'.table && ValuesAt(s'.table, s'.heap, k) == map[] ensures ErasedFrom(s', k) {
      if k != th.pc.at.1 {
        OtherKeysSame(s, th.pc.at.1, s'.heap[th.pc.ref], k);
        ErasedStays(s, t, s', k);
      } else {
        assert th'.pc.Erasing? && th'.pc.at.1 == k;
      }
    }
    forall k, v ensures TombstoneOk(s', k, v) {
      EraseOneTombstone(s, t, value, s', k, v);
    }
    forall k, v ensures CellOk(s', k, v) {
      EraseOneCell(s, t, value, s', k, v);
    }
    LogStaysOk(s, t, s');
    assert Cleaning(th');
  }

  // ----------------------------------------------------------------------- EndBucket

  /** A call with no pointer to the erased entry does not notice that it is gone. */
  lemma {:induction false} EntryGone(table: map<Key, Ref>, heap: map<Ref, ValueMap>, table': map<Key, Ref>,
          heap': map<Ref, ValueMap>, key: Key, log: seq<SetOp>, other: Thread)
    requires PointersOk(table, other) && ResultOk(table, heap, other) && MissesOk(table, other)
    requires RemainingOk(table, heap, log, other)
    requires table' == table || table' == table - {key}
    requires forall k :: ValuesAt(table', heap', k) == ValuesAt(table, heap, k)
    requires forall k, r :: PointsTo(other, k, r) ==> k != key
    ensures PointersOk(table', other) && ResultOk(table', heap', other) && MissesOk(table', other)
    ensures RemainingOk(table', heap', log, other)
  {
  }

  lemma {:induction false} EndBucketOther(s: State, t: Tid, s': State, u: Tid)
    requires Inv(s) && EndBucket(s, t, s') && u in s.threads && u != t
    ensures CallInv(s', u, s.threads[u])
  {
    var th, other := s.threads[t], s.threads[u];
    assert CallInv(s, t, th) && CallInv(s, u, other) && Exclusion(th, other);
    EndBucketCells(s, t, s');
    forall k, r | PointsTo(other, k, r) ensures k != th.pc.at.1 {
      assert k in s.table && s.table[k] == r;
      assert Erases(th, th.pc.at.1, th.pc.ref);
    }
    EntryGone(s.table, s.heap, s'.table, s'.heap, th.pc.at.1, s.log, other);
  }

  /** The entry is erased only when it has no values left, so no cell changes. */
  lemma {:induction false} EndBucketCells(s: State, t: Tid, s': State)
    requires EndBucket(s, t, s') && CallInv(s, t, s.threads[t]) && MemoryOk(s)
    ensures s.threads[t].pc.at.1 in s.table && s.table[s.threads[t].pc.at.1] == s.threads[t].pc.ref
    ensures forall k :: ValuesAt(s'.table, s'.heap, k) == ValuesAt(s.table, s.heap, k)
    ensures MemoryOk(s')
  {
    var pc := s.threads[t].pc;
    assert PointsTo(s.threads[t], pc.at.1, pc.ref);
    forall k ensures ValuesAt(s'.table, s'.heap, k) == ValuesAt(s.table, s.heap, k) {
      if k in s.table && k != pc.at.1 {
        assert s.table[k] != pc.ref;
      }
    }
  }

  lemma {:induction false} EndBucketOwn(s: State, t: Tid, s': State)
    requires EndBucket(s, t, s') && CallInv(s, t, s.threads[t])
    ensures CallInv(s', t, s'.threads[t])
    ensures LocksWithin(s.threads[t], s'.threads[t])
  {
  }

  lemma {:induction false} EndBucketCalls(s: State, t: Tid, s': State)
    requires Inv(s) && EndBucket(s, t, s')
    ensures CallsInv(s')
  {
    assert CallInv(s, t, s.threads[t]);
    EndBucketOwn(s, t, s');
    forall u | u in s.threads && u != t ensures CallInv(s', u, s.threads[u]) {
      EndBucketOther(s, t, s', u);
    }
    NoNewLocks(s, t, s'.threads[t]);
    CallsAssemble(s, t, s');
  }

  lemma {:induction false} EndBucketTombstone(s: State, t: Tid, s': State, k: Key, v: Val)
    requires Inv(s) && EndBucket(s, t, s')
    requires CellAt(s'.table, s'.heap, k, v) == CellAt(s.table, s.heap, k, v)
    ensures TombstoneOk(s', k, v)
  {
    assert TombstoneOk(s, k, v);
    var cell := CellAt(s.table, s.heap, k, v);
    if IsTombstone(cell) {
      var m := Mark(cell.value.time, k, v);
      if PendingIn(s, m) {
        PendingStays(s, t, s', m);
      } else {
        IndexedStays(s, t, s', m);
      }
    }
  }

  lemma {:induction false} EndBucketNoEmpty(s: State, t: Tid, s': State)
    requires EndBucket(s, t, s') && CallInv(s, t, s.threads[t]) && MemoryOk(s) && NoEmptyMap(s)
    ensures NoEmptyMap(s')
  {
    EndBucketCells(s, t, s');
    forall k | k in s'.table && ValuesAt(s'.table, s'.heap, k) == map[] ensures ErasedFrom(s', k) {
      ErasedStays(s, t, s', k);
    }
  }

  lemma {:induction false} CellsStayOk(s: State, t: Tid, s': State)
    requires Moves(s, t, s') && s'.log == s.log && forall k, v :: CellOk(s, k, v)
    requires forall k :: ValuesAt(s'.table, s'.heap, k) == ValuesAt(s.table, s.heap, k)
    requires forall k, v :: !Remaining(s.threads[t], k, v)
    ensures forall k, v :: CellOk(s', k, v)
  {
    forall k, v ensures CellOk(s', k, v) {
      assert CellOk(s, k, v);
      if NoneRemains(s', k, v) {
        NoneRemainsBefore(s, t, s', k, v);
      }
    }
  }

  lemma {:induction false} EndBucketMemory(s: State, t: Tid, s': State)
    requires Inv(s) && EndBucket(s, t, s')
    ensures MemoryInv(s')
  {
    var th, th' := s.threads[t], s'.threads[t];
    assert CallInv(s, t, th);
    EndBucketCells(s, t, s');
    EndBucketNoEmpty(s, t, s');
    forall k, v ensures TombstoneOk(s', k, v) {
      EndBucketTombstone(s, t, s', k, v);
    }
    CellsStayOk(s, t, s');
    LogStaysOk(s, t, s');
    assert Cleaning(th');
  }

  // ------------------------------------------------------------------------ AddMarks

  /** While `t` holds the map lock and is not cleaning up, no clean-up is in progress. */
  lemma {:induction false} NoSweep(s: State, t: Tid, m: Mark)
    requires CallsInv(s) && t in s.threads && MapMode(s.threads[t].pc) == Exclusive && !s.threads[t].call.CleanUp?
    ensures forall u :: u in s.threads ==> !SweptPast(s.threads[u], m)
  {
    forall u | u in s.threads ensures !SweptPast(s.threads[u], m) {
      if u != t {
        assert Exclusion(s.threads[t], s.threads[u]);
      }
    }
  }

  lemma {:induction false} AddMarksOther(s: State, t: Tid, s': State, u: Tid)
    requires CallsInv(s) && AddMarks(s, t, s') && u in s.threads
    ensures CallInv(s', u, s.threads[u])
  {
    assert CallInv(s, u, s.threads[u]);
  }

  lemma {:induction false} AddMarksCalls(s: State, t: Tid, s': State)
    requires Inv(s) && AddMarks(s, t, s')
    ensures CallsInv(s')
  {
    assert CallInv(s, t, s.threads[t]);
    FinishedCall(s', t, s.threads[t], s'.threads[t]);
    forall u | u in s.threads && u != t ensures CallInv(s', u, s.threads[u]) {
      AddMarksOther(s, t, s', u);
    }
    NoNewLocks(s, t, s'.threads[t]);
    CallsAssemble(s, t, s');
  }

  lemma {:induction false} AddMarksTombstone(s: State, t: Tid, s': State, k: Key, v: Val)
    requires Inv(s) && AddMarks(s, t, s')
    ensures TombstoneOk(s', k, v)
  {
    var th, th' := s.threads[t], s'.threads[t];
    assert CallInv(s, t, th);
    assert TombstoneOk(s, k, v);
    var cell := CellAt(s.table, s.heap, k, v);
    if IsTombstone(cell) {
      var m := Mark(cell.value.time, k, v);
      NoSweep(s, t, m);
      if Pending(th, m) || m in s.index {
        assert m in s'.index;
        assert Indexed(s', m);
      } else {
        PendingStays(s, t, s', m);
      }
    }
  }

  lemma {:induction false} AddMarksMemory(s: State, t: Tid, s': State)
    requires Inv(s) && AddMarks(s, t, s')
    ensures MemoryInv(s')
  {
    forall k | k in s'.table && ValuesAt(s'.table, s'.heap, k) == map[] ensures ErasedFrom(s', k) {
      ErasedStays(s, t, s', k);
    }
    forall k, v ensures TombstoneOk(s', k, v) {
      AddMarksTombstone(s, t, s', k, v);
    }
    CellsStayOk(s, t, s');
    LogStaysOk(s, t, s');
    HoldsMapAlone(s, t);
    CutoffUnderLock(s, t);
  }

  // ---------------------------------------------------------------------- EndCleanUp

  lemma {:induction false} EndCleanUpOther(s: State, t: Tid, s': State, u: Tid)
    requires CallsInv(s) && EndCleanUp(s, t, s') && u in s.threads && u != t
    ensures CallInv(s', u, s.threads[u])
  {
    assert CallInv(s, u, s.threads[u]) && Exclusion(s.threads[t], s.threads[u]);
  }

  lemma {:induction false} EndCleanUpCalls(s: State, t: Tid, s': State)
    requires Inv(s) && EndCleanUp(s, t, s')
    ensures CallsInv(s')
  {
    assert CallInv(s, t, s.threads[t]);
    FinishedCall(s', t, s.threads[t], s'.threads[t]);
    forall u | u in s.threads && u != t ensures CallInv(s', u, s.threads[u]) {
      EndCleanUpOther(s, t, s', u);
    }
    NoNewLocks(s, t, s'.threads[t]);
    CallsAssemble(s, t, s');
  }

  /** Of the tombstones at or below the clean-up time, only those of deletes in flight remain. */
  lemma {:induction false} EndCleanUpTombstone(s: State, t: Tid, s': State, k: Key, v: Val)
    requires Inv(s) && EndCleanUp(s, t, s')
    ensures TombstoneOk(s', k, v)
    ensures var cell := CellAt(s'.table, s'.heap, k, v);
            IsTombstone(cell) && cell.value.time <= s.threads[t].call.time ==>
              PendingIn(s', Mark(cell.value.time, k, v))
  {
    assert TombstoneOk(s, k, v);
    var cell := CellAt(s.table, s.heap, k, v);
    if IsTombstone(cell) {
      var m := Mark(cell.value.time, k, v);
      if PendingIn(s, m) {
        PendingStays(s, t, s', m);
      } else {
        assert !SweptPast(s.threads[t], m);
        IndexedStays(s, t, s', m);
      }
    }
  }

  lemma {:induction false} EndCleanUpMemory(s: State, t: Tid, s': State)
    requires Inv(s) && EndCleanUp(s, t, s')
    ensures MemoryInv(s')
  {
    assert CallInv(s, t, s.threads[t]);
    forall k | k in s'.table && ValuesAt(s'.table, s'.heap, k) == map[] ensures ErasedFrom(s', k) {
      ErasedStays(s, t, s', k);
    }
    forall k, v ensures TombstoneOk(s', k, v) {
      EndCleanUpTombstone(s, t, s', k, v);
    }
    forall k, v ensures CellOk(s', k, v) {
      assert CellOk(s, k, v);
      if NoneRemains(s', k, v) {
        NoneRemainsBefore(s, t, s', k, v);
      }
    }
    LogStaysOk(s, t, s');
  }

  // ----------------------------------------------------------------------- InsertKey

  lemma {:induction false} InsertKeyCells(s: State, t: Tid, s': State)
    requires InsertKey(s, t, s') && MemoryOk(s)
    ensures MemoryOk(s')
    ensures forall k :: k != s.threads[t].call.key ==>
                        ValuesAt(s'.table, s'.heap, k) == ValuesAt(s.table, s.heap, k)
    ensures ValuesAt(s.table, s.heap, s.threads[t].call.key) == map[]
    ensures ValuesAt(s'.table, s'.heap, s.threads[t].call.key) == NewValues(s.threads[t].call) != map[]
  {
    var call := s.threads[t].call;
    assert call.values[0] in NewValues(call);
  }

  /** The new entry holds what the reference holds for its key; other keys keep theirs. */
  lemma {:induction false} InsertKeyRegister(s: State, t: Tid, s': State, k: Key, v: Val)
    requires Inv(s) && InsertKey(s, t, s')
    ensures k != s.threads[t].call.key ==> Register(s'.log, (k, v)) == Register(s.log, (k, v))
    ensures k == s.threads[t].call.key ==>
              Agrees(CellAt(s'.table, s'.heap, k, v), Register(s'.log, (k, v)), Cutoff(s'.log))
    ensures Cutoff(s'.log) == Cutoff(s.log) == s.cutoff
  {
    var call := s.threads[t].call;
    HoldsMapAlone(s, t);
    CutoffUnderLock(s, t);
    CutoffSnoc(s.log, OpOf(call));
    RegisterSnoc(s.log, OpOf(call), (k, v));
    InsertKeyCells(s, t, s');
    assert (k, v) in Pairs(call.key, call.values) <==> k == call.key && v in call.values;
    if k == call.key {
      forall u | u in s.threads ensures !Remaining(s.threads[u], k, v) {
        RemainingHolds(s, u, k, v);
      }
      assert CellOk(s, k, v);
    }
  }

  /** A result keeps its answers when another key gets an entry. */
  lemma {:induction false} InsertKeyResult(s: State, t: Tid, s': State, other: Thread)
    requires InsertKey(s, t, s') && MemoryOk(s)
    requires PointersOk(s.table, other) && ResultOk(s.table, s.heap, other)
    ensures PointersOk(s'.table, other) && ResultOk(s'.table, s'.heap, other)
  {
    InsertKeyCells(s, t, s');
    if HasResult(other.pc) {
      forall k | k in other.pc.found
        ensures other.pc.found[k].values == LiveValues(ValuesAt(s'.table, s'.heap, k))
      {
        assert PointsTo(other, k, other.pc.found[k].ref);
      }
    }
  }

  lemma {:induction false} InsertKeyOther(s: State, t: Tid, s': State, u: Tid)
    requires Inv(s) && InsertKey(s, t, s') && u in s.threads && u != t
    ensures CallInv(s', u, s.threads[u])
  {
    var th, other := s.threads[t], s.threads[u];
    assert CallInv(s, u, other) && Exclusion(th, other);
    LoggedOk(s, t);
    InsertKeyResult(s, t, s', other);
    InsertKeyRemaining(s, t, s', u);
    InsertKeyRegister(s, t, s', "", "");
  }

  lemma {:induction false} InsertKeyRemaining(s: State, t: Tid, s': State, u: Tid)
    requires Inv(s) && InsertKey(s, t, s') && u in s.threads && u != t
    ensures RemainingOk(s'.table, s'.heap, s'.log, s.threads[u])
  {
    assert CallInv(s, u, s.threads[u]);
    InsertKeyCells(s, t, s');
    forall k, v | Remaining(s.threads[u], k, v)
      ensures Register(s'.log, (k, v)) == Merge(CellAt(s'.table, s'.heap, k, v), OpOf(s.threads[u].call))
    {
      RemainingHolds(s, u, k, v);
      InsertKeyRegister(s, t, s', k, v);
    }
  }

  lemma {:induction false} InsertKeyCalls(s: State, t: Tid, s': State)
    requires Inv(s) && InsertKey(s, t, s')
    ensures CallsInv(s')
  {
    LoggedOk(s, t);
    FinishedCall(s', t, s.threads[t], s'.threads[t]);
    forall u | u in s.threads && u != t ensures CallInv(s', u, s.threads[u]) {
      InsertKeyOther(s, t, s', u);
    }
    NoNewLocks(s, t, s'.threads[t]);
    CallsAssemble(s, t, s');
  }

  lemma {:induction false} InsertKeyTombstone(s: State, t: Tid, s': State, k: Key, v: Val)
    requires Inv(s) && InsertKey(s, t, s')
    ensures TombstoneOk(s', k, v)
  {
    var call := s.threads[t].call;
    InsertKeyCells(s, t, s');
    assert TombstoneOk(s, k, v);
    var cell' := CellAt(s'.table, s'.heap, k, v);
    if IsTombstone(cell') {
      var m := Mark(cell'.value.time, k, v);
      NoSweep(s, t, m);
      if k == call.key || m in s.index {
        assert m in s'.index;
        assert Indexed(s', m);
      } else {
        PendingStays(s, t, s', m);
      }
    }
  }

  lemma {:induction false} InsertKeyMemory(s: State, t: Tid, s': State)
    requires Inv(s) && InsertKey(s, t, s')
    ensures MemoryInv(s')
  {
    InsertKeyCells(s, t, s');
    forall k | k in s'.table && ValuesAt(s'.table, s'.heap, k) == map[] ensures ErasedFrom(s', k) {
      ErasedStays(s, t, s', k);
    }
    forall k, v ensures TombstoneOk(s', k, v) {
      InsertKeyTombstone(s, t, s', k, v);
    }
    forall k, v ensures CellOk(s', k, v) {
      InsertKeyRegister(s, t, s', k, v);
      if NoneRemains(s', k, v) {
        NoneRemainsBefore(s, t, s', k, v);
        assert CellOk(s, k, v);
      }
    }
    InsertKeyRegister(s, t, s', "", "");
    LoggedOk(s, t);
    LogStaysOk(Logged(s, t), t, s');
  }
}
