/** What every step of the set-map protocol keeps. */
module SetMapInvariants {

  import opened Basics
  import opened Registers
  import opened KeyValueCaches
  import opened SetMapProtocol

  // ------------------------------------------------------------ one call and the memory

  /** The program counters are those of the calls they belong to. */
  ghost predicate ThreadOk(cutoff: Time, th: Thread) {
    match th.pc
    case Start | Finished => true
    case Checking => th.call.Mutate?
    case KeyWait(_) => th.call.Mutate? && !Refused(cutoff, th.call)
    case BothHeld(_) => th.call.Mutate? && th.call.time > 0
    case Applying(_, next, marked) =>
      && th.call.Mutate? && th.call.time > 0 && next <= |th.call.values|
      && (marked != [] ==> th.call.isDelete)
    case IndexWait(_) | Indexing(_) => th.call.Mutate? && th.call.isDelete
    case Sweeping(_) | SweepWait(_, _, _) | SweepBarrier(_, _, _) | Erasing(_, _, _, _) => th.call.CleanUp?
    case Reading(_, _) | ReadWait(_, _, _, _) | Returned(_) => th.call.Get?
  }

  /** No call holds a pointer to an entry that has been erased. */
  ghost predicate PointersOk(table: map<Key, Ref>, th: Thread) {
    forall k, r :: PointsTo(th, k, r) ==> k in table && table[k] == r
  }

  /** A result holds the current live values of every key found. */
  ghost predicate ResultOk(table: map<Key, Ref>, heap: map<Ref, ValueMap>, th: Thread) {
    HasResult(th.pc) ==>
      forall k :: k in th.pc.found ==> th.pc.found[k].values == LiveValues(ValuesAt(table, heap, k))
  }

  predicate Handled(th: Thread, k: Key) {
    && th.call.Get? && k in th.call.keys
    && ((th.pc.Reading? && k !in th.pc.keysLeft) || (th.pc.ReadWait? && k !in th.pc.keysLeft && k != th.pc.key))
  }

  /** A key that a reader under the map lock did not find is not there. */
  ghost predicate MissesOk(table: map<Key, Ref>, th: Thread) {
    forall k :: Handled(th, k) && k !in th.pc.found ==> k !in table
  }

  /** The call has taken effect, but this value has still to be written. */
  predicate Remaining(th: Thread, k: Key, v: Val) {
    && th.call.Mutate? && th.call.key == k
    && ((th.pc.BothHeld? && v in th.call.values)
        || (th.pc.Applying? && th.pc.next <= |th.call.values| && v in th.call.values[th.pc.next..]))
  }

  ghost predicate RemainingOk(table: map<Key, Ref>, heap: map<Ref, ValueMap>, log: seq<SetOp>, th: Thread) {
    forall k, v :: Remaining(th, k, v) ==>
                   Register(log, (k, v)) == Merge(CellAt(table, heap, k, v), OpOf(th.call))
  }

  predicate Cleaning(th: Thread) {
    th.call.CleanUp? && MapMode(th.pc) == Exclusive
  }

  ghost predicate CleaningOk(cutoff: Time, log: seq<SetOp>, th: Thread) {
    Cleaning(th) ==> Cutoff(log) == Max(cutoff, th.call.time)
  }

  predicate TookEffect(th: Thread) {
    !th.call.Get? && !th.pc.Start? && !th.pc.Checking? && !th.pc.KeyWait?
  }

  ghost predicate CallInv(s: State, t: Tid, th: Thread) {
    && ThreadOk(s.cutoff, th)
    && PointersOk(s.table, th)
    && ResultOk(s.table, s.heap, th)
    && MissesOk(s.table, th)
    && RemainingOk(s.table, s.heap, s.log, th)
    && CleaningOk(s.cutoff, s.log, th)
    && (TookEffect(th) <==> t in s.who)
  }

  // ---------------------------------------------------------------------- pairs of calls

  /** The map lock excludes; and a value map that one call writes, or that a clean-up erases
      from after its barrier, is locked by no other call. */
  ghost predicate Exclusion(th: Thread, other: Thread) {
    && (MapMode(th.pc) == Exclusive ==> MapMode(other.pc) == Free)
    && (forall k, r :: WritesKey(th, k, r) || Erases(th, k, r) ==> !HoldsKey(other, k, r))
  }

  // -------------------------------------------------------------------------- the memory

  /** Every entry of the table points to a value map of its own. */
  ghost predicate MemoryOk(s: State) {
    && (forall k :: k in s.table ==> s.table[k] in s.heap && s.table[k] < s.nextRef)
    && (forall j, k :: j in s.table && k in s.table && s.table[j] == s.table[k] ==> j == k)
  }

  ghost predicate ErasedFrom(s: State, k: Key) {
    exists t :: t in s.threads && s.threads[t].pc.Erasing? && s.threads[t].pc.at.1 == k
  }

  /** Only a value map that a clean-up is erasing from can be empty. */
  ghost predicate NoEmptyMap(s: State) {
    forall k :: k in s.table && ValuesAt(s.table, s.heap, k) == map[] ==> ErasedFrom(s, k)
  }

  /** A delete in flight will still put this mark into the index. */
  predicate Pending(th: Thread, m: Mark) {
    && th.call.Mutate? && th.call.isDelete && th.call.time == m.time && th.call.key == m.key
    && (th.pc.Applying? || th.pc.IndexWait? || th.pc.Indexing?)
    && m.value in th.pc.marked
  }

  ghost predicate PendingIn(s: State, m: Mark) {
    exists t :: t in s.threads && Pending(s.threads[t], m)
  }

  /** A clean-up in progress has already passed this mark. */
  predicate SweptPast(th: Thread, m: Mark) {
    && th.call.CleanUp? && m.time <= th.call.time
    && match th.pc
       case Sweeping(todo) => (m.time, m.key) !in todo
       case SweepWait(todo, at, _) => (m.time, m.key) !in todo && at != (m.time, m.key)
       case SweepBarrier(todo, at, _) => (m.time, m.key) !in todo && at != (m.time, m.key)
       case Erasing(todo, at, _, rest) => (m.time, m.key) !in todo && !(at == (m.time, m.key) && m.value in rest)
       case _ => false
  }

  ghost predicate Indexed(s: State, m: Mark) {
    m in s.index && forall t :: t in s.threads ==> !SweptPast(s.threads[t], m)
  }

  /** Every tombstone is in the index, where no clean-up in progress will miss it, or a delete
      in flight is going to put it there. */
  ghost predicate TombstoneOk(s: State, k: Key, v: Val) {
    var cell := CellAt(s.table, s.heap, k, v);
    IsTombstone(cell) ==> Indexed(s, Mark(cell.value.time, k, v)) || PendingIn(s, Mark(cell.value.time, k, v))
  }

  ghost predicate NoneRemains(s: State, k: Key, v: Val) {
    forall t :: t in s.threads ==> !Remaining(s.threads[t], k, v)
  }

  /** A cell is what the reference prescribes, or an old tombstone that has been forgotten. */
  predicate Agrees(cell: Option<Entry<Present>>, register: Option<Entry<Present>>, cutoff: Time) {
    cell == register || (cell.None? && Forget(register, cutoff).None?)
  }

  ghost predicate CellOk(s: State, k: Key, v: Val) {
    NoneRemains(s, k, v) ==> Agrees(CellAt(s.table, s.heap, k, v), Register(s.log, (k, v)), Cutoff(s.log))
  }

  ghost predicate CutoffOk(s: State) {
    && s.cutoff >= 0
    && ((forall t :: t in s.threads ==> !Cleaning(s.threads[t])) ==> Cutoff(s.log) == s.cutoff)
  }

  /** The log holds calls that took effect, each once. */
  ghost predicate LogOk(s: State) {
    && |s.who| == |s.log|
    && (forall i :: 0 <= i < |s.who| ==>
                    s.who[i] in s.threads && !s.threads[s.who[i]].call.Get?
                    && s.log[i] == OpOf(s.threads[s.who[i]].call))
    && (forall i, j :: 0 <= i < j < |s.who| ==> s.who[i] != s.who[j])
  }

  // ------------------------------------------------------------------------ the invariant

  ghost predicate CallsInv(s: State) {
    && (forall t :: t in s.threads ==> CallInv(s, t, s.threads[t]))
    && (forall t, u :: t in s.threads && u in s.threads && t != u ==> Exclusion(s.threads[t], s.threads[u]))
  }

  ghost predicate MemoryInv(s: State) {
    && MemoryOk(s) && NoEmptyMap(s) && CutoffOk(s) && LogOk(s)
    && (forall k, v :: TombstoneOk(s, k, v))
    && (forall k, v :: CellOk(s, k, v))
  }

  ghost predicate Inv(s: State) {
    CallsInv(s) && MemoryInv(s)
  }

  lemma {:induction false} InitialInv()
    ensures Inv(Initial)
  {
  }

  // --------------------------------------------------------------- frames of one step

  /** Call `t` takes the step; the other calls stay where they are. */
  ghost predicate Moves(s: State, t: Tid, s': State) {
    && t in s.threads && t in s'.threads
    && s'.threads == s.threads[t := s'.threads[t]]
    && s'.threads[t].call == s.threads[t].call
  }

  ghost predicate OthersOk(s: State, t: Tid, s': State) {
    forall u :: u in s.threads && u != t ==>
                CallInv(s', u, s.threads[u])
  }

  ghost predicate NewExclusion(s: State, t: Tid, th': Thread) {
    forall u :: u in s.threads && u != t ==> Exclusion(th', s.threads[u]) && Exclusion(s.threads[u], th')
  }

  lemma {:induction false} CallsAssemble(s: State, t: Tid, s': State)
    requires CallsInv(s) && Moves(s, t, s')
    requires OthersOk(s, t, s') && CallInv(s', t, s'.threads[t])
    requires NewExclusion(s, t, s'.threads[t])
    ensures CallsInv(s')
  {
  }

  lemma {:induction false} PendingStays(s: State, t: Tid, s': State, m: Mark)
    requires Moves(s, t, s') && PendingIn(s, m)
    requires Pending(s.threads[t], m) ==> Pending(s'.threads[t], m)
    ensures PendingIn(s', m)
  {
    var u :| u in s.threads && Pending(s.threads[u], m);
    assert u in s'.threads && Pending(s'.threads[u], m);
  }

  lemma {:induction false} IndexedStays(s: State, t: Tid, s': State, m: Mark)
    requires Moves(s, t, s') && Indexed(s, m)
    requires m in s'.index && !SweptPast(s'.threads[t], m)
    ensures Indexed(s', m)
  {
  }

  lemma {:induction false} NoneRemainsBefore(s: State, t: Tid, s': State, k: Key, v: Val)
    requires Moves(s, t, s') && NoneRemains(s', k, v)
    requires !Remaining(s.threads[t], k, v)
    ensures NoneRemains(s, k, v)
  {
    forall u | u in s.threads ensures !Remaining(s.threads[u], k, v) {
      assert u != t ==> s'.threads[u] == s.threads[u];
    }
  }

  lemma {:induction false} ErasedStays(s: State, t: Tid, s': State, k: Key)
    requires Moves(s, t, s') && ErasedFrom(s, k)
    requires s.threads[t].pc.Erasing? && s.threads[t].pc.at.1 == k ==>
               s'.threads[t].pc.Erasing? && s'.threads[t].pc.at.1 == k
    ensures ErasedFrom(s', k)
  {
    var u :| u in s.threads && s.threads[u].pc.Erasing? && s.threads[u].pc.at.1 == k;
    assert u in s'.threads && s'.threads[u].pc.Erasing? && s'.threads[u].pc.at.1 == k;
  }

  lemma {:induction false} NobodyCleansBefore(s: State, t: Tid, s': State)
    requires Moves(s, t, s') && !Cleaning(s.threads[t])
    requires forall u :: u in s'.threads ==> !Cleaning(s'.threads[u])
    ensures forall u :: u in s.threads ==> !Cleaning(s.threads[u])
  {
    forall u | u in s.threads ensures !Cleaning(s.threads[u]) {
      assert u != t ==> s'.threads[u] == s.threads[u];
    }
  }

  // ------------------------------------------- steps that move one program counter only

  /** What a step that leaves the memory alone must carry over from the old program counter. */
  ghost predicate CarriesOver(s: State, th: Thread, th': Thread) {
    && (th.pc.Erasing? ==> th'.pc.Erasing? && th'.pc.at == th.pc.at)
    && (forall m :: Pending(th, m) ==> Pending(th', m))
    && (forall m :: m in s.index && SweptPast(th', m) ==> SweptPast(th, m) || m.key !in s.table)
  }

  ghost predicate Continues(s: State, th: Thread, th': Thread) {
    && CarriesOver(s, th, th')
    && (Cleaning(th) ==> Cleaning(th'))
    && (forall k, v :: Remaining(th, k, v) ==> Remaining(th', k, v))
    && (TookEffect(th) <==> TookEffect(th'))
  }

  ghost predicate SameMemory(s: State, s': State) {
    s'.table == s.table && s'.heap == s.heap && s'.nextRef == s.nextRef && s'.index == s.index
  }

  lemma {:induction false} FrameMemory(s: State, t: Tid, s': State)
    requires Inv(s) && Moves(s, t, s') && SameMemory(s, s')
    requires CarriesOver(s, s.threads[t], s'.threads[t])
    requires LogOk(s') && CutoffOk(s')
    requires forall k, v :: CellOk(s', k, v)
    ensures MemoryInv(s')
  {
    forall k | k in s'.table && ValuesAt(s'.table, s'.heap, k) == map[] ensures ErasedFrom(s', k) {
      ErasedStays(s, t, s', k);
    }
    forall k, v ensures TombstoneOk(s', k, v) {
      assert TombstoneOk(s, k, v);
      var cell := CellAt(s.table, s.heap, k, v);
      if IsTombstone(cell) {
        var m := Mark(cell.value.time, k, v);
        if PendingIn(s, m) {
          PendingStays(s, t, s', m);
        } else {
          IndexedStays(s, t, s', m);
        }
      }
    }
  }

  ghost predicate OwnOk(s: State, th: Thread) {
    && ThreadOk(s.cutoff, th)
    && PointersOk(s.table, th)
    && ResultOk(s.table, s.heap, th)
    && MissesOk(s.table, th)
    && RemainingOk(s.table, s.heap, s.log, th)
    && CleaningOk(s.cutoff, s.log, th)
  }

  lemma {:induction false} MoveKeepsCalls(s: State, t: Tid, s': State)
    requires Inv(s) && t in s.threads && t in s'.threads && s' == At(s, t, s'.threads[t].pc)
    requires OwnOk(s, s'.threads[t]) && Continues(s, s.threads[t], s'.threads[t])
    requires NewExclusion(s, t, s'.threads[t])
    ensures CallsInv(s')
  {
    forall u | u in s.threads && u != t ensures CallInv(s', u, s.threads[u]) {
      assert CallInv(s, u, s.threads[u]);
    }
    assert CallInv(s, t, s.threads[t]);
    CallsAssemble(s, t, s');
  }

  lemma {:induction false} MoveKeepsMemory(s: State, t: Tid, s': State)
    requires Inv(s) && t in s.threads && t in s'.threads && s' == At(s, t, s'.threads[t].pc)
    requires Continues(s, s.threads[t], s'.threads[t])
    ensures MemoryInv(s')
  {
    if forall u :: u in s'.threads ==> !Cleaning(s'.threads[u]) {
      NobodyCleansBefore(s, t, s');
    }
    forall k, v ensures CellOk(s', k, v) {
      assert CellOk(s, k, v);
      if NoneRemains(s', k, v) {
        assert !Remaining(s'.threads[t], k, v);
        NoneRemainsBefore(s, t, s', k, v);
      }
    }
    FrameMemory(s, t, s');
  }

  /** The step takes no lock: what `th'` holds or erases from, `th` held or erased from. */
  ghost predicate LocksWithin(th: Thread, th': Thread) {
    && (MapMode(th'.pc) == Exclusive ==> MapMode(th.pc) == Exclusive)
    && (MapMode(th'.pc) != Free ==> MapMode(th.pc) != Free)
    && (forall k, r :: HoldsKey(th', k, r) ==> HoldsKey(th, k, r))
    && (forall k, r :: WritesKey(th', k, r) || Erases(th', k, r) ==> WritesKey(th, k, r) || Erases(th, k, r))
  }

  lemma {:induction false} NoNewLocks(s: State, t: Tid, th': Thread)
    requires CallsInv(s) && t in s.threads && LocksWithin(s.threads[t], th')
    ensures NewExclusion(s, t, th')
  {
    var th := s.threads[t];
    forall u | u in s.threads && u != t ensures Exclusion(th', s.threads[u]) && Exclusion(s.threads[u], th') {
      assert Exclusion(th, s.threads[u]) && Exclusion(s.threads[u], th);
      forall k, r | WritesKey(s.threads[u], k, r) || Erases(s.threads[u], k, r) ensures !HoldsKey(th', k, r) {
        assert !HoldsKey(th, k, r);
      }
    }
  }

  /** A finished call holds nothing and owes nothing. */
  lemma {:induction false} FinishedCall(s: State, t: Tid, th: Thread, th': Thread)
    requires th'.pc.Finished? && (t in s.who <==> !th'.call.Get?)
    ensures CallInv(s, t, th') && LocksWithin(th, th')
  {
  }

  ghost predicate PointersWithin(th: Thread, th': Thread) {
    forall k, r :: PointsTo(th', k, r) ==> PointsTo(th, k, r)
  }

  lemma {:induction false} SamePointers(table: map<Key, Ref>, th: Thread, th': Thread)
    requires PointersOk(table, th) && PointersWithin(th, th')
    ensures PointersOk(table, th')
  {
    forall k, r | PointsTo(th', k, r) ensures k in table && table[k] == r {
      assert PointsTo(th, k, r);
    }
  }

  /** The step moves the program counter of `t` and does nothing else. */
  ghost predicate Move(s: State, t: Tid, s': State) {
    && t in s.threads && t in s'.threads && s' == At(s, t, s'.threads[t].pc)
    && OwnOk(s, s'.threads[t]) && Continues(s, s.threads[t], s'.threads[t])
  }

  lemma {:induction false} MoveKeeps(s: State, t: Tid, s': State)
    requires Inv(s) && Move(s, t, s') && NewExclusion(s, t, s'.threads[t])
    ensures Inv(s')
  {
    MoveKeepsCalls(s, t, s');
    MoveKeepsMemory(s, t, s');
  }

  lemma {:induction false} QuietMoveKeeps(s: State, t: Tid, s': State)
    requires Inv(s) && Move(s, t, s') && LocksWithin(s.threads[t], s'.threads[t])
    ensures Inv(s')
  {
    NoNewLocks(s, t, s'.threads[t]);
    MoveKeeps(s, t, s');
  }

  lemma {:induction false} FindKeyMove(s: State, t: Tid, s': State)
    requires FindKey(s, t, s') && CallInv(s, t, s.threads[t])
    ensures Move(s, t, s') && LocksWithin(s.threads[t], s'.threads[t])
  {
  }

  lemma {:induction false} UnlockMapMove(s: State, t: Tid, s': State)
    requires UnlockMap(s, t, s') && CallInv(s, t, s.threads[t])
    ensures Move(s, t, s') && LocksWithin(s.threads[t], s'.threads[t])
  {
    var th, th' := s.threads[t], s'.threads[t];
    SamePointers(s.table, th, th');
    assert forall k, v :: Remaining(th', k, v) <==> Remaining(th, k, v);
  }

  lemma {:induction false} UnlockKeyMove(s: State, t: Tid, s': State)
    requires UnlockKey(s, t, s') && CallInv(s, t, s.threads[t])
    ensures Move(s, t, s') && LocksWithin(s.threads[t], s'.threads[t])
  {
  }

  lemma {:induction false} PickBucketMove(s: State, t: Tid, at: (Time, Key), s': State)
    requires PickBucket(s, t, at, s') && CallInv(s, t, s.threads[t])
    ensures Move(s, t, s') && LocksWithin(s.threads[t], s'.threads[t])
  {
  }

  lemma {:induction false} SweepUnlockMove(s: State, t: Tid, s': State)
    requires SweepUnlock(s, t, s') && CallInv(s, t, s.threads[t])
    ensures Move(s, t, s') && LocksWithin(s.threads[t], s'.threads[t])
  {
    SamePointers(s.table, s.threads[t], s'.threads[t]);
  }

  lemma {:induction false} PickKeyMove(s: State, t: Tid, k: Key, s': State)
    requires PickKey(s, t, k, s') && CallInv(s, t, s.threads[t])
    ensures Move(s, t, s') && LocksWithin(s.threads[t], s'.threads[t])
  {
    var th, th' := s.threads[t], s'.threads[t];
    forall j, r | PointsTo(th', j, r) ensures j in s.table && s.table[j] == r {
      assert PointsTo(th, j, r) || (j == k && r == s.table[k]);
    }
  }

  lemma {:induction false} EndGetMove(s: State, t: Tid, s': State)
    requires EndGet(s, t, s') && CallInv(s, t, s.threads[t])
    ensures Move(s, t, s') && LocksWithin(s.threads[t], s'.threads[t])
  {
    SamePointers(s.table, s.threads[t], s'.threads[t]);
  }

  lemma {:induction false} DropResultMove(s: State, t: Tid, s': State)
    requires DropResult(s, t, s') && CallInv(s, t, s.threads[t])
    ensures Move(s, t, s') && LocksWithin(s.threads[t], s'.threads[t])
  {
  }

  // Steps that take a lock.

  lemma {:induction false} BeginMutationMove(s: State, t: Tid, s': State)
    requires BeginMutation(s, t, s') && CallInv(s, t, s.threads[t])
    ensures Move(s, t, s') && NewExclusion(s, t, s'.threads[t])
  {
  }

  lemma {:induction false} RelockMapMove(s: State, t: Tid, s': State)
    requires RelockMap(s, t, s') && CallInv(s, t, s.threads[t])
    ensures Move(s, t, s') && NewExclusion(s, t, s'.threads[t])
  {
  }

  lemma {:induction false} BeginGetMove(s: State, t: Tid, s': State)
    requires BeginGet(s, t, s') && CallInv(s, t, s.threads[t])
    ensures Move(s, t, s') && NewExclusion(s, t, s'.threads[t])
  {
  }

  lemma {:induction false} SweepLockMove(s: State, t: Tid, s': State)
    requires SweepLock(s, t, s') && CallInv(s, t, s.threads[t])
    ensures Move(s, t, s')
  {
    SamePointers(s.table, s.threads[t], s'.threads[t]);
  }

  lemma {:induction false} ReadKeyMove(s: State, t: Tid, s': State)
    requires ReadKey(s, t, s') && CallInv(s, t, s.threads[t])
    ensures Move(s, t, s')
  {
    var th, th' := s.threads[t], s'.threads[t];
    SamePointers(s.table, th, th');
    assert PointsTo(th, th.pc.key, th.pc.ref);
    assert ValuesAt(s.table, s.heap, th.pc.key) == s.heap[th.pc.ref];
  }

  /** A reader takes a key lock that no one writes under; no clean-up erases meanwhile. */
  lemma {:induction false} ReadKeyExclusion(s: State, t: Tid, s': State)
    requires CallsInv(s) && ReadKey(s, t, s')
    ensures NewExclusion(s, t, s'.threads[t])
  {
    var th, th' := s.threads[t], s'.threads[t];
    forall u | u in s.threads && u != t ensures Exclusion(th', s.threads[u]) && Exclusion(s.threads[u], th') {
      assert Exclusion(th, s.threads[u]) && Exclusion(s.threads[u], th);
      forall k, r | WritesKey(s.threads[u], k, r) || Erases(s.threads[u], k, r) ensures !HoldsKey(th', k, r) {
        assert !HoldsKey(th, k, r);
      }
    }
  }

  /** A call that holds the map lock obtains a free key lock. */
  lemma {:induction false} LockedKey(s: State, t: Tid, th': Thread, k: Key, r: Ref)
    requires CallsInv(s) && t in s.threads && KeyFreeFor(s, t, k, r)
    requires MapMode(s.threads[t].pc) == Exclusive && MapMode(th'.pc) == Exclusive
    requires forall j, q :: HoldsKey(th', j, q) ==> j == k && q == r
    requires forall j, q :: !Erases(th', j, q)
    ensures NewExclusion(s, t, th')
  {
    forall u | u in s.threads && u != t ensures Exclusion(th', s.threads[u]) && Exclusion(s.threads[u], th') {
      assert Exclusion(s.threads[t], s.threads[u]);
      forall j, q | WritesKey(th', j, q) || Erases(th', j, q) ensures !HoldsKey(s.threads[u], j, q) {
        assert HoldsKey(th', j, q);
      }
      forall j, q | WritesKey(s.threads[u], j, q) || Erases(s.threads[u], j, q) ensures !HoldsKey(th', j, q) {
        assert WritesKey(s.threads[u], j, q) ==> HoldsKey(s.threads[u], j, q);
      }
    }
  }

  // ------------------------------------------------------ steps that take effect in the log

  /** Whoever can hold the map lock alone, and is not cleaning up, sees the cutoff of the log. */
  lemma {:induction false} CutoffUnderLock(s: State, t: Tid)
    requires Inv(s) && t in s.threads && MapFreeFor(s, t) && !Cleaning(s.threads[t])
    ensures Cutoff(s.log) == s.cutoff
  {
    forall u | u in s.threads ensures !Cleaning(s.threads[u]) {
    }
  }

  lemma {:induction false} HoldsMapAlone(s: State, t: Tid)
    requires CallsInv(s) && t in s.threads && MapMode(s.threads[t].pc) == Exclusive
    ensures MapFreeFor(s, t)
  {
    forall u | u in s.threads && u != t ensures MapMode(s.threads[u].pc) == Free {
      assert Exclusion(s.threads[t], s.threads[u]);
    }
  }

  ghost predicate WhoGrew(who: seq<Tid>, t: Tid, who': seq<Tid>) {
    t in who' && forall u :: u != t ==> (u in who' <==> u in who)
  }

  lemma {:induction false} LoggedOk(s: State, t: Tid)
    requires Inv(s) && t in s.threads && !s.threads[t].call.Get? && !TookEffect(s.threads[t])
    ensures LogOk(Logged(s, t)) && WhoGrew(s.who, t, Logged(s, t).who)
  {
    assert CallInv(s, t, s.threads[t]);
    assert t !in s.who;
    var who' := s.who + [t];
    assert who'[|s.who|] == t;
    forall i, j | 0 <= i < j < |who'| ensures who'[i] != who'[j] {
      assert i < |s.who| && who'[i] == s.who[i] && s.who[i] in s.who;
    }
  }

  lemma {:induction false} LogStaysOk(s: State, t: Tid, s': State)
    requires LogOk(s) && Moves(s, t, s') && s'.log == s.log && s'.who == s.who
    ensures LogOk(s')
  {
  }

  /** The log has grown by one operation of `t` that leaves every register as it was. */
  ghost predicate QuietLog(s: State, t: Tid, s': State) {
    && Moves(s, t, s') && SameMemory(s, s') && s'.cutoff == s.cutoff
    && Cutoff(s'.log) >= Cutoff(s.log)
    && (forall k, v :: Register(s'.log, (k, v)) == Register(s.log, (k, v)))
    && (forall k, v :: !Remaining(s.threads[t], k, v))
  }

  lemma {:induction false} QuietLogKeeps(s: State, t: Tid, s': State)
    requires Inv(s) && QuietLog(s, t, s') && MapFreeFor(s, t)
    requires LogOk(s') && WhoGrew(s.who, t, s'.who)
    requires OwnOk(s', s'.threads[t]) && TookEffect(s'.threads[t])
    requires CarriesOver(s, s.threads[t], s'.threads[t])
    requires NewExclusion(s, t, s'.threads[t]) && CutoffOk(s')
    ensures Inv(s')
  {
    forall u | u in s.threads && u != t ensures CallInv(s', u, s.threads[u]) {
      assert CallInv(s, u, s.threads[u]);
    }
    CallsAssemble(s, t, s');
    forall k, v ensures CellOk(s', k, v) {
      assert CellOk(s, k, v);
      if NoneRemains(s', k, v) {
        NoneRemainsBefore(s, t, s', k, v);
      }
    }
    FrameMemory(s, t, s');
  }

  /** A refused mutation changes nothing, in the memory and in the reference. */
  lemma {:induction false} RefuseKeeps(s: State, t: Tid, s': State)
    requires Inv(s) && Refuse(s, t, s')
    ensures Inv(s')
  {
    HoldsMapAlone(s, t);
    CutoffUnderLock(s, t);
    LoggedOk(s, t);
    LogStaysOk(Logged(s, t), t, s');
    RefuseLog(s, t, s');
    RefuseOwn(s, t, s');
    NoNewLocks(s, t, s'.threads[t]);
    QuietLogKeeps(s, t, s');
  }

  lemma {:induction false} RefuseLog(s: State, t: Tid, s': State)
    requires Refuse(s, t, s') && Cutoff(s.log) == s.cutoff >= 0
    ensures QuietLog(s, t, s') && CutoffOk(s')
  {
    var op := OpOf(s.threads[t].call);
    CutoffSnoc(s.log, op);
    forall k, v ensures Register(s'.log, (k, v)) == Register(s.log, (k, v)) {
      RegisterSnoc(s.log, op, (k, v));
    }
  }

  lemma {:induction false} RefuseOwn(s: State, t: Tid, s': State)
    requires Refuse(s, t, s')
    ensures LocksWithin(s.threads[t], s'.threads[t]) && CarriesOver(s, s.threads[t], s'.threads[t])
    ensures OwnOk(s', s'.threads[t]) && TookEffect(s'.threads[t])
  {
  }

  lemma {:induction false} BeginCleanUpKeeps(s: State, t: Tid, s': State)
    requires Inv(s) && BeginCleanUp(s, t, s')
    ensures Inv(s')
  {
    CutoffUnderLock(s, t);
    LoggedOk(s, t);
    LogStaysOk(Logged(s, t), t, s');
    BeginCleanUpLog(s, t, s');
    BeginCleanUpCutoff(s, t, s');
    BeginCleanUpExcludes(s, t, s');
    BeginCleanUpCarries(s, t, s');
    BeginCleanUpOwn(s, t, s');
    QuietLogKeeps(s, t, s');
  }

  lemma {:induction false} BeginCleanUpLog(s: State, t: Tid, s': State)
    requires BeginCleanUp(s, t, s') && Cutoff(s.log) == s.cutoff >= 0
    ensures QuietLog(s, t, s')
    ensures Cutoff(s'.log) == Max(s.cutoff, s.threads[t].call.time)
  {
    var op := OpOf(s.threads[t].call);
    CutoffSnoc(s.log, op);
    forall k, v ensures Register(s'.log, (k, v)) == Register(s.log, (k, v)) {
      RegisterSnoc(s.log, op, (k, v));
    }
  }

  lemma {:induction false} BeginCleanUpCutoff(s: State, t: Tid, s': State)
    requires BeginCleanUp(s, t, s') && s.cutoff >= 0
    ensures CutoffOk(s')
  {
    assert Cleaning(s'.threads[t]);
  }

  lemma {:induction false} BeginCleanUpExcludes(s: State, t: Tid, s': State)
    requires BeginCleanUp(s, t, s')
    ensures NewExclusion(s, t, s'.threads[t])
  {
    forall u | u in s.threads && u != t
      ensures Exclusion(s'.threads[t], s.threads[u]) && Exclusion(s.threads[u], s'.threads[t])
    {
      assert MapMode(s.threads[u].pc) == Free;
    }
  }

  lemma {:induction false} BeginCleanUpCarries(s: State, t: Tid, s': State)
    requires BeginCleanUp(s, t, s')
    ensures CarriesOver(s, s.threads[t], s'.threads[t])
  {
    forall m | m in s.index ensures !SweptPast(s'.threads[t], m) {
      assert m.time <= s.threads[t].call.time ==> (m.time, m.key) in Buckets(s.index, s.threads[t].call.time);
    }
  }

  lemma {:induction false} BeginCleanUpOwn(s: State, t: Tid, s': State)
    requires BeginCleanUp(s, t, s') && Cutoff(s'.log) == Max(s.cutoff, s.threads[t].call.time)
    ensures OwnOk(s', s'.threads[t]) && TookEffect(s'.threads[t])
  {
  }

  /** The mutation takes effect in the reference at once, in the memory value by value. */
  lemma {:induction false} LockKeyOwn(s: State, t: Tid, s': State)
    requires Inv(s) && LockKey(s, t, s')
    ensures CallInv(s', t, s'.threads[t])
  {
    assert CallInv(s, t, s.threads[t]);
    LoggedOk(s, t);
    LockKeyRegisters(s, t, s');
    SamePointers(s.table, s.threads[t], s'.threads[t]);
  }

  lemma {:induction false} LockKeyCalls(s: State, t: Tid, s': State)
    requires Inv(s) && LockKey(s, t, s')
    ensures CallsInv(s')
  {
    LockKeyOwn(s, t, s');
    LockedKey(s, t, s'.threads[t], s.threads[t].call.key, s.threads[t].pc.ref);
    forall u | u in s.threads && u != t ensures CallInv(s', u, s.threads[u]) {
      LockKeyOther(s, t, s', u);
    }
    CallsAssemble(s, t, s');
  }

  lemma {:induction false} LockKeyMemory(s: State, t: Tid, s': State)
    requires Inv(s) && LockKey(s, t, s')
    ensures MemoryInv(s')
  {
    var th, th' := s.threads[t], s'.threads[t];
    HoldsMapAlone(s, t);
    CutoffUnderLock(s, t);
    CutoffSnoc(s.log, OpOf(th.call));
    LoggedOk(s, t);
    LogStaysOk(Logged(s, t), t, s');
    LockKeyRegisters(s, t, s');
    forall k, v ensures CellOk(s', k, v) {
      assert CellOk(s, k, v);
      if NoneRemains(s', k, v) {
        assert !Remaining(th', k, v);
        NoneRemainsBefore(s, t, s', k, v);
      }
    }
    FrameMemory(s, t, s');
  }

  lemma {:induction false} LockKeyRegister(s: State, t: Tid, s': State, k: Key, v: Val)
    requires Inv(s) && LockKey(s, t, s') && Cutoff(s.log) == s.cutoff
    ensures !Remaining(s'.threads[t], k, v) ==> Register(s'.log, (k, v)) == Register(s.log, (k, v))
    ensures Remaining(s'.threads[t], k, v) ==>
              Register(s'.log, (k, v)) == Merge(CellAt(s.table, s.heap, k, v), OpOf(s.threads[t].call))
  {
    var th, th' := s.threads[t], s'.threads[t];
    assert CallInv(s, t, th);
    RegisterSnoc(s.log, OpOf(th.call), (k, v));
    assert (k, v) in Pairs(th.call.key, th.call.values) <==> Remaining(th', k, v);
    if Remaining(th', k, v) {
      LockKeyNobody(s, t, k, v);
      assert CellOk(s, k, v);
    }
  }

  lemma {:induction false} LockKeyRegisters(s: State, t: Tid, s': State)
    requires Inv(s) && LockKey(s, t, s')
    ensures forall k, v :: !Remaining(s'.threads[t], k, v) ==> Register(s'.log, (k, v)) == Register(s.log, (k, v))
    ensures RemainingOk(s'.table, s'.heap, s'.log, s'.threads[t])
  {
    HoldsMapAlone(s, t);
    CutoffUnderLock(s, t);
    forall k, v
      ensures !Remaining(s'.threads[t], k, v) ==> Register(s'.log, (k, v)) == Register(s.log, (k, v))
      ensures Remaining(s'.threads[t], k, v) ==>
                Register(s'.log, (k, v)) == Merge(CellAt(s.table, s.heap, k, v), OpOf(s.threads[t].call))
    {
      LockKeyRegister(s, t, s', k, v);
    }
  }

  /** A call with a value left to write holds the lock of the key's entry. */
  lemma {:induction false} RemainingHolds(s: State, u: Tid, k: Key, v: Val)
    requires CallsInv(s) && u in s.threads
    ensures Remaining(s.threads[u], k, v) ==> k in s.table && WritesKey(s.threads[u], k, s.table[k])
  {
    if Remaining(s.threads[u], k, v) {
      assert CallInv(s, u, s.threads[u]);
      assert PointsTo(s.threads[u], k, s.threads[u].pc.ref);
    }
  }

  /** While the key lock is free, no call has a value of that key left to write. */
  lemma {:induction false} LockKeyNobody(s: State, t: Tid, k: Key, v: Val)
    requires Inv(s) && t in s.threads && s.threads[t].call.Mutate? && s.threads[t].pc.KeyWait?
    requires k == s.threads[t].call.key && KeyFreeFor(s, t, k, s.threads[t].pc.ref)
    ensures NoneRemains(s, k, v)
  {
    assert CallInv(s, t, s.threads[t]);
    assert PointsTo(s.threads[t], k, s.threads[t].pc.ref);
    forall u | u in s.threads ensures !Remaining(s.threads[u], k, v) {
      RemainingHolds(s, u, k, v);
    }
  }

  lemma {:induction false} LockKeyOther(s: State, t: Tid, s': State, u: Tid)
    requires Inv(s) && LockKey(s, t, s') && u in s.threads && u != t
    ensures CallInv(s', u, s.threads[u])
  {
    var th := s.threads[t];
    LoggedOk(s, t);
    assert CallInv(s, u, s.threads[u]);
    CutoffSnoc(s.log, OpOf(th.call));
    LockKeyRegisters(s, t, s');
    forall k, v | Remaining(s.threads[u], k, v)
      ensures Register(s'.log, (k, v)) == Merge(CellAt(s.table, s.heap, k, v), OpOf(s.threads[u].call))
    {
      if k == th.call.key {
        LockKeyNobody(s, t, k, v);
      }
    }
  }
}
