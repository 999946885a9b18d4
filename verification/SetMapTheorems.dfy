/** What holds in every reachable state of the set-map protocol, under any interleaving. */
module SetMapTheorems {

  import opened Basics
  import opened Registers
  import opened KeyValueCaches
  import opened SetMapProtocol
  import opened SetMapInvariants
  import opened SetMapSteps

  // --------------------------------------------------------------- the invariant is kept

  lemma {:induction false} MutationStepKeeps(s: State, t: Tid, s': State)
    requires Inv(s) && MutationStep(s, t, s')
    ensures Inv(s')
  {
    assert CallInv(s, t, s.threads[t]);
    if BeginMutation(s, t, s') {
      BeginMutationMove(s, t, s');
      MoveKeeps(s, t, s');
    } else if Refuse(s, t, s') {
      RefuseKeeps(s, t, s');
    } else if InsertKey(s, t, s') {
      InsertKeyCalls(s, t, s');
      InsertKeyMemory(s, t, s');
    } else if FindKey(s, t, s') {
      FindKeyMove(s, t, s');
      QuietMoveKeeps(s, t, s');
    } else if LockKey(s, t, s') {
      LockKeyCalls(s, t, s');
      LockKeyMemory(s, t, s');
    } else if UnlockMap(s, t, s') {
      UnlockMapMove(s, t, s');
      QuietMoveKeeps(s, t, s');
    } else if ApplyOne(s, t, s') {
      ApplyOneCalls(s, t, s');
      ApplyOneMemory(s, t, s');
    } else if UnlockKey(s, t, s') {
      UnlockKeyMove(s, t, s');
      QuietMoveKeeps(s, t, s');
    } else if RelockMap(s, t, s') {
      RelockMapMove(s, t, s');
      MoveKeeps(s, t, s');
    } else {
      AddMarksCalls(s, t, s');
      AddMarksMemory(s, t, s');
    }
  }

  lemma {:induction false} CleanUpStepKeeps(s: State, t: Tid, s': State)
    requires Inv(s) && CleanUpStep(s, t, s')
    ensures Inv(s')
  {
    assert CallInv(s, t, s.threads[t]);
    if BeginCleanUp(s, t, s') {
      BeginCleanUpKeeps(s, t, s');
    } else if at :| PickBucket(s, t, at, s') {
      PickBucketMove(s, t, at, s');
      QuietMoveKeeps(s, t, s');
    } else if SweepLock(s, t, s') {
      SweepLockMove(s, t, s');
      LockedKey(s, t, s'.threads[t], s.threads[t].pc.at.1, s.threads[t].pc.ref);
      MoveKeeps(s, t, s');
    } else if SweepUnlock(s, t, s') {
      SweepUnlockMove(s, t, s');
      QuietMoveKeeps(s, t, s');
    } else if v :| EraseOne(s, t, v, s') {
      EraseOneCalls(s, t, v, s');
      EraseOneMemory(s, t, v, s');
    } else if EndBucket(s, t, s') {
      EndBucketCalls(s, t, s');
      EndBucketMemory(s, t, s');
    } else {
      EndCleanUpCalls(s, t, s');
      EndCleanUpMemory(s, t, s');
    }
  }

  lemma {:induction false} GetStepKeeps(s: State, t: Tid, s': State)
    requires Inv(s) && GetStep(s, t, s')
    ensures Inv(s')
  {
    assert CallInv(s, t, s.threads[t]);
    if BeginGet(s, t, s') {
      BeginGetMove(s, t, s');
      MoveKeeps(s, t, s');
    } else if k :| PickKey(s, t, k, s') {
      PickKeyMove(s, t, k, s');
      QuietMoveKeeps(s, t, s');
    } else if ReadKey(s, t, s') {
      ReadKeyMove(s, t, s');
      ReadKeyExclusion(s, t, s');
      MoveKeeps(s, t, s');
    } else if EndGet(s, t, s') {
      EndGetMove(s, t, s');
      QuietMoveKeeps(s, t, s');
    } else {
      DropResultMove(s, t, s');
      QuietMoveKeeps(s, t, s');
    }
  }

  lemma {:induction false} ArriveCalls(s: State, t: Tid, call: Call, s': State)
    requires Inv(s) && Arrive(s, t, call, s')
    ensures CallsInv(s')
  {
    var th := Thread(call, Start);
    assert t !in s.who;
    assert CallInv(s', t, th);
    forall u | u in s'.threads ensures CallInv(s', u, s'.threads[u]) {
      if u != t {
        assert CallInv(s, u, s.threads[u]);
      }
    }
    forall u, w | u in s'.threads && w in s'.threads && u != w
      ensures Exclusion(s'.threads[u], s'.threads[w])
    {
      if u != t && w != t {
        assert Exclusion(s.threads[u], s.threads[w]);
      }
    }
  }

  lemma {:induction false} ArriveMemory(s: State, t: Tid, call: Call, s': State)
    requires Inv(s) && Arrive(s, t, call, s')
    ensures MemoryInv(s')
  {
    forall k | k in s'.table && ValuesAt(s'.table, s'.heap, k) == map[] ensures ErasedFrom(s', k) {
      var u :| u in s.threads && s.threads[u].pc.Erasing? && s.threads[u].pc.at.1 == k;
      assert u in s'.threads && s'.threads[u].pc.Erasing? && s'.threads[u].pc.at.1 == k;
    }
    forall k, v ensures TombstoneOk(s', k, v) {
      ArriveTombstone(s, t, call, s', k, v);
    }
    forall k, v ensures CellOk(s', k, v) {
      assert CellOk(s, k, v);
      if NoneRemains(s', k, v) {
        forall u | u in s.threads ensures !Remaining(s.threads[u], k, v) {
          assert u in s'.threads && s'.threads[u] == s.threads[u];
        }
      }
    }
    if forall u :: u in s'.threads ==> !Cleaning(s'.threads[u]) {
      forall u | u in s.threads ensures !Cleaning(s.threads[u]) {
        assert u in s'.threads && s'.threads[u] == s.threads[u];
      }
    }
  }

  lemma {:induction false} ArriveTombstone(s: State, t: Tid, call: Call, s': State, k: Key, v: Val)
    requires Inv(s) && Arrive(s, t, call, s')
    ensures TombstoneOk(s', k, v)
  {
    assert TombstoneOk(s, k, v);
    var cell := CellAt(s.table, s.heap, k, v);
    if IsTombstone(cell) {
      var m := Mark(cell.value.time, k, v);
      if PendingIn(s, m) {
        var u :| u in s.threads && Pending(s.threads[u], m);
        assert u in s'.threads && Pending(s'.threads[u], m);
      } else {
        assert Indexed(s', m);
      }
    }
  }

  lemma {:induction false} NextKeeps(s: State, s': State)
    requires Inv(s) && Next(s, s')
    ensures Inv(s')
  {
    if t, call :| Arrive(s, t, call, s') {
      ArriveCalls(s, t, call, s');
      ArriveMemory(s, t, call, s');
    } else {
      var t :| Step(s, t, s');
      if MutationStep(s, t, s') {
        MutationStepKeeps(s, t, s');
      } else if CleanUpStep(s, t, s') {
        CleanUpStepKeeps(s, t, s');
      } else {
        GetStepKeeps(s, t, s');
      }
    }
  }

  lemma {:induction false} RunKeeps(run: seq<State>)
    requires IsRun(run)
    ensures Inv(run[|run| - 1])
    decreases |run|
  {
    if |run| == 1 {
      InitialInv();
    } else {
      var before := run[..|run| - 1];
      assert IsRun(before);
      RunKeeps(before);
      assert Next(run[|run| - 2], run[|run| - 1]);
      NextKeeps(run[|run| - 2], run[|run| - 1]);
    }
  }

  lemma {:induction false} ReachableInv(s: State)
    requires Reachable(s)
    ensures Inv(s)
  {
    var run :| IsRun(run) && run[|run| - 1] == s;
    RunKeeps(run);
  }

  // ------------------------------------------------------------------------- safety

  /** What a reader of the map would see for a key at this moment. */
  function LiveAt(s: State, k: Key): set<Val> {
    LiveValues(ValuesAt(s.table, s.heap, k))
  }

  /** The values of a key after the history of the calls that have taken effect. */
  predicate LiveInLog(log: seq<SetOp>, k: Key, v: Val) {
    Visible(Register(log, (k, v))).Some?
  }

  /** No call holds a pointer to an erased entry; a value map that is being written, or from
      which a clean-up erases after giving up the key lock, is locked by no other call; only a
      value map under erasure can be empty. */
  lemma {:induction false} MemoryIsSafe(s: State)
    requires Reachable(s)
    ensures forall t, k, r :: t in s.threads && PointsTo(s.threads[t], k, r) ==>
                              k in s.table && s.table[k] == r && r in s.heap
    ensures forall t, u, k, r :: t in s.threads && u in s.threads && t != u
                                 && (WritesKey(s.threads[t], k, r) || Erases(s.threads[t], k, r)) ==>
                                 !HoldsKey(s.threads[u], k, r)
    ensures forall k :: k in s.table && ValuesAt(s.table, s.heap, k) == map[] ==> ErasedFrom(s, k)
  {
    ReachableInv(s);
    forall t, k, r | t in s.threads && PointsTo(s.threads[t], k, r)
      ensures k in s.table && s.table[k] == r && r in s.heap
    {
      assert CallInv(s, t, s.threads[t]);
    }
    forall t, u, k, r | t in s.threads && u in s.threads && t != u
                        && (WritesKey(s.threads[t], k, r) || Erases(s.threads[t], k, r))
      ensures !HoldsKey(s.threads[u], k, r)
    {
      assert Exclusion(s.threads[t], s.threads[u]);
    }
  }

  /** Every tombstone is indexed at its own time or pending in a delete in flight. */
  lemma {:induction false} TombstonesAreTracked(s: State, k: Key, v: Val)
    requires Reachable(s)
    requires IsTombstone(CellAt(s.table, s.heap, k, v))
    ensures var m := Mark(CellAt(s.table, s.heap, k, v).value.time, k, v);
            m in s.index || PendingIn(s, m)
  {
    ReachableInv(s);
    assert TombstoneOk(s, k, v);
  }

  /** A finished clean-up leaves a tombstone at or below its time only where a delete in flight
      has still to index it. */
  lemma {:induction false} CleanUpLeavesOnlyPending(s: State, t: Tid, s': State, k: Key, v: Val)
    requires Reachable(s) && EndCleanUp(s, t, s')
    requires var cell := CellAt(s'.table, s'.heap, k, v);
             IsTombstone(cell) && cell.value.time <= s.threads[t].call.time
    ensures PendingIn(s', Mark(CellAt(s'.table, s'.heap, k, v).value.time, k, v))
  {
    ReachableInv(s);
    EndCleanUpTombstone(s, t, s', k, v);
  }

  // ---------------------------------------------------------------- linearizability

  /** The calls take effect one at a time, each at one moment between its arrival and its end:
      the log has one entry for each call that has taken effect, and the live values of every
      key that no call is still writing are those of the log run by the reference semantics,
      in which clean-up is invisible. */
  lemma {:induction false} Linearizable(s: State)
    requires Reachable(s)
    ensures |s.who| == |s.log|
    ensures forall i :: 0 <= i < |s.who| ==>
                        s.who[i] in s.threads && !s.threads[s.who[i]].call.Get?
                        && s.log[i] == OpOf(s.threads[s.who[i]].call)
    ensures forall i, j :: 0 <= i < j < |s.who| ==> s.who[i] != s.who[j]
    ensures forall t :: t in s.threads ==> (TookEffect(s.threads[t]) <==> t in s.who)
    ensures forall k, v :: (forall t :: t in s.threads ==> !Remaining(s.threads[t], k, v)) ==>
                           (v in LiveAt(s, k) <==> LiveInLog(s.log, k, v))
  {
    ReachableInv(s);
    forall t | t in s.threads ensures TookEffect(s.threads[t]) <==> t in s.who {
      assert CallInv(s, t, s.threads[t]);
    }
    forall k, v | NoneRemains(s, k, v) ensures v in LiveAt(s, k) <==> LiveInLog(s.log, k, v) {
      assert CellOk(s, k, v);
    }
  }

  /** What the log says about the calls: a mutation writes all its pairs, deleted or not as the
      call says, and a clean-up collects up to its time. */
  lemma {:induction false} LogSaysWhatCallsDo(s: State, i: nat)
    requires Reachable(s) && i < |s.who|
    ensures |s.log| == |s.who| && s.who[i] in s.threads && !s.threads[s.who[i]].call.Get?
    ensures var call := s.threads[s.who[i]].call;
            call.Mutate? ==> s.log[i] == Write(set v | v in call.values :: (call.key, v),
                                               if call.isDelete then None else Some(Present), call.time)
    ensures var call := s.threads[s.who[i]].call;
            call.CleanUp? ==> s.log[i] == Collect(call.time)
  {
    Linearizable(s);
  }

  /** Call number `i` to take effect mutates the pair, and no earlier clean-up was at its time or
      later. */
  predicate CallInTime(s: State, i: int, k: Key, v: Val)
    requires forall t :: t in s.who ==> t in s.threads
  {
    && 0 <= i < |s.who|
    && var call := s.threads[s.who[i]].call;
    && call.Mutate? && call.key == k && v in call.values && call.time > 0
    && forall j :: 0 <= j < i && s.threads[s.who[j]].call.CleanUp? ==> s.threads[s.who[j]].call.time < call.time
  }

  /** No call in time is newer, and none of the same time took effect before it. */
  ghost predicate CallDecides(s: State, i: int, k: Key, v: Val)
    requires forall t :: t in s.who ==> t in s.threads
  {
    && CallInTime(s, i, k, v)
    && forall j :: CallInTime(s, j, k, v) ==>
                     || s.threads[s.who[j]].call.time < s.threads[s.who[i]].call.time
                     || (s.threads[s.who[j]].call.time == s.threads[s.who[i]].call.time && i <= j)
  }

  lemma {:induction false} CallsInTime(s: State, i: int, k: Key, v: Val)
    requires Reachable(s)
    ensures forall t :: t in s.who ==> t in s.threads
    ensures CallInTime(s, i, k, v) <==> InTime(s.log, i, (k, v))
    ensures CallInTime(s, i, k, v) ==>
              && s.log[i].time == s.threads[s.who[i]].call.time
              && s.log[i].payload == if s.threads[s.who[i]].call.isDelete then None else Some(Present)
  {
    Linearizable(s);
    forall j | 0 <= j < |s.who|
      ensures s.who[j] in s.threads && (s.log[j].Collect? <==> s.threads[s.who[j]].call.CleanUp?)
      ensures s.log[j].time == s.threads[s.who[j]].call.time
    {
      LogSaysWhatCallsDo(s, j);
    }
    if 0 <= i < |s.who| {
      LogSaysWhatCallsDo(s, i);
    }
  }

  /** The memory follows the calls: a value that no call is still writing is live if and only if
      the call that decides it is no delete. */
  lemma {:induction false} LiveIffLastCallUpdates(s: State, k: Key, v: Val)
    requires Reachable(s) && NoneRemains(s, k, v)
    ensures forall t :: t in s.who ==> t in s.threads
    ensures v in LiveAt(s, k) <==> exists i :: CallDecides(s, i, k, v) && !s.threads[s.who[i]].call.isDelete
  {
    Linearizable(s);
    assert v in LiveAt(s, k) <==> LiveInLog(s.log, k, v);
    forall j ensures CallInTime(s, j, k, v) <==> InTime(s.log, j, (k, v))
      ensures CallInTime(s, j, k, v) ==>
                && s.log[j].time == s.threads[s.who[j]].call.time
                && s.log[j].payload == if s.threads[s.who[j]].call.isDelete then None else Some(Present)
    {
      CallsInTime(s, j, k, v);
    }
    var i := DecidingWrite(s.log, (k, v));
    if Register(s.log, (k, v)).Some? {
      assert CallDecides(s, i, k, v);
      forall j | CallDecides(s, j, k, v) ensures j == i {
      }
    }
  }

  /** As long as a result lives, each value set in it equals the current live values of its
      key, and those of the log. */
  lemma {:induction false} ResultsStayCurrent(s: State, t: Tid, k: Key)
    requires Reachable(s)
    requires t in s.threads && HasResult(s.threads[t].pc) && k in s.threads[t].pc.found
    ensures s.threads[t].pc.found[k].values == LiveAt(s, k)
    ensures forall v :: v in s.threads[t].pc.found[k].values <==> LiveInLog(s.log, k, v)
  {
    ReachableInv(s);
    var th := s.threads[t];
    assert CallInv(s, t, th);
    assert ReadsKey(th, k, th.pc.found[k].ref) && PointsTo(th, k, th.pc.found[k].ref);
    forall v ensures v in LiveAt(s, k) <==> LiveInLog(s.log, k, v) {
      forall u | u in s.threads ensures !Remaining(s.threads[u], k, v) {
        RemainingHolds(s, u, k, v);
        if u != t {
          assert Exclusion(s.threads[u], th);
        }
      }
      assert CellOk(s, k, v);
    }
  }

  /** A read is a snapshot: when it releases the map lock, its answer for every key asked for,
      found or not, is that of the log at this moment. */
  lemma {:induction false} ReadIsSnapshot(s: State, t: Tid, s': State, k: Key, v: Val)
    requires Reachable(s) && EndGet(s, t, s') && k in s.threads[t].call.keys
    ensures v in (if k in s'.threads[t].pc.found then s'.threads[t].pc.found[k].values else {})
            <==> LiveInLog(s'.log, k, v)
  {
    ReachableInv(s);
    var th := s.threads[t];
    assert CallInv(s, t, th);
    if k in th.pc.found {
      ResultsStayCurrent(s, t, k);
    } else {
      assert Handled(th, k);
      forall u | u in s.threads ensures !Remaining(s.threads[u], k, v) {
        RemainingHolds(s, u, k, v);
      }
      assert CellOk(s, k, v);
    }
  }

  ghost predicate Quiet(s: State) {
    forall t :: t in s.threads ==> s.threads[t].pc.Finished?
  }

  /** The interleaving does not matter: two runs to the end that write the same things to a
      (key, value) pair, without conflicting ties and without a write refused at the cutoff,
      agree on whether the value is live, wherever their clean-ups fall. */
  lemma {:induction false} ScheduleIsIrrelevant(a: State, b: State, k: Key, v: Val)
    requires Reachable(a) && Reachable(b) && Quiet(a) && Quiet(b)
    requires NoneDropped(a.log, (k, v)) && NoneDropped(b.log, (k, v))
    requires ConflictFree(a.log, b.log, (k, v)) && SameWrites(a.log, b.log, (k, v))
    ensures v in LiveAt(a, k) <==> v in LiveAt(b, k)
  {
    Linearizable(a);
    Linearizable(b);
    OrderIsIrrelevant(a.log, b.log, (k, v));
  }
}
