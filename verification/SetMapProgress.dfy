/** The set-map protocol cannot deadlock, and a clean-up can miss a delete in flight. */
module SetMapProgress {

  import opened Basics
  import opened Registers
  import opened KeyValueCaches
  import opened SetMapProtocol
  import opened SetMapInvariants
  import opened SetMapTheorems

  ghost predicate CanStep(s: State, t: Tid) {
    exists s' :: Step(s, t, s')
  }

  // -------------------------------------------- calls that wait for no lock can step

  lemma {:induction false} ApplyingSteps(s: State, t: Tid)
    requires Inv(s) && t in s.threads && s.threads[t].pc.Applying?
    ensures CanStep(s, t)
  {
    var th := s.threads[t];
    assert CallInv(s, t, th);
    assert PointsTo(th, th.call.key, th.pc.ref);
    if th.pc.next == |th.call.values| {
      var s' := At(s, t, if th.pc.marked == [] then Finished else IndexWait(th.pc.marked));
      assert UnlockKey(s, t, s');
      assert Step(s, t, s');
    } else {
      var v := th.call.values[th.pc.next];
      var current := if v in s.heap[th.pc.ref] then s.heap[th.pc.ref][v] else SetValueMeta(0, false);
      var changes := current.lastLogicalCommitTime < th.call.time;
      var s' := At(s, t, Applying(th.pc.ref, th.pc.next + 1,
                                  if changes && th.call.isDelete then th.pc.marked + [v] else th.pc.marked)).(
        heap := s.heap[th.pc.ref := s.heap[th.pc.ref][v := if changes then MetaOf(th.call) else current]]);
      assert ApplyOne(s, t, s');
      assert Step(s, t, s');
    }
  }

  lemma {:induction false} ReturnedSteps(s: State, t: Tid)
    requires Inv(s) && t in s.threads && s.threads[t].pc.Returned?
    ensures CanStep(s, t)
  {
    assert CallInv(s, t, s.threads[t]);
    var s' := At(s, t, Finished);
    assert DropResult(s, t, s');
    assert Step(s, t, s');
  }

  /** Key locks are held outside the map lock only by calls that wait for nothing. */
  ghost predicate NobodyBusy(s: State) {
    forall t :: t in s.threads ==> !s.threads[t].pc.Applying? && !s.threads[t].pc.Returned?
  }

  lemma {:induction false} KeysFreeUnderMapLock(s: State, t: Tid, k: Key, r: Ref)
    requires Inv(s) && NobodyBusy(s) && t in s.threads && MapMode(s.threads[t].pc) == Exclusive
    ensures KeyFreeFor(s, t, k, r)
  {
    forall u | u in s.threads && u != t ensures !HoldsKey(s.threads[u], k, r) {
      assert Exclusion(s.threads[t], s.threads[u]);
      assert CallInv(s, u, s.threads[u]);
    }
  }

  // ----------------------------------------- the holder of the map lock can step

  lemma {:induction false} MutationHolderSteps(s: State, t: Tid)
    requires Inv(s) && NobodyBusy(s) && t in s.threads
    requires MapMode(s.threads[t].pc) == Exclusive && s.threads[t].call.Mutate?
    ensures CanStep(s, t)
  {
    var th := s.threads[t];
    assert CallInv(s, t, th);
    match th.pc
    case Checking =>
      CheckingSteps(s, t);
    case KeyWait(ref) =>
      KeysFreeUnderMapLock(s, t, th.call.key, ref);
      var s' := At(Logged(s, t), t, BothHeld(ref));
      assert LockKey(s, t, s');
      assert Step(s, t, s');
    case BothHeld(ref) =>
      var s' := At(s, t, Applying(ref, 0, []));
      assert UnlockMap(s, t, s');
      assert Step(s, t, s');
    case Indexing(marked) =>
      var s' := At(s, t, Finished).(index := s.index + MarksOf(th.call, marked));
      assert AddMarks(s, t, s');
      assert Step(s, t, s');
  }

  lemma {:induction false} CheckingSteps(s: State, t: Tid)
    requires t in s.threads && s.threads[t].pc.Checking? && s.threads[t].call.Mutate?
    ensures CanStep(s, t)
  {
    var call := s.threads[t].call;
    if Refused(s.cutoff, call) {
      var s' := At(Logged(s, t), t, Finished);
      assert Refuse(s, t, s');
      assert Step(s, t, s');
    } else if call.key in s.table {
      var s' := At(s, t, KeyWait(s.table[call.key]));
      assert FindKey(s, t, s');
      assert Step(s, t, s');
    } else {
      var s' := At(Logged(s, t), t, Finished).(
        table := s.table[call.key := s.nextRef],
        heap := s.heap[s.nextRef := NewValues(call)],
        nextRef := s.nextRef + 1,
        index := s.index + MarksOf(call, call.values));
      assert InsertKey(s, t, s');
      assert Step(s, t, s');
    }
  }

  lemma {:induction false} CleanUpHolderSteps(s: State, t: Tid)
    requires Inv(s) && NobodyBusy(s) && t in s.threads
    requires MapMode(s.threads[t].pc) == Exclusive && s.threads[t].call.CleanUp?
    ensures CanStep(s, t)
  {
    var th := s.threads[t];
    assert CallInv(s, t, th);
    match th.pc
    case Sweeping(todo) =>
      SweepingSteps(s, t);
    case SweepWait(todo, at, ref) =>
      KeysFreeUnderMapLock(s, t, at.1, ref);
      var s' := At(s, t, SweepBarrier(todo, at, ref));
      assert SweepLock(s, t, s');
      assert Step(s, t, s');
    case SweepBarrier(todo, at, ref) =>
      var s' := At(s, t, Erasing(todo, at, ref, BucketValues(s.index, at)));
      assert SweepUnlock(s, t, s');
      assert Step(s, t, s');
    case Erasing(todo, at, ref, rest) =>
      assert PointsTo(th, at.1, ref);
      ErasingSteps(s, t);
  }

  lemma {:induction false} SweepingSteps(s: State, t: Tid)
    requires t in s.threads && s.threads[t].pc.Sweeping? && s.threads[t].call.CleanUp?
    ensures CanStep(s, t)
  {
    var th := s.threads[t];
    var todo := th.pc.todo;
    if todo == {} {
      var s' := At(s, t, Finished).(index := Newer(s.index, th.call.time), cutoff := Max(s.cutoff, th.call.time));
      assert EndCleanUp(s, t, s');
      assert Step(s, t, s');
    } else {
      var at :| at in todo;
      var s' := At(s, t, if at.1 in s.table then SweepWait(todo - {at}, at, s.table[at.1]) else Sweeping(todo - {at}));
      assert PickBucket(s, t, at, s');
      assert Step(s, t, s');
    }
  }

  lemma {:induction false} ErasingSteps(s: State, t: Tid)
    requires t in s.threads && s.threads[t].pc.Erasing? && s.threads[t].call.CleanUp?
    requires s.threads[t].pc.ref in s.heap
    ensures CanStep(s, t)
  {
    var th, pc := s.threads[t], s.threads[t].pc;
    if pc.rest == {} {
      var s' := if s.heap[pc.ref] == map[]
                then At(s, t, Sweeping(pc.todo)).(table := s.table - {pc.at.1}, heap := s.heap - {pc.ref})
                else At(s, t, Sweeping(pc.todo));
      assert EndBucket(s, t, s');
      assert Step(s, t, s');
    } else {
      var v :| v in pc.rest;
      var values := s.heap[pc.ref];
      var s' := At(s, t, pc.(rest := pc.rest - {v})).(
        heap := s.heap[pc.ref :=
                  if v in values && values[v].isDeleted && values[v].lastLogicalCommitTime <= th.call.time
                  then values - {v} else values]);
      assert EraseOne(s, t, v, s');
      assert Step(s, t, s');
    }
  }

  lemma {:induction false} ReaderSteps(s: State, t: Tid)
    requires Inv(s) && NobodyBusy(s) && t in s.threads && MapMode(s.threads[t].pc) == Shared
    requires forall u :: u in s.threads ==> MapMode(s.threads[u].pc) != Exclusive
    ensures CanStep(s, t)
  {
    var th := s.threads[t];
    assert CallInv(s, t, th);
    match th.pc
    case Reading(left, found) =>
      if left == {} {
        var s' := At(s, t, Returned(found));
        assert EndGet(s, t, s');
        assert Step(s, t, s');
      } else {
        var k :| k in left;
        var s' := At(s, t, if k in s.table then ReadWait(left - {k}, found, k, s.table[k])
                           else Reading(left - {k}, found));
        assert PickKey(s, t, k, s');
        assert Step(s, t, s');
      }
    case ReadWait(left, found, key, ref) =>
      assert PointsTo(th, key, ref);
      forall u | u in s.threads && u != t ensures !WritesKey(s.threads[u], key, ref) {
        assert CallInv(s, u, s.threads[u]);
      }
      var s' := At(s, t, Reading(left, found[key := Found(ref, LiveValues(s.heap[ref]))]));
      assert ReadKey(s, t, s');
      assert Step(s, t, s');
  }

  lemma {:induction false} WaiterSteps(s: State, t: Tid)
    requires Inv(s) && t in s.threads && (s.threads[t].pc.Start? || s.threads[t].pc.IndexWait?)
    requires forall u :: u in s.threads ==> MapMode(s.threads[u].pc) == Free
    ensures CanStep(s, t)
  {
    var th := s.threads[t];
    assert CallInv(s, t, th);
    if th.pc.IndexWait? {
      var s' := At(s, t, Indexing(th.pc.marked));
      assert RelockMap(s, t, s');
      assert Step(s, t, s');
    } else {
      match th.call
      case Mutate(_, _, _, _) =>
        var s' := At(s, t, Checking);
        assert BeginMutation(s, t, s');
        assert Step(s, t, s');
      case CleanUp(time) =>
        var s' := At(Logged(s, t), t, Sweeping(Buckets(s.index, time)));
        assert BeginCleanUp(s, t, s');
        assert Step(s, t, s');
      case Get(keys) =>
        var s' := At(s, t, Reading(keys, map[]));
        assert BeginGet(s, t, s');
        assert Step(s, t, s');
    }
  }

  /** In every reachable state with an unfinished call, some call can take a step. */
  lemma {:induction false} NoDeadlock(s: State, t: Tid)
    requires Reachable(s) && t in s.threads && !s.threads[t].pc.Finished?
    ensures exists u :: CanStep(s, u)
  {
    ReachableInv(s);
    if u :| u in s.threads && s.threads[u].pc.Applying? {
      ApplyingSteps(s, u);
    } else if u :| u in s.threads && s.threads[u].pc.Returned? {
      ReturnedSteps(s, u);
    } else if u :| u in s.threads && MapMode(s.threads[u].pc) == Exclusive {
      assert CallInv(s, u, s.threads[u]);
      if s.threads[u].call.Mutate? {
        MutationHolderSteps(s, u);
      } else {
        CleanUpHolderSteps(s, u);
      }
    } else if u :| u in s.threads && MapMode(s.threads[u].pc) == Shared {
      ReaderSteps(s, u);
    } else {
      forall u | u in s.threads ensures MapMode(s.threads[u].pc) == Free {
        assert MapMode(s.threads[u].pc) != Shared && MapMode(s.threads[u].pc) != Exclusive;
      }
      WaiterSteps(s, t);
    }
  }

  // ----------------------------------------- a clean-up can miss a delete in flight

  lemma {:induction false} ReachNext(s: State, s': State)
    requires Reachable(s) && Next(s, s')
    ensures Reachable(s')
  {
    var run :| IsRun(run) && run[|run| - 1] == s;
    var run' := run + [s'];
    forall i | 0 <= i < |run'| - 1 ensures Next(run'[i], run'[i + 1]) {
      if i < |run| - 1 {
        assert Next(run[i], run[i + 1]);
      }
    }
    assert IsRun(run') && run'[|run'| - 1] == s';
  }

  lemma {:induction false} ReachStep(s: State, t: Tid, s': State)
    requires Reachable(s) && Step(s, t, s')
    ensures Reachable(s')
  {
    ReachNext(s, s');
  }

  /** A delete has marked its value and given up the key lock, but not yet indexed it. */
  lemma {:induction false} DeleteInFlight() returns (s: State)
    ensures Reachable(s)
    ensures s == State(map[0 := Thread(Mutate("k", ["v"], 1, false), Finished),
                           1 := Thread(Mutate("k", ["v"], 2, true), IndexWait(["v"]))],
                       map["k" := 0], map[0 := map["v" := SetValueMeta(2, true)]], 1, {}, 0, s.log, s.who)
  {
    var update := Mutate("k", ["v"], 1, false);
    var s0 := Initial;
    assert IsRun([s0]);
    assert [s0][|[s0]| - 1] == s0;
    var s1 := s0.(threads := map[0 := Thread(update, Start)]);
    assert Arrive(s0, 0, update, s1);
    ReachNext(s0, s1);
    var s2 := At(s1, 0, Checking);
    assert BeginMutation(s1, 0, s2);
    ReachStep(s1, 0, s2);
    var s3 := At(Logged(s2, 0), 0, Finished).(table := map["k" := 0], heap := map[0 := NewValues(update)], nextRef := 1,
                                             index := {} + MarksOf(update, ["v"]));
    assert InsertKey(s2, 0, s3);
    ReachStep(s2, 0, s3);
    assert NewValues(update) == map["v" := SetValueMeta(1, false)];
    s := DeleteProceeds(s3);
  }

  lemma {:induction false} DeleteProceeds(s3: State) returns (s: State)
    requires Reachable(s3)
    requires s3 == State(map[0 := Thread(Mutate("k", ["v"], 1, false), Finished)],
                         map["k" := 0], map[0 := map["v" := SetValueMeta(1, false)]], 1, {}, 0, s3.log, s3.who)
    ensures Reachable(s)
    ensures s == State(map[0 := Thread(Mutate("k", ["v"], 1, false), Finished),
                           1 := Thread(Mutate("k", ["v"], 2, true), IndexWait(["v"]))],
                       map["k" := 0], map[0 := map["v" := SetValueMeta(2, true)]], 1, {}, 0, s.log, s.who)
  {
    var delete := Mutate("k", ["v"], 2, true);
    var s4 := s3.(threads := s3.threads[1 := Thread(delete, Start)]);
    assert Arrive(s3, 1, delete, s4);
    ReachNext(s3, s4);
    var s5 := At(s4, 1, Checking);
    assert BeginMutation(s4, 1, s5);
    ReachStep(s4, 1, s5);
    var s6 := At(s5, 1, KeyWait(0));
    assert FindKey(s5, 1, s6);
    ReachStep(s5, 1, s6);
    var s7 := At(Logged(s6, 1), 1, BothHeld(0));
    assert LockKey(s6, 1, s7);
    ReachStep(s6, 1, s7);
    s := DeleteApplies(s7);
  }

  lemma {:induction false} DeleteApplies(s7: State) returns (s: State)
    requires Reachable(s7)
    requires s7 == State(map[0 := Thread(Mutate("k", ["v"], 1, false), Finished),
                             1 := Thread(Mutate("k", ["v"], 2, true), BothHeld(0))],
                         map["k" := 0], map[0 := map["v" := SetValueMeta(1, false)]], 1, {}, 0, s7.log, s7.who)
    ensures Reachable(s)
    ensures s == State(map[0 := Thread(Mutate("k", ["v"], 1, false), Finished),
                           1 := Thread(Mutate("k", ["v"], 2, true), IndexWait(["v"]))],
                       map["k" := 0], map[0 := map["v" := SetValueMeta(2, true)]], 1, {}, 0, s.log, s.who)
  {
    var s8 := At(s7, 1, Applying(0, 0, []));
    assert UnlockMap(s7, 1, s8);
    ReachStep(s7, 1, s8);
    var s9 := At(s8, 1, Applying(0, 1, [] + ["v"])).(
      heap := s8.heap[0 := s8.heap[0]["v" := SetValueMeta(2, true)]]);
    assert ApplyOne(s8, 1, s9);
    ReachStep(s8, 1, s9);
    assert [] + ["v"] == ["v"];
    s := At(s9, 1, IndexWait(["v"]));
    assert UnlockKey(s9, 1, s);
    ReachStep(s9, 1, s);
    assert s.heap[0] == map["v" := SetValueMeta(2, true)];
    assert s.heap == map[0 := map["v" := SetValueMeta(2, true)]];
    assert s.threads == map[0 := Thread(Mutate("k", ["v"], 1, false), Finished),
                            1 := Thread(Mutate("k", ["v"], 2, true), IndexWait(["v"]))];
  }

  /** A clean-up that starts while nothing is indexed passes over everything. */
  lemma {:induction false} CleanUpPasses(s1: State, c: Tid, time: Time) returns (s: State)
    requires Reachable(s1) && c !in s1.threads && s1.index == {}
    requires forall t :: t in s1.threads ==> MapMode(s1.threads[t].pc) == Free
    ensures Reachable(s) && s.table == s1.table && s.heap == s1.heap && s.cutoff == Max(s1.cutoff, time)
    ensures s.threads == s1.threads[c := Thread(CleanUp(time), Finished)]
  {
    var s2 := s1.(threads := s1.threads[c := Thread(CleanUp(time), Start)]);
    assert Arrive(s1, c, CleanUp(time), s2);
    ReachNext(s1, s2);
    var s3 := At(Logged(s2, c), c, Sweeping({}));
    assert Buckets(s2.index, time) == {};
    assert BeginCleanUp(s2, c, s3);
    ReachStep(s2, c, s3);
    s := At(s3, c, Finished).(index := Newer(s3.index, time), cutoff := Max(s3.cutoff, time));
    assert EndCleanUp(s3, c, s);
    ReachStep(s3, c, s);
  }

  /** Completeness of the clean-up holds call by call but not step by step: a clean-up that
      runs between the two critical sections of a delete leaves that delete's tombstone
      behind, at or below the cutoff. `CleanUpLeavesOnlyPending` says that nothing else is. */
  lemma {:induction false} CleanUpMissesDeleteInFlight() returns (s: State)
    ensures Reachable(s)
    ensures exists k, v :: IsTombstone(CellAt(s.table, s.heap, k, v))
                           && CellAt(s.table, s.heap, k, v).value.time <= s.cutoff
    ensures forall t :: t in s.threads ==> !s.threads[t].call.CleanUp? || s.threads[t].pc.Finished?
  {
    var s1 := DeleteInFlight();
    s := CleanUpPasses(s1, 2, 2);
    assert IsTombstone(CellAt(s.table, s.heap, "k", "v"));
  }
}
