/** Exactly which old tombstones a clean-up of the set map leaves behind.

While a clean-up holds the map lock, no call takes effect and the index does not change. Other
calls can only write the values they have still to write. So what is left at the end is decided
when the clean-up takes the lock.
 */
module SetMapCleanUps {

  import opened Basics
  import opened Registers
  import opened KeyValueCaches
  import opened SetMapProtocol
  import opened SetMapInvariants
  import opened SetMapSteps
  import opened SetMapTheorems
  import opened SetMapHistories

  function CellOf(s: State, k: Key, v: Val): Option<Entry<Present>> {
    CellAt(s.table, s.heap, k, v)
  }

  predicate IsOld(cell: Option<Entry<Present>>, time: Time) {
    IsTombstone(cell) && cell.value.time <= time
  }

  /** A clean-up up to `time` finds the pair in the index. */
  ghost predicate Marked(index: set<Mark>, k: Key, v: Val, time: Time) {
    exists t :: t <= time && Mark(t, k, v) in index
  }

  /** The cell is what the reference prescribes, or a call has still to make it so. */
  ghost predicate WillAgree(s: State, k: Key, v: Val) {
    CellOf(s, k, v) == Register(s.log, (k, v)) || !NoneRemains(s, k, v)
  }

  /** Nobody writes the pair any more, and it is no old tombstone. */
  ghost predicate Gone(s: State, k: Key, v: Val, time: Time) {
    NoneRemains(s, k, v) && !IsOld(CellOf(s, k, v), time)
  }

  /** The clean-up works on what the index held when it began. */
  predicate FromIndex(index: set<Mark>, th: Thread)
    requires th.call.CleanUp?
  {
    var buckets := Buckets(index, th.call.time);
    match th.pc
    case Sweeping(todo) => todo <= buckets
    case SweepWait(todo, at, _) => todo <= buckets && at in buckets
    case SweepBarrier(todo, at, _) => todo <= buckets && at in buckets
    case Erasing(todo, at, _, rest) => todo <= buckets && at in buckets && rest <= BucketValues(index, at)
    case _ => true
  }

  /** Clean-up `c`, which began in state `b`, has come to state `s`. */
  ghost predicate Sweeps(b: State, s: State, c: Tid, k: Key, v: Val) {
    && c in b.threads && c in s.threads && s.threads[c].call == b.threads[c].call && Cleaning(s.threads[c])
    && s.log == b.log && s.index == b.index
    && FromIndex(s.index, s.threads[c])
    && (Marked(b.index, k, v, b.threads[c].call.time) || (WillAgree(s, k, v) <==> WillAgree(b, k, v)))
    && (SweptMark(s, c, k, v) ==> Gone(s, k, v, b.threads[c].call.time))
  }

  /** The clean-up has already passed a mark of the pair. */
  ghost predicate SweptMark(s: State, c: Tid, k: Key, v: Val)
    requires c in s.threads
  {
    exists t :: Mark(t, k, v) in s.index && SweptPast(s.threads[c], Mark(t, k, v))
  }

  ghost predicate SweepsOrDone(b: State, s: State, c: Tid, k: Key, v: Val) {
    (c in s.threads && s.threads[c].pc.Finished?) || Sweeps(b, s, c, k, v)
  }

  // --------------------------------------------------------------- steps that change nothing

  /** The step does not touch the pair. */
  ghost predicate Leaves(s: State, s': State, k: Key, v: Val) {
    && s'.log == s.log && s'.index == s.index
    && CellOf(s', k, v) == CellOf(s, k, v)
    && (NoneRemains(s', k, v) <==> NoneRemains(s, k, v))
  }

  lemma {:induction false} LeavesSweeps(b: State, s: State, c: Tid, s': State, k: Key, v: Val)
    requires Sweeps(b, s, c, k, v) && Leaves(s, s', k, v)
    requires c in s'.threads && s'.threads[c].call == s.threads[c].call && Cleaning(s'.threads[c])
    requires FromIndex(s'.index, s'.threads[c])
    requires SweptMark(s', c, k, v) ==> SweptMark(s, c, k, v)
    ensures Sweeps(b, s', c, k, v)
  {
  }

  lemma {:induction false} SameRemaining(s: State, t: Tid, s': State, k: Key, v: Val)
    requires Moves(s, t, s') && (Remaining(s.threads[t], k, v) <==> Remaining(s'.threads[t], k, v))
    ensures NoneRemains(s', k, v) <==> NoneRemains(s, k, v)
  {
    if NoneRemains(s, k, v) {
      forall u | u in s'.threads ensures !Remaining(s'.threads[u], k, v) {
        assert u in s.threads && (u != t ==> s'.threads[u] == s.threads[u]);
      }
    }
    if NoneRemains(s', k, v) {
      forall u | u in s.threads ensures !Remaining(s.threads[u], k, v) {
        assert u in s'.threads && (u != t ==> s'.threads[u] == s.threads[u]);
      }
    }
  }

  lemma {:induction false} ArriveSweeps(b: State, s: State, c: Tid, t: Tid, call: Call, s': State, k: Key, v: Val)
    requires Sweeps(b, s, c, k, v) && Arrive(s, t, call, s')
    ensures Sweeps(b, s', c, k, v)
  {
    assert NoneRemains(s', k, v) <==> NoneRemains(s, k, v) by {
      assert !Remaining(s'.threads[t], k, v);
      assert forall u :: u in s.threads ==> u in s'.threads && s'.threads[u] == s.threads[u];
    }
    LeavesSweeps(b, s, c, s', k, v);
  }

  // ---------------------------------------------------------------------------- other calls

  /** While a clean-up holds the map lock, other calls can only write, end writing, or drop a
      result. */
  lemma {:induction false} OthersOnlyWrite(s: State, c: Tid, u: Tid, s': State)
    requires CallsInv(s) && c in s.threads && Cleaning(s.threads[c]) && u != c && Step(s, u, s')
    ensures ApplyOne(s, u, s') || UnlockKey(s, u, s') || DropResult(s, u, s')
  {
    HoldsMapAlone(s, c);
    EntryNeedsMap(s, u, s');
    CleanUpNeedsMap(s, u, s');
    GetNeedsMap(s, u, s');
  }

  lemma {:induction false} EntryNeedsMap(s: State, u: Tid, s': State)
    ensures EntryStep(s, u, s') ==>
              u in s.threads && (MapMode(s.threads[u].pc) == Exclusive || MapFreeFor(s, u))
  {
  }

  lemma {:induction false} CleanUpNeedsMap(s: State, u: Tid, s': State)
    ensures CleanUpStep(s, u, s') ==>
              u in s.threads && (MapMode(s.threads[u].pc) == Exclusive || MapFreeFor(s, u))
  {
  }

  lemma {:induction false} GetNeedsMap(s: State, u: Tid, s': State)
    ensures GetStep(s, u, s') && !DropResult(s, u, s') ==>
              u in s.threads && (MapMode(s.threads[u].pc) == Shared || MapSharable(s, u))
  {
  }

  lemma {:induction false} ApplySweeps(b: State, s: State, c: Tid, u: Tid, s': State, k: Key, v: Val)
    requires Sweeps(b, s, c, k, v) && u != c && ApplyOne(s, u, s')
    requires CallInv(s, u, s.threads[u]) && MemoryOk(s)
    ensures Sweeps(b, s', c, k, v)
  {
    var th := s.threads[u];
    if k == th.call.key && v == th.call.values[th.pc.next] {
      WrittenAgrees(s, u, s');
    } else {
      UnwrittenStays(s, u, s', k, v);
      LeavesSweeps(b, s, c, s', k, v);
    }
  }

  lemma {:induction false} UnwrittenStays(s: State, u: Tid, s': State, k: Key, v: Val)
    requires ApplyOne(s, u, s') && CallInv(s, u, s.threads[u]) && MemoryOk(s)
    requires k != s.threads[u].call.key || v != s.threads[u].call.values[s.threads[u].pc.next]
    ensures Leaves(s, s', k, v) && Moves(s, u, s')
  {
    var th := s.threads[u];
    ApplyOneCells(s, u, s');
    assert th.call.values[th.pc.next..] == [th.call.values[th.pc.next]] + th.call.values[th.pc.next + 1..];
    SameRemaining(s, u, s', k, v);
  }

  /** A value that is written was still to be written, and then is settled. */
  lemma {:induction false} WrittenAgrees(s: State, u: Tid, s': State)
    requires ApplyOne(s, u, s') && CallInv(s, u, s.threads[u]) && MemoryOk(s)
    ensures var k, v := s.threads[u].call.key, s.threads[u].call.values[s.threads[u].pc.next];
            !NoneRemains(s, k, v) && CellOf(s', k, v) == Register(s'.log, (k, v))
  {
    var th := s.threads[u];
    var k, v := th.call.key, th.call.values[th.pc.next];
    assert v in th.call.values[th.pc.next..] && Remaining(th, k, v);
    ApplyOneCells(s, u, s');
  }

  lemma {:induction false} UnlockSweeps(b: State, s: State, c: Tid, u: Tid, s': State, k: Key, v: Val)
    requires Sweeps(b, s, c, k, v) && u != c && (UnlockKey(s, u, s') || DropResult(s, u, s'))
    ensures Sweeps(b, s', c, k, v)
  {
    assert Moves(s, u, s');
    SameRemaining(s, u, s', k, v);
    LeavesSweeps(b, s, c, s', k, v);
  }

  // ------------------------------------------------------------------------ the clean-up itself

  lemma {:induction false} OwnRemaining(s: State, c: Tid, s': State, k: Key, v: Val)
    requires Moves(s, c, s') && s.threads[c].call.CleanUp?
    ensures NoneRemains(s', k, v) <==> NoneRemains(s, k, v)
  {
    SameRemaining(s, c, s', k, v);
  }

  /** A key that is not in the table has no cells, and nobody writes them. */
  lemma {:induction false} AbsentGone(s: State, k: Key, v: Val, time: Time)
    requires CallsInv(s) && k !in s.table
    ensures Gone(s, k, v, time)
  {
    forall u | u in s.threads ensures !Remaining(s.threads[u], k, v) {
      RemainingHolds(s, u, k, v);
    }
  }

  lemma {:induction false} PickStays(s: State, c: Tid, at: (Time, Key), s': State, k: Key, v: Val)
    requires PickBucket(s, c, at, s')
    ensures Leaves(s, s', k, v) && Moves(s, c, s')
    ensures SweptMark(s', c, k, v) ==> SweptMark(s, c, k, v) || (at.1 == k && k !in s.table)
  {
    OwnRemaining(s, c, s', k, v);
    if at.1 != k || k in s.table {
      forall t | Mark(t, k, v) in s'.index && SweptPast(s'.threads[c], Mark(t, k, v))
        ensures SweptPast(s.threads[c], Mark(t, k, v))
      {
      }
    }
  }

  lemma {:induction false} PickSweeps(b: State, s: State, c: Tid, at: (Time, Key), s': State, k: Key, v: Val)
    requires Sweeps(b, s, c, k, v) && PickBucket(s, c, at, s')
    requires k !in s.table ==> Gone(s, k, v, b.threads[c].call.time)
    ensures Sweeps(b, s', c, k, v)
  {
    PickStays(s, c, at, s', k, v);
    if at.1 != k || k in s.table {
      LeavesSweeps(b, s, c, s', k, v);
    }
  }

  lemma {:induction false} BarrierSweeps(b: State, s: State, c: Tid, s': State, k: Key, v: Val)
    requires Sweeps(b, s, c, k, v) && (SweepLock(s, c, s') || SweepUnlock(s, c, s'))
    ensures Sweeps(b, s', c, k, v)
  {
    OwnRemaining(s, c, s', k, v);
    assert SweptMark(s', c, k, v) ==> SweptMark(s, c, k, v) by {
      forall t | Mark(t, k, v) in s'.index && SweptPast(s'.threads[c], Mark(t, k, v))
        ensures SweptPast(s.threads[c], Mark(t, k, v))
      {
        assert s.threads[c].pc.at == (t, k) ==> v in BucketValues(s.index, (t, k));
      }
    }
    LeavesSweeps(b, s, c, s', k, v);
  }

  lemma {:induction false} ErasedGone(s: State, c: Tid, v: Val, s': State)
    requires Inv(s) && EraseOne(s, c, v, s')
    ensures Gone(s', s.threads[c].pc.at.1, v, s.threads[c].call.time)
  {
    var k := s.threads[c].pc.at.1;
    assert CallInv(s, c, s.threads[c]);
    EraseOneCells(s, c, v, s');
    assert Erases(s.threads[c], k, s.table[k]);
    forall u | u in s'.threads ensures !Remaining(s'.threads[u], k, v) {
      if u != c {
        OthersAwayFrom(s, c, u, k);
        assert s'.threads[u] == s.threads[u];
      }
    }
  }

  lemma {:induction false} EraseSweeps(b: State, s: State, c: Tid, value: Val, s': State, k: Key, v: Val)
    requires Sweeps(b, s, c, k, v) && EraseOne(s, c, value, s') && CallInv(s, c, s.threads[c]) && MemoryOk(s)
    requires k == s.threads[c].pc.at.1 && v == value ==> Gone(s', k, v, s.threads[c].call.time)
    ensures Sweeps(b, s', c, k, v)
  {
    var at := s.threads[c].pc.at;
    if k == at.1 && v == value {
      assert Mark(at.0, k, v) in s.index;
    } else {
      UnerasedStays(s, c, value, s', k, v);
      LeavesSweeps(b, s, c, s', k, v);
    }
  }

  lemma {:induction false} UnerasedStays(s: State, c: Tid, value: Val, s': State, k: Key, v: Val)
    requires EraseOne(s, c, value, s') && CallInv(s, c, s.threads[c]) && MemoryOk(s)
    requires k != s.threads[c].pc.at.1 || v != value
    ensures Leaves(s, s', k, v) && Moves(s, c, s')
    ensures SweptMark(s', c, k, v) ==> SweptMark(s, c, k, v)
  {
    EraseOneCells(s, c, value, s');
    OwnRemaining(s, c, s', k, v);
    forall t | Mark(t, k, v) in s'.index && SweptPast(s'.threads[c], Mark(t, k, v))
      ensures SweptPast(s.threads[c], Mark(t, k, v))
    {
    }
  }

  lemma {:induction false} EndBucketSweeps(b: State, s: State, c: Tid, s': State, k: Key, v: Val)
    requires Sweeps(b, s, c, k, v) && EndBucket(s, c, s') && CallInv(s, c, s.threads[c]) && MemoryOk(s)
    ensures Sweeps(b, s', c, k, v)
  {
    EndBucketStays(s, c, s', k, v);
    LeavesSweeps(b, s, c, s', k, v);
  }

  lemma {:induction false} EndBucketStays(s: State, c: Tid, s': State, k: Key, v: Val)
    requires EndBucket(s, c, s') && CallInv(s, c, s.threads[c]) && MemoryOk(s)
    ensures Leaves(s, s', k, v) && Moves(s, c, s')
    ensures SweptMark(s', c, k, v) ==> SweptMark(s, c, k, v)
  {
    EndBucketCells(s, c, s');
    assert ValuesAt(s'.table, s'.heap, k) == ValuesAt(s.table, s.heap, k);
    assert Moves(s, c, s');
    OwnRemaining(s, c, s', k, v);
    forall t | Mark(t, k, v) in s'.index && SweptPast(s'.threads[c], Mark(t, k, v))
      ensures SweptPast(s.threads[c], Mark(t, k, v))
    {
    }
  }

  lemma {:induction false} OwnSweeps(b: State, s: State, c: Tid, s': State, k: Key, v: Val)
    requires Inv(s) && Sweeps(b, s, c, k, v) && CleanUpStep(s, c, s')
    ensures SweepsOrDone(b, s', c, k, v)
  {
    assert CallInv(s, c, s.threads[c]);
    if at :| PickBucket(s, c, at, s') {
      if k !in s.table {
        AbsentGone(s, k, v, b.threads[c].call.time);
      }
      PickSweeps(b, s, c, at, s', k, v);
    } else if value :| EraseOne(s, c, value, s') {
      ErasedGone(s, c, value, s');
      EraseSweeps(b, s, c, value, s', k, v);
    } else if EndBucket(s, c, s') {
      EndBucketSweeps(b, s, c, s', k, v);
    } else if SweepLock(s, c, s') || SweepUnlock(s, c, s') {
      BarrierSweeps(b, s, c, s', k, v);
    }
  }

  // ---------------------------------------------------------------------------------- runs

  lemma {:induction false} OtherSweeps(b: State, s: State, c: Tid, u: Tid, s': State, k: Key, v: Val)
    requires Inv(s) && Sweeps(b, s, c, k, v) && u != c
    requires ApplyOne(s, u, s') || UnlockKey(s, u, s') || DropResult(s, u, s')
    ensures Sweeps(b, s', c, k, v)
  {
    if ApplyOne(s, u, s') {
      assert CallInv(s, u, s.threads[u]);
      ApplySweeps(b, s, c, u, s', k, v);
    } else {
      UnlockSweeps(b, s, c, u, s', k, v);
    }
  }

  /** A step of a clean-up is taken by a clean-up. */
  lemma {:induction false} OwnStep(s: State, c: Tid, s': State)
    requires c in s.threads && s.threads[c].call.CleanUp? && Step(s, c, s')
    ensures CleanUpStep(s, c, s')
  {
  }

  lemma {:induction false} StepSweeps(b: State, s: State, c: Tid, u: Tid, s': State, k: Key, v: Val)
    requires Inv(s) && Sweeps(b, s, c, k, v) && Step(s, u, s')
    ensures SweepsOrDone(b, s', c, k, v)
  {
    if u == c {
      OwnStep(s, c, s');
      OwnSweeps(b, s, c, s', k, v);
    } else {
      OthersOnlyWrite(s, c, u, s');
      OtherSweeps(b, s, c, u, s', k, v);
    }
  }

  lemma {:induction false} NextSweeps(b: State, s: State, c: Tid, s': State, k: Key, v: Val)
    requires Inv(s) && SweepsOrDone(b, s, c, k, v) && Next(s, s')
    ensures SweepsOrDone(b, s', c, k, v)
  {
    if c in s.threads && s.threads[c].pc.Finished? {
      FinishedStays(s, c, s');
    } else if t, call :| Arrive(s, t, call, s') {
      ArriveSweeps(b, s, c, t, call, s', k, v);
    } else {
      var u :| Step(s, u, s');
      StepSweeps(b, s, c, u, s', k, v);
    }
  }

  lemma {:induction false} BeginSweeps(s: State, c: Tid, b: State, k: Key, v: Val)
    requires BeginCleanUp(s, c, b)
    ensures Sweeps(b, b, c, k, v)
    ensures b.index == s.index && CellOf(b, k, v) == CellOf(s, k, v)
    ensures Register(b.log, (k, v)) == Register(s.log, (k, v))
    ensures WillAgree(b, k, v) <==> WillAgree(s, k, v)
  {
    RegisterSnoc(s.log, OpOf(s.threads[c].call), (k, v));
    assert Moves(s, c, b);
    OwnRemaining(s, c, b, k, v);
    forall t | Mark(t, k, v) in b.index ensures !SweptPast(b.threads[c], Mark(t, k, v)) {
      assert t <= s.threads[c].call.time ==> (t, k) in Buckets(s.index, s.threads[c].call.time);
    }
  }

  lemma {:induction false} SweepsAlong(run: seq<State>, b: State, c: Tid, i: nat, j: nat, k: Key, v: Val)
    requires forall n :: 0 < n < |run| && SweepsOrDone(b, run[n - 1], c, k, v) ==> SweepsOrDone(b, run[n], c, k, v)
    requires i <= j < |run| && SweepsOrDone(b, run[i], c, k, v)
    ensures SweepsOrDone(b, run[j], c, k, v)
    decreases j - i
  {
    if i < j {
      SweepsAlong(run, b, c, i, j - 1, k, v);
    }
  }

  lemma {:induction false} RunSweeps(run: seq<State>, b: State, c: Tid, n: nat, k: Key, v: Val)
    requires IsRun(run) && 0 < n < |run| && SweepsOrDone(b, run[n - 1], c, k, v)
    ensures SweepsOrDone(b, run[n], c, k, v)
  {
    RunStep(run, n);
    StatesAreReachable(run, n - 1);
    ReachableInv(run[n - 1]);
    NextSweeps(b, run[n - 1], c, run[n], k, v);
  }

  lemma {:induction false} SweepsToTheEnd(run: seq<State>, b: State, c: Tid, i: nat, j: nat, k: Key, v: Val)
    requires IsRun(run) && i <= j < |run| && SweepsOrDone(b, run[i], c, k, v)
    ensures SweepsOrDone(b, run[j], c, k, v)
  {
    forall n | 0 < n < |run| && SweepsOrDone(b, run[n - 1], c, k, v) ensures SweepsOrDone(b, run[n], c, k, v) {
      RunSweeps(run, b, c, n, k, v);
    }
    SweepsAlong(run, b, c, i, j, k, v);
  }

  /** What the state in which a clean-up takes the map lock says about a pair: the reference has
      an old tombstone for it, the index does not know it, and it is in the memory or on its
      way there. */
  ghost predicate WillBeMissed(s: State, k: Key, v: Val, time: Time) {
    && IsOld(Register(s.log, (k, v)), time)
    && !Marked(s.index, k, v, time)
    && WillAgree(s, k, v)
  }

  /** At the end every mark up to the time has been passed. */
  lemma {:induction false} EndState(b: State, s: State, c: Tid, s': State, k: Key, v: Val)
    requires Inv(s) && Sweeps(b, s, c, k, v) && EndCleanUp(s, c, s') && NoneRemains(s', k, v)
    ensures IsOld(CellOf(s', k, v), b.threads[c].call.time) <==> WillBeMissed(b, k, v, b.threads[c].call.time)
  {
    var time := b.threads[c].call.time;
    assert Moves(s, c, s');
    OwnRemaining(s, c, s', k, v);
    assert CellOk(s, k, v);
    if Marked(b.index, k, v, time) {
      var t :| t <= time && Mark(t, k, v) in b.index;
      assert SweptPast(s.threads[c], Mark(t, k, v));
    }
  }

  /** Exactly what a clean-up misses: an old tombstone is left at a pair that nobody is writing
      any more if and only if, when the clean-up took the map lock, the reference had an old
      tombstone for the pair, no mark of it up to the clean-up's time was in the index, and the
      memory agreed with the reference or a call had still to make it so. */
  lemma {:induction false} CleanUpMissesIff(run: seq<State>, c: Tid, i: nat, j: nat, k: Key, v: Val)
    requires IsRun(run) && i < j && j + 1 < |run|
    requires BeginCleanUp(run[i], c, run[i + 1]) && EndCleanUp(run[j], c, run[j + 1])
    requires NoneRemains(run[j + 1], k, v)
    ensures IsOld(CellOf(run[j + 1], k, v), run[i].threads[c].call.time) <==>
            WillBeMissed(run[i], k, v, run[i].threads[c].call.time)
  {
    BeginSweeps(run[i], c, run[i + 1], k, v);
    SweepsToTheEnd(run, run[i + 1], c, i + 1, j, k, v);
    StatesAreReachable(run, j);
    ReachableInv(run[j]);
    EndState(run[i + 1], run[j], c, run[j + 1], k, v);
  }
}
