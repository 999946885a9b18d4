/** Properties of whole runs of the set-map protocol: the log only grows, and when a clean-up
leaves no old tombstone behind. */
module SetMapHistories {

  import opened Basics
  import opened Registers
  import opened KeyValueCaches
  import opened SetMapProtocol
  import opened SetMapInvariants
  import opened SetMapSteps
  import opened SetMapTheorems

  lemma {:induction false} StatesAreReachable(run: seq<State>, i: nat)
    requires IsRun(run) && i < |run|
    ensures Reachable(run[i])
  {
    var prefix := run[..i + 1];
    assert IsRun(prefix) && prefix[|prefix| - 1] == run[i];
  }

  // -------------------------------------------------------------------- the log only grows

  /** Calls stay what they are, and what has taken effect stays in its place. */
  ghost predicate Extends(s: State, s': State) {
    && s.log <= s'.log && s.who <= s'.who
    && forall t :: t in s.threads ==> t in s'.threads && s'.threads[t].call == s.threads[t].call
  }

  lemma {:induction false} EntryExtends(s: State, t: Tid, s': State)
    requires EntryStep(s, t, s')
    ensures Extends(s, s')
  {
  }

  lemma {:induction false} ApplyExtends(s: State, t: Tid, s': State)
    requires ApplyStep(s, t, s')
    ensures Extends(s, s')
  {
  }

  lemma {:induction false} CleanUpExtends(s: State, t: Tid, s': State)
    requires CleanUpStep(s, t, s')
    ensures Extends(s, s')
  {
    if at :| PickBucket(s, t, at, s') {
    } else if v :| EraseOne(s, t, v, s') {
    }
  }

  lemma {:induction false} NextExtends(s: State, s': State)
    requires Next(s, s')
    ensures Extends(s, s')
  {
    if t :| Step(s, t, s') {
      if EntryStep(s, t, s') {
        EntryExtends(s, t, s');
      } else if ApplyStep(s, t, s') {
        ApplyExtends(s, t, s');
      } else if CleanUpStep(s, t, s') {
        CleanUpExtends(s, t, s');
      }
    }
  }

  lemma {:induction false} ExtendsTransitive(a: State, b: State, c: State)
    requires Extends(a, b) && Extends(b, c)
    ensures Extends(a, c)
  {
  }

  lemma {:induction false} RunStep(run: seq<State>, j: nat)
    requires IsRun(run) && 0 < j < |run|
    ensures Next(run[j - 1], run[j])
  {
    assert Next(run[j - 1], run[j - 1 + 1]);
  }

  lemma {:induction false} RunStepExtends(run: seq<State>, j: nat)
    requires IsRun(run) && 0 < j < |run|
    ensures Extends(run[j - 1], run[j])
  {
    RunStep(run, j);
    NextExtends(run[j - 1], run[j]);
  }

  lemma {:induction false} ExtendsAlong(run: seq<State>, i: nat, j: nat)
    requires i <= j < |run| && forall k :: 0 < k < |run| ==> Extends(run[k - 1], run[k])
    ensures Extends(run[i], run[j])
    decreases j - i
  {
    if i < j {
      ExtendsAlong(run, i, j - 1);
      ExtendsTransitive(run[i], run[j - 1], run[j]);
    }
  }

  /** Along a run, the order in which calls took effect is never revised: the log of an earlier
      state is a prefix of the log of a later one. */
  lemma {:induction false} LogOnlyGrows(run: seq<State>, i: nat, j: nat)
    requires IsRun(run) && i <= j < |run|
    ensures Extends(run[i], run[j])
  {
    forall k | 0 < k < |run| ensures Extends(run[k - 1], run[k]) {
      RunStepExtends(run, k);
    }
    ExtendsAlong(run, i, j);
  }

  // ------------------------------------------------------------------ complete clean-ups

  /** A delete at or before `time` that has its key lock, or had it, and has not yet indexed
      what it marked. */
  predicate InFlight(th: Thread, time: Time) {
    && th.call.Mutate? && th.call.isDelete && th.call.time <= time
    && (th.pc.BothHeld? || th.pc.Applying? || th.pc.IndexWait? || th.pc.Indexing?)
  }

  ghost predicate NoneInFlight(s: State, time: Time) {
    forall t :: t in s.threads ==> !InFlight(s.threads[t], time)
  }

  /** Only obtaining the key lock, under the map lock, puts a delete in flight. */
  lemma {:induction false} EntryInFlight(s: State, t: Tid, s': State, time: Time)
    requires EntryStep(s, t, s')
    ensures Moves(s, t, s') && s.threads[t].call.Mutate? && !s.threads[t].pc.Finished?
    ensures InFlight(s'.threads[t], time) ==> MapMode(s.threads[t].pc) == Exclusive
  {
  }

  lemma {:induction false} ApplyInFlight(s: State, t: Tid, s': State, time: Time)
    requires ApplyStep(s, t, s')
    ensures Moves(s, t, s') && s.threads[t].call.Mutate? && !s.threads[t].pc.Finished?
    ensures InFlight(s'.threads[t], time) ==> InFlight(s.threads[t], time)
  {
  }

  lemma {:induction false} CleanUpStaysOn(s: State, t: Tid, s': State)
    requires CleanUpStep(s, t, s')
    ensures Moves(s, t, s') && s.threads[t].call.CleanUp? && !s.threads[t].pc.Finished?
    ensures Cleaning(s'.threads[t]) || s'.threads[t].pc.Finished?
  {
    if at :| PickBucket(s, t, at, s') {
    } else if v :| EraseOne(s, t, v, s') {
    }
  }

  lemma {:induction false} GetMoves(s: State, t: Tid, s': State)
    requires GetStep(s, t, s')
    ensures Moves(s, t, s') && s.threads[t].call.Get?
  {
  }

  /** While a clean-up holds the map lock, no other delete gets in flight. */
  lemma {:induction false} StepKeepsNoneInFlight(s: State, c: Tid, u: Tid, s': State, time: Time)
    requires Inv(s) && c in s.threads && Cleaning(s.threads[c]) && NoneInFlight(s, time) && Step(s, u, s')
    ensures NoneInFlight(s', time)
    ensures c in s'.threads && s'.threads[c].call == s.threads[c].call
    ensures Cleaning(s'.threads[c]) || s'.threads[c].pc.Finished?
  {
    HoldsMapAlone(s, c);
    if EntryStep(s, u, s') {
      EntryInFlight(s, u, s', time);
    } else if ApplyStep(s, u, s') {
      ApplyInFlight(s, u, s', time);
    } else if CleanUpStep(s, u, s') {
      CleanUpStaysOn(s, u, s');
    } else {
      GetMoves(s, u, s');
    }
  }

  lemma {:induction false} NextKeepsNoneInFlight(s: State, c: Tid, s': State, time: Time)
    requires Inv(s) && c in s.threads && Cleaning(s.threads[c]) && NoneInFlight(s, time) && Next(s, s')
    ensures NoneInFlight(s', time)
    ensures c in s'.threads && s'.threads[c].call == s.threads[c].call
    ensures Cleaning(s'.threads[c]) || s'.threads[c].pc.Finished?
  {
    if u :| Step(s, u, s') {
      StepKeepsNoneInFlight(s, c, u, s', time);
    }
  }

  lemma {:induction false} FinishedStays(s: State, c: Tid, s': State)
    requires Next(s, s') && c in s.threads && s.threads[c].pc.Finished?
    ensures c in s'.threads && s'.threads[c].pc.Finished?
  {
    if u :| Step(s, u, s') {
      if EntryStep(s, u, s') {
        EntryInFlight(s, u, s', 0);
      } else if ApplyStep(s, u, s') {
        ApplyInFlight(s, u, s', 0);
      } else if CleanUpStep(s, u, s') {
        CleanUpStaysOn(s, u, s');
      } else {
        GetMoves(s, u, s');
      }
      assert u != c;
    }
  }

  /** The clean-up is at work with no delete in flight, or finished. */
  ghost predicate CleansAlone(s: State, c: Tid, time: Time) {
    c in s.threads && ((Cleaning(s.threads[c]) && NoneInFlight(s, time)) || s.threads[c].pc.Finished?)
  }

  lemma {:induction false} BeginsAlone(s: State, c: Tid, s': State, time: Time)
    requires BeginCleanUp(s, c, s') && NoneInFlight(s, time)
    ensures CleansAlone(s', c, time)
  {
  }

  lemma {:induction false} StaysAlone(s: State, c: Tid, s': State, time: Time)
    requires Inv(s) && Next(s, s') && CleansAlone(s, c, time)
    ensures CleansAlone(s', c, time)
  {
    if s.threads[c].pc.Finished? {
      FinishedStays(s, c, s');
    } else {
      NextKeepsNoneInFlight(s, c, s', time);
    }
  }

  lemma {:induction false} AloneAlong(run: seq<State>, c: Tid, i: nat, j: nat, time: Time)
    requires forall k :: 0 < k < |run| && CleansAlone(run[k - 1], c, time) ==> CleansAlone(run[k], c, time)
    requires i <= j < |run| && CleansAlone(run[i], c, time)
    ensures CleansAlone(run[j], c, time)
    decreases j - i
  {
    if i < j {
      AloneAlong(run, c, i, j - 1, time);
    }
  }

  lemma {:induction false} WhileCleaning(run: seq<State>, c: Tid, i: nat, j: nat, time: Time)
    requires IsRun(run) && i <= j < |run| && CleansAlone(run[i], c, time)
    ensures CleansAlone(run[j], c, time)
  {
    forall k | 0 < k < |run| && CleansAlone(run[k - 1], c, time) ensures CleansAlone(run[k], c, time) {
      RunStep(run, k);
      StatesAreReachable(run, k - 1);
      ReachableInv(run[k - 1]);
      StaysAlone(run[k - 1], c, run[k], time);
    }
    AloneAlong(run, c, i, j, time);
  }

  /** When a clean-up leaves nothing behind: if no delete at or before its time is in flight
      when it takes the map lock, then when it ends no tombstone at or before its time is left,
      whatever the other calls did meanwhile. */
  lemma {:induction false} CleanUpIsComplete(run: seq<State>, c: Tid, i: nat, j: nat, k: Key, v: Val)
    requires IsRun(run) && i < j && j + 1 < |run|
    requires BeginCleanUp(run[i], c, run[i + 1]) && EndCleanUp(run[j], c, run[j + 1])
    requires NoneInFlight(run[i], run[j].threads[c].call.time)
    ensures var cell := CellAt(run[j + 1].table, run[j + 1].heap, k, v);
            IsTombstone(cell) ==> cell.value.time > run[j].threads[c].call.time
  {
    var time, s' := run[j].threads[c].call.time, run[j + 1];
    BeginsAlone(run[i], c, run[i + 1], time);
    WhileCleaning(run, c, i + 1, j, time);
    StatesAreReachable(run, j);
    var cell := CellAt(s'.table, s'.heap, k, v);
    if IsTombstone(cell) && cell.value.time <= time {
      CleanUpLeavesOnlyPending(run[j], c, s', k, v);
      var u :| u in s'.threads && Pending(s'.threads[u], Mark(cell.value.time, k, v));
      assert u != c && s'.threads[u] == run[j].threads[u] && InFlight(run[j].threads[u], time);
      assert false;
    }
  }
}
