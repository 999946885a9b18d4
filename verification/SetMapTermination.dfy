/** Every call on the set map returns: each step uses up work, and some call can always step. */
module SetMapTermination {

  import opened Basics
  import opened Registers
  import opened KeyValueCaches
  import opened SetMapProtocol
  import opened SetMapInvariants
  import opened SetMapTheorems
  import opened SetMapProgress

  // ------------------------------------------------------------- work left in one call

  /** Critical sections still to come. */
  function Phases(th: Thread): nat {
    match th.pc
    case Start => 7
    case Checking => 6
    case KeyWait(_) => 5
    case BothHeld(_) => 4
    case Applying(_, _, _) => 3
    case IndexWait(_) => 2
    case Indexing(_) => 1
    case Sweeping(_) | SweepWait(_, _, _) | SweepBarrier(_, _, _) | Erasing(_, _, _, _) => 1
    case Reading(_, _) | ReadWait(_, _, _, _) => 2
    case Returned(_) => 1
    case Finished => 0
  }

  /** Turns of the loop over values, buckets or keys still to come. */
  function Turns(th: Thread): nat {
    match th.pc
    case Applying(_, next, _) => if th.call.Mutate? && next <= |th.call.values| then |th.call.values| - next else 0
    case Sweeping(todo) => |todo|
    case SweepWait(todo, _, _) => |todo|
    case SweepBarrier(todo, _, _) => |todo|
    case Erasing(todo, _, _, _) => |todo|
    case Reading(left, _) => |left|
    case ReadWait(left, _, _, _) => |left|
    case _ => 0
  }

  /** Stages of the current turn still to come. */
  function Stages(th: Thread): nat {
    match th.pc
    case SweepWait(_, _, _) => 3
    case SweepBarrier(_, _, _) => 2
    case Erasing(_, _, _, _) => 1
    case ReadWait(_, _, _, _) => 1
    case _ => 0
  }

  /** Values of the current bucket still to look at. */
  function Values(th: Thread): nat {
    if th.pc.Erasing? then |th.pc.rest| else 0
  }

  // --------------------------------------------------------------- work left in a state

  function Sum(f: Thread -> nat, threads: map<Tid, Thread>, n: nat): nat {
    if n == 0 then 0
    else Sum(f, threads, n - 1) + if n - 1 in threads then f(threads[n - 1]) else 0
  }

  lemma {:induction false} SumUpdate(f: Thread -> nat, threads: map<Tid, Thread>, t: Tid, th: Thread, n: nat)
    requires t in threads
    ensures Sum(f, threads[t := th], n) == Sum(f, threads, n) + if t < n then f(th) - f(threads[t]) else 0
  {
    if n > 0 {
      SumUpdate(f, threads, t, th, n - 1);
    }
  }

  /** Compared from left to right. */
  datatype Work = Work(phases: nat, turns: nat, stages: nat, values: nat)

  predicate Less(a: Work, b: Work) {
    || a.phases < b.phases
    || (a.phases == b.phases && (|| a.turns < b.turns
                                 || (a.turns == b.turns && (|| a.stages < b.stages
                                                            || (a.stages == b.stages && a.values < b.values)))))
  }

  function WorkOf(th: Thread): Work {
    Work(Phases(th), Turns(th), Stages(th), Values(th))
  }

  /** The work of the calls with numbers below `n`. */
  function WorkLeft(s: State, n: nat): Work {
    Work(Sum(Phases, s.threads, n), Sum(Turns, s.threads, n), Sum(Stages, s.threads, n), Sum(Values, s.threads, n))
  }

  lemma {:induction false} EntryUsesUpWork(s: State, t: Tid, s': State)
    requires EntryStep(s, t, s')
    ensures Moves(s, t, s') && Less(WorkOf(s'.threads[t]), WorkOf(s.threads[t]))
  {
  }

  lemma {:induction false} ApplyUsesUpWork(s: State, t: Tid, s': State)
    requires ApplyStep(s, t, s')
    ensures Moves(s, t, s') && Less(WorkOf(s'.threads[t]), WorkOf(s.threads[t]))
  {
  }

  lemma {:induction false} MutationUsesUpWork(s: State, t: Tid, s': State)
    requires MutationStep(s, t, s')
    ensures Moves(s, t, s') && Less(WorkOf(s'.threads[t]), WorkOf(s.threads[t]))
  {
    if EntryStep(s, t, s') {
      EntryUsesUpWork(s, t, s');
    } else {
      ApplyUsesUpWork(s, t, s');
    }
  }

  lemma {:induction false} PickBucketUsesUpWork(s: State, t: Tid, at: (Time, Key), s': State)
    requires PickBucket(s, t, at, s')
    ensures Moves(s, t, s') && Less(WorkOf(s'.threads[t]), WorkOf(s.threads[t]))
  {
    var todo := s.threads[t].pc.todo;
    assert |todo - {at}| == |todo| - 1;
  }

  lemma {:induction false} EraseOneUsesUpWork(s: State, t: Tid, v: Val, s': State)
    requires EraseOne(s, t, v, s')
    ensures Moves(s, t, s') && Less(WorkOf(s'.threads[t]), WorkOf(s.threads[t]))
  {
    var rest := s.threads[t].pc.rest;
    assert |rest - {v}| == |rest| - 1;
  }

  lemma {:induction false} PickKeyUsesUpWork(s: State, t: Tid, k: Key, s': State)
    requires PickKey(s, t, k, s')
    ensures Moves(s, t, s') && Less(WorkOf(s'.threads[t]), WorkOf(s.threads[t]))
  {
    var left := s.threads[t].pc.keysLeft;
    assert |left - {k}| == |left| - 1;
  }

  lemma {:induction false} CleanUpUsesUpWork(s: State, t: Tid, s': State)
    requires CleanUpStep(s, t, s')
    ensures Moves(s, t, s') && Less(WorkOf(s'.threads[t]), WorkOf(s.threads[t]))
  {
    if at :| PickBucket(s, t, at, s') {
      PickBucketUsesUpWork(s, t, at, s');
    } else if v :| EraseOne(s, t, v, s') {
      EraseOneUsesUpWork(s, t, v, s');
    }
  }

  lemma {:induction false} GetUsesUpWork(s: State, t: Tid, s': State)
    requires GetStep(s, t, s')
    ensures Moves(s, t, s') && Less(WorkOf(s'.threads[t]), WorkOf(s.threads[t]))
  {
    if k :| PickKey(s, t, k, s') {
      PickKeyUsesUpWork(s, t, k, s');
    }
  }

  /** Every step of every call, in any state, leaves less work than before. */
  lemma {:induction false} StepUsesUpWork(s: State, t: Tid, s': State, n: nat)
    requires Step(s, t, s') && t < n
    ensures s'.threads.Keys == s.threads.Keys
    ensures Less(WorkLeft(s', n), WorkLeft(s, n))
  {
    if MutationStep(s, t, s') {
      MutationUsesUpWork(s, t, s');
    } else if CleanUpStep(s, t, s') {
      CleanUpUsesUpWork(s, t, s');
    } else {
      GetUsesUpWork(s, t, s');
    }
    SumUpdate(Phases, s.threads, t, s'.threads[t], n);
    SumUpdate(Turns, s.threads, t, s'.threads[t], n);
    SumUpdate(Stages, s.threads, t, s'.threads[t], n);
    SumUpdate(Values, s.threads, t, s'.threads[t], n);
  }

  /** From every reachable state, the calls that have arrived can all be brought to their end;
      as every step uses up work, no schedule of them can go on forever. */
  lemma {:induction false} CallsCanFinish(s: State, n: nat) returns (s': State)
    requires Reachable(s) && forall t :: t in s.threads ==> t < n
    ensures Reachable(s') && Quiet(s') && s'.threads.Keys == s.threads.Keys
    decreases WorkLeft(s, n).phases, WorkLeft(s, n).turns, WorkLeft(s, n).stages, WorkLeft(s, n).values
  {
    if t :| t in s.threads && !s.threads[t].pc.Finished? {
      NoDeadlock(s, t);
      var u :| CanStep(s, u);
      var next :| Step(s, u, next);
      assert u in s.threads;
      StepUsesUpWork(s, u, next, n);
      ReachStep(s, u, next);
      s' := CallsCanFinish(next, n);
    } else {
      s' := s;
    }
  }
}
