/** The key/value-set map under concurrent calls, step by step.

A state holds the shared memory (the table from keys to entries, the heap of value maps the
entries point to, the deletion index and the cutoff) and one program counter per call. The
locks need no state of their own: a program counter says which locks its call holds, and a
lock can be taken when no other program counter holds it in a conflicting mode. The key lock
lives in the entry, so it is named by the key and the entry's address.

`log` is a history variable: the operations in the order in which they took effect. A
mutation takes effect while it holds the map lock, when it is refused, when it inserts a new
key, or when it has obtained the key lock; a clean-up when it obtains the map lock.
 */
module SetMapProtocol {

  import opened Basics
  import opened Registers
  import opened KeyValueCaches

  type Tid = nat
  type Ref = nat
  type SetOp = Op<(Key, Val), Present>

  datatype Call =
    | Mutate(key: Key, values: seq<Val>, time: Time, isDelete: bool)
    | CleanUp(time: Time)
    | Get(keys: set<Key>)

  datatype Mark = Mark(time: Time, key: Key, value: Val)

  /** One key of a read result, together with the entry whose lock the result holds. */
  datatype Found = Found(ref: Ref, values: set<Val>)

  datatype Pc =
    | Start                                            // wants the map lock
    | Checking                                         // map lock
    | KeyWait(ref: Ref)                                // map lock; wants the key lock
    | BothHeld(ref: Ref)                               // map lock and key lock
    | Applying(ref: Ref, next: nat, marked: seq<Val>)  // key lock
    | IndexWait(marked: seq<Val>)                      // wants the map lock again
    | Indexing(marked: seq<Val>)                       // map lock
    | Sweeping(todo: set<(Time, Key)>)                 // map lock
    | SweepWait(todo: set<(Time, Key)>, at: (Time, Key), ref: Ref)     // map lock; wants the key lock
    | SweepBarrier(todo: set<(Time, Key)>, at: (Time, Key), ref: Ref)  // map lock and key lock
    | Erasing(todo: set<(Time, Key)>, at: (Time, Key), ref: Ref, rest: set<Val>)  // map lock
    | Reading(keysLeft: set<Key>, found: map<Key, Found>)   // map lock shared, key locks shared
    | ReadWait(keysLeft: set<Key>, found: map<Key, Found>, key: Key, ref: Ref)    // wants a key lock shared
    | Returned(found: map<Key, Found>)                 // key locks shared, held by the result
    | Finished

  datatype Thread = Thread(call: Call, pc: Pc)

  datatype State = State(
    threads: map<Tid, Thread>,
    table: map<Key, Ref>,
    heap: map<Ref, ValueMap>,
    nextRef: Ref,
    index: set<Mark>,
    cutoff: Time,
    log: seq<SetOp>,
    who: seq<Tid>)

  const Initial := State(map[], map[], map[], 0, {}, 0, [], [])

  function ValuesAt(table: map<Key, Ref>, heap: map<Ref, ValueMap>, k: Key): ValueMap {
    if k in table && table[k] in heap then heap[table[k]] else map[]
  }

  function CellAt(table: map<Key, Ref>, heap: map<Ref, ValueMap>, k: Key, v: Val): Option<Entry<Present>> {
    var values := ValuesAt(table, heap, k);
    if v in values then Some(MetaEntry(values[v])) else None
  }

  function OpOf(call: Call): SetOp
    requires !call.Get?
  {
    if call.CleanUp? then Collect(call.time)
    else Write(Pairs(call.key, call.values), MetaEntry(MetaOf(call)).payload, call.time)
  }

  function MetaOf(call: Call): SetValueMeta
    requires call.Mutate?
  {
    SetValueMeta(call.time, call.isDelete)
  }

  // ---------------------------------------------------------------------------- locks

  datatype Mode = Free | Shared | Exclusive

  function MapMode(pc: Pc): Mode {
    match pc
    case Checking | KeyWait(_) | BothHeld(_) | Indexing(_) => Exclusive
    case Sweeping(_) | SweepWait(_, _, _) | SweepBarrier(_, _, _) | Erasing(_, _, _, _) => Exclusive
    case Reading(_, _) | ReadWait(_, _, _, _) => Shared
    case _ => Free
  }

  /** The call holds the lock of entry `r` of key `k` exclusively. */
  predicate WritesKey(th: Thread, k: Key, r: Ref) {
    || (th.call.Mutate? && th.call.key == k && (th.pc.BothHeld? || th.pc.Applying?) && th.pc.ref == r)
    || (th.pc.SweepBarrier? && th.pc.at.1 == k && th.pc.ref == r)
  }

  predicate HasResult(pc: Pc) {
    pc.Reading? || pc.ReadWait? || pc.Returned?
  }

  predicate ReadsKey(th: Thread, k: Key, r: Ref) {
    HasResult(th.pc) && k in th.pc.found && th.pc.found[k].ref == r
  }

  predicate HoldsKey(th: Thread, k: Key, r: Ref) {
    WritesKey(th, k, r) || ReadsKey(th, k, r)
  }

  /** The clean-up works on the value map after it has released the key lock again. */
  predicate Erases(th: Thread, k: Key, r: Ref) {
    th.pc.Erasing? && th.pc.at.1 == k && th.pc.ref == r
  }

  predicate WaitsForKey(th: Thread, k: Key, r: Ref) {
    || (th.call.Mutate? && th.call.key == k && th.pc.KeyWait? && th.pc.ref == r)
    || (th.pc.SweepWait? && th.pc.at.1 == k && th.pc.ref == r)
    || (th.pc.ReadWait? && th.pc.key == k && th.pc.ref == r)
  }

  predicate PointsTo(th: Thread, k: Key, r: Ref) {
    HoldsKey(th, k, r) || Erases(th, k, r) || WaitsForKey(th, k, r)
  }

  ghost predicate MapFreeFor(s: State, t: Tid) {
    forall u :: u in s.threads && u != t ==> MapMode(s.threads[u].pc) == Free
  }

  ghost predicate MapSharable(s: State, t: Tid) {
    forall u :: u in s.threads && u != t ==> MapMode(s.threads[u].pc) != Exclusive
  }

  ghost predicate KeyFreeFor(s: State, t: Tid, k: Key, r: Ref) {
    forall u :: u in s.threads && u != t ==> !HoldsKey(s.threads[u], k, r)
  }

  ghost predicate KeySharable(s: State, t: Tid, k: Key, r: Ref) {
    forall u :: u in s.threads && u != t ==> !WritesKey(s.threads[u], k, r)
  }

  // ---------------------------------------------------------------------------- steps

  function At(s: State, t: Tid, pc: Pc): State
    requires t in s.threads
  {
    s.(threads := s.threads[t := s.threads[t].(pc := pc)])
  }

  function Logged(s: State, t: Tid): State
    requires t in s.threads && !s.threads[t].call.Get?
  {
    s.(log := s.log + [OpOf(s.threads[t].call)], who := s.who + [t])
  }

  /** A new call arrives. */
  ghost predicate Arrive(s: State, t: Tid, call: Call, s': State) {
    && t !in s.threads
    && s' == s.(threads := s.threads[t := Thread(call, Start)])
  }

  // Mutations

  ghost predicate BeginMutation(s: State, t: Tid, s': State) {
    && t in s.threads && s.threads[t].call.Mutate? && s.threads[t].pc.Start?
    && MapFreeFor(s, t)
    && s' == At(s, t, Checking)
  }

  predicate Refused(cutoff: Time, call: Call)
    requires call.Mutate?
  {
    call.time <= cutoff || call.values == []
  }

  ghost predicate Refuse(s: State, t: Tid, s': State) {
    && t in s.threads && s.threads[t].call.Mutate? && s.threads[t].pc.Checking?
    && Refused(s.cutoff, s.threads[t].call)
    && s' == At(Logged(s, t), t, Finished)
  }

  function MarksOf(call: Call, values: seq<Val>): set<Mark>
    requires call.Mutate?
  {
    if call.isDelete then set v | v in values :: Mark(call.time, call.key, v) else {}
  }

  function NewValues(call: Call): ValueMap
    requires call.Mutate?
  {
    map v | v in call.values :: MetaOf(call)
  }

  /** A key without entry gets a new one, in one critical section of the map lock. */
  ghost predicate InsertKey(s: State, t: Tid, s': State) {
    && t in s.threads && s.threads[t].call.Mutate? && s.threads[t].pc.Checking?
    && var call := s.threads[t].call;
    && !Refused(s.cutoff, call)
    && call.key !in s.table
    && s' == At(Logged(s, t), t, Finished).(
               table := s.table[call.key := s.nextRef],
               heap := s.heap[s.nextRef := NewValues(call)],
               nextRef := s.nextRef + 1,
               index := s.index + MarksOf(call, call.values))
  }

  ghost predicate FindKey(s: State, t: Tid, s': State) {
    && t in s.threads && s.threads[t].call.Mutate? && s.threads[t].pc.Checking?
    && var call := s.threads[t].call;
    && !Refused(s.cutoff, call)
    && call.key in s.table
    && s' == At(s, t, KeyWait(s.table[call.key]))
  }

  ghost predicate LockKey(s: State, t: Tid, s': State) {
    && t in s.threads && s.threads[t].call.Mutate? && s.threads[t].pc.KeyWait?
    && KeyFreeFor(s, t, s.threads[t].call.key, s.threads[t].pc.ref)
    && s' == At(Logged(s, t), t, BothHeld(s.threads[t].pc.ref))
  }

  ghost predicate UnlockMap(s: State, t: Tid, s': State) {
    && t in s.threads && s.threads[t].call.Mutate? && s.threads[t].pc.BothHeld?
    && s' == At(s, t, Applying(s.threads[t].pc.ref, 0, []))
  }

  /** One turn of the loop over the values; a missing value starts as `SetValueMeta(0, false)`. */
  ghost predicate ApplyOne(s: State, t: Tid, s': State) {
    && t in s.threads && s.threads[t].call.Mutate? && s.threads[t].pc.Applying?
    && var call := s.threads[t].call;
    && var pc := s.threads[t].pc;
    && pc.next < |call.values| && pc.ref in s.heap
    && var v := call.values[pc.next];
    && var current := if v in s.heap[pc.ref] then s.heap[pc.ref][v] else SetValueMeta(0, false);
    && var changes := current.lastLogicalCommitTime < call.time;
    && s' == At(s, t, Applying(pc.ref, pc.next + 1,
                               if changes && call.isDelete then pc.marked + [v] else pc.marked)).(
               heap := s.heap[pc.ref := s.heap[pc.ref][v := if changes then MetaOf(call) else current]])
  }

  ghost predicate UnlockKey(s: State, t: Tid, s': State) {
    && t in s.threads && s.threads[t].call.Mutate? && s.threads[t].pc.Applying?
    && s.threads[t].pc.next == |s.threads[t].call.values|
    && s' == At(s, t, if s.threads[t].pc.marked == [] then Finished else IndexWait(s.threads[t].pc.marked))
  }

  ghost predicate RelockMap(s: State, t: Tid, s': State) {
    && t in s.threads && s.threads[t].call.Mutate? && s.threads[t].pc.IndexWait?
    && MapFreeFor(s, t)
    && s' == At(s, t, Indexing(s.threads[t].pc.marked))
  }

  ghost predicate AddMarks(s: State, t: Tid, s': State) {
    && t in s.threads && s.threads[t].call.Mutate? && s.threads[t].pc.Indexing?
    && s' == At(s, t, Finished).(index := s.index + MarksOf(s.threads[t].call, s.threads[t].pc.marked))
  }

  // Clean-up

  function Buckets(index: set<Mark>, time: Time): set<(Time, Key)> {
    set m | m in index && m.time <= time :: (m.time, m.key)
  }

  function BucketValues(index: set<Mark>, at: (Time, Key)): set<Val> {
    set m | m in index && m.time == at.0 && m.key == at.1 :: m.value
  }

  function Newer(index: set<Mark>, time: Time): set<Mark> {
    set m | m in index && m.time > time
  }

  ghost predicate BeginCleanUp(s: State, t: Tid, s': State) {
    && t in s.threads && s.threads[t].call.CleanUp? && s.threads[t].pc.Start?
    && MapFreeFor(s, t)
    && s' == At(Logged(s, t), t,
                Sweeping(Buckets(s.index, s.threads[t].call.time)))
  }

  ghost predicate PickBucket(s: State, t: Tid, at: (Time, Key), s': State) {
    && t in s.threads && s.threads[t].call.CleanUp? && s.threads[t].pc.Sweeping?
    && var todo := s.threads[t].pc.todo;
    && at in todo
    && s' == At(s, t, if at.1 in s.table then SweepWait(todo - {at}, at, s.table[at.1]) else Sweeping(todo - {at}))
  }

  ghost predicate SweepLock(s: State, t: Tid, s': State) {
    && t in s.threads && s.threads[t].call.CleanUp? && s.threads[t].pc.SweepWait?
    && var pc := s.threads[t].pc;
    && KeyFreeFor(s, t, pc.at.1, pc.ref)
    && s' == At(s, t, SweepBarrier(pc.todo, pc.at, pc.ref))
  }

  /** The key lock is a temporary and is released before the values are erased. */
  ghost predicate SweepUnlock(s: State, t: Tid, s': State) {
    && t in s.threads && s.threads[t].call.CleanUp? && s.threads[t].pc.SweepBarrier?
    && var pc := s.threads[t].pc;
    && s' == At(s, t, Erasing(pc.todo, pc.at, pc.ref,
                              BucketValues(s.index, pc.at)))
  }

  ghost predicate EraseOne(s: State, t: Tid, v: Val, s': State) {
    && t in s.threads && s.threads[t].call.CleanUp? && s.threads[t].pc.Erasing?
    && var pc := s.threads[t].pc;
    && v in pc.rest && pc.ref in s.heap
    && var values := s.heap[pc.ref];
    && s' == At(s, t, pc.(rest := pc.rest - {v})).(
               heap := s.heap[pc.ref :=
                         if v in values && values[v].isDeleted
                            && values[v].lastLogicalCommitTime <= s.threads[t].call.time
                         then values - {v} else values])
  }

  ghost predicate EndBucket(s: State, t: Tid, s': State) {
    && t in s.threads && s.threads[t].call.CleanUp? && s.threads[t].pc.Erasing?
    && var pc := s.threads[t].pc;
    && pc.rest == {} && pc.ref in s.heap
    && s' == if s.heap[pc.ref] == map[]
             then At(s, t, Sweeping(pc.todo)).(table := s.table - {pc.at.1}, heap := s.heap - {pc.ref})
             else At(s, t, Sweeping(pc.todo))
  }

  ghost predicate EndCleanUp(s: State, t: Tid, s': State) {
    && t in s.threads && s.threads[t].call.CleanUp? && s.threads[t].pc == Sweeping({})
    && var time := s.threads[t].call.time;
    && s' == At(s, t, Finished).(index := Newer(s.index, time), cutoff := Max(s.cutoff, time))
  }

  // Reads

  ghost predicate BeginGet(s: State, t: Tid, s': State) {
    && t in s.threads && s.threads[t].call.Get? && s.threads[t].pc.Start?
    && MapSharable(s, t)
    && s' == At(s, t, Reading(s.threads[t].call.keys, map[]))
  }

  ghost predicate PickKey(s: State, t: Tid, k: Key, s': State) {
    && t in s.threads && s.threads[t].call.Get? && s.threads[t].pc.Reading?
    && var pc := s.threads[t].pc;
    && k in pc.keysLeft
    && s' == At(s, t, if k in s.table then ReadWait(pc.keysLeft - {k}, pc.found, k, s.table[k])
                      else Reading(pc.keysLeft - {k}, pc.found))
  }

  ghost predicate ReadKey(s: State, t: Tid, s': State) {
    && t in s.threads && s.threads[t].call.Get? && s.threads[t].pc.ReadWait?
    && var pc := s.threads[t].pc;
    && pc.ref in s.heap
    && KeySharable(s, t, pc.key, pc.ref)
    && s' == At(s, t, Reading(pc.keysLeft, pc.found[pc.key := Found(pc.ref, LiveValues(s.heap[pc.ref]))]))
  }

  ghost predicate EndGet(s: State, t: Tid, s': State) {
    && t in s.threads && s.threads[t].call.Get? && s.threads[t].pc.Reading? && s.threads[t].pc.keysLeft == {}
    && s' == At(s, t, Returned(s.threads[t].pc.found))
  }

  /** The caller destroys the result, and with it the key locks it holds. */
  ghost predicate DropResult(s: State, t: Tid, s': State) {
    && t in s.threads && s.threads[t].call.Get? && s.threads[t].pc.Returned?
    && s' == At(s, t, Finished)
  }

  /** A mutation up to the moment at which it takes effect. */
  ghost predicate EntryStep(s: State, t: Tid, s': State) {
    || BeginMutation(s, t, s') || Refuse(s, t, s') || InsertKey(s, t, s') || FindKey(s, t, s') || LockKey(s, t, s')
  }

  /** What it does afterwards. */
  ghost predicate ApplyStep(s: State, t: Tid, s': State) {
    || UnlockMap(s, t, s') || ApplyOne(s, t, s') || UnlockKey(s, t, s') || RelockMap(s, t, s') || AddMarks(s, t, s')
  }

  ghost predicate MutationStep(s: State, t: Tid, s': State) {
    EntryStep(s, t, s') || ApplyStep(s, t, s')
  }

  ghost predicate CleanUpStep(s: State, t: Tid, s': State) {
    || BeginCleanUp(s, t, s') || (exists at :: PickBucket(s, t, at, s')) || SweepLock(s, t, s')
    || SweepUnlock(s, t, s') || (exists v :: EraseOne(s, t, v, s')) || EndBucket(s, t, s') || EndCleanUp(s, t, s')
  }

  ghost predicate GetStep(s: State, t: Tid, s': State) {
    || BeginGet(s, t, s') || (exists k :: PickKey(s, t, k, s')) || ReadKey(s, t, s') || EndGet(s, t, s')
    || DropResult(s, t, s')
  }

  /** A step of call `t` that has arrived. */
  ghost predicate Step(s: State, t: Tid, s': State) {
    MutationStep(s, t, s') || CleanUpStep(s, t, s') || GetStep(s, t, s')
  }

  ghost predicate Next(s: State, s': State) {
    (exists t, call :: Arrive(s, t, call, s')) || (exists t :: Step(s, t, s'))
  }

  /** A run starts empty; calls arrive and take steps in any interleaving. */
  ghost predicate IsRun(run: seq<State>) {
    && |run| > 0 && run[0] == Initial
    && forall i :: 0 <= i < |run| - 1 ==> Next(run[i], run[i + 1])
  }

  ghost predicate Reachable(s: State) {
    exists run :: IsRun(run) && run[|run| - 1] == s
  }
}
