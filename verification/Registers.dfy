/** Last-writer-wins registers with tombstones, a rising cutoff and garbage collection.

Both stores of the cache are instances of this theory: the key/value map has one register
per key, the key/value-set map has one register per (key, value) pair. `Register` and
`Cutoff` are the reference semantics of a history of operations, in which a tombstone is
never forgotten. `Collected` is the collecting store, cell by cell, which forgets tombstones
at or below the cutoff.
 */
module Registers {

  import opened Basics

  type Time = int

  /** The state of one register; an entry without payload is a tombstone. */
  datatype Entry<+P> = Entry(payload: Option<P>, time: Time)

  /** `Write` sets every register in `ids` at one commit time, to a tombstone when there is
      no payload. `Collect` is the clean-up of everything deleted at or before `time`. */
  datatype Op<I(==), +P> =
    | Write(ids: set<I>, payload: Option<P>, time: Time)
    | Collect(time: Time)

  /** A later commit time wins; on a tie the first write to arrive stays. */
  function Merge<I, P>(cell: Option<Entry<P>>, w: Op<I, P>): Option<Entry<P>>
    requires w.Write?
  {
    if cell.Some? && cell.value.time >= w.time then cell else Some(Entry(w.payload, w.time))
  }

  function Visible<P>(cell: Option<Entry<P>>): Option<P> {
    if cell.Some? then cell.value.payload else None
  }

  // ---------------------------------------------------------------- reference semantics

  /** The largest clean-up time of the history, and at least 0. */
  function Cutoff<I, P>(log: seq<Op<I, P>>): Time {
    if log == [] then 0
    else
      var before := Cutoff(log[..|log| - 1]);
      var op := log[|log| - 1];
      if op.Collect? then Max(before, op.time) else before
  }

  /** What a register that never forgets holds after a history. */
  function Register<I, P>(log: seq<Op<I, P>>, id: I): Option<Entry<P>> {
    if log == [] then None
    else
      var before := log[..|log| - 1];
      var op := log[|log| - 1];
      if op.Write? && id in op.ids && op.time > Cutoff(before)
      then Merge(Register(before, id), op)
      else Register(before, id)
  }

  lemma {:induction false} CutoffSnoc<I, P>(log: seq<Op<I, P>>, op: Op<I, P>)
    ensures Cutoff(log + [op]) == if op.Collect? then Max(Cutoff(log), op.time) else Cutoff(log)
  {
    assert (log + [op])[..|log|] == log;
  }

  lemma {:induction false} RegisterSnoc<I, P>(log: seq<Op<I, P>>, op: Op<I, P>, id: I)
    ensures Register(log + [op], id) ==
            if op.Write? && id in op.ids && op.time > Cutoff(log)
            then Merge(Register(log, id), op)
            else Register(log, id)
  {
    assert (log + [op])[..|log|] == log;
  }

  // ------------------------------------------------------------------ collecting cells

  predicate IsTombstone<P>(cell: Option<Entry<P>>) {
    cell.Some? && cell.value.payload.None?
  }

  /** What is left of a register once tombstones at or below `time` are forgotten. */
  function Forget<P>(cell: Option<Entry<P>>, time: Time): Option<Entry<P>> {
    if IsTombstone(cell) && cell.value.time <= time then None else cell
  }

  /** What one operation does to one cell of a store with the given cutoff. */
  function CellStep<I, P>(cell: Option<Entry<P>>, cutoff: Time, op: Op<I, P>, id: I): Option<Entry<P>> {
    match op
    case Write(ids, _, time) => if id in ids && time > cutoff then Merge(cell, op) else cell
    case Collect(time) => Forget(cell, time)
  }

  /** What a cell of the collecting store holds after a history. */
  function Collected<I, P>(log: seq<Op<I, P>>, id: I): Option<Entry<P>> {
    if log == [] then None
    else CellStep(Collected(log[..|log| - 1], id), Cutoff(log[..|log| - 1]), log[|log| - 1], id)
  }

  lemma {:induction false} CollectedSnoc<I, P>(log: seq<Op<I, P>>, op: Op<I, P>, id: I)
    ensures Collected(log + [op], id) == CellStep(Collected(log, id), Cutoff(log), op, id)
  {
    assert (log + [op])[..|log|] == log;
  }

  /** Garbage collection is exactly the forgetting of old tombstones: over every history the
      collecting store and the reference disagree on tombstones at or below the cutoff and
      on nothing else, so no read can tell them apart and no live entry is lost. */
  lemma {:induction false} CollectionIsInvisible<I, P>(log: seq<Op<I, P>>, id: I)
    ensures Cutoff(log) >= 0
    ensures Collected(log, id) == Forget(Register(log, id), Cutoff(log))
    ensures Visible(Collected(log, id)) == Visible(Register(log, id))
  {
    if log != [] {
      CollectionIsInvisible(log[..|log| - 1], id);
    }
  }

  /** Garbage collection is complete: no tombstone at or below a clean-up time survives it. */
  lemma {:induction false} CollectionIsComplete<I, P>(log: seq<Op<I, P>>, time: Time, id: I)
    ensures IsTombstone(Collected(log + [Collect(time)], id)) ==>
              Collected(log + [Collect(time)], id).value.time > Max(time, Cutoff(log))
  {
    CollectionIsInvisible(log + [Collect(time)], id);
    CutoffSnoc(log, Collect(time));
  }

  // ----------------------------------------------------------------- the last writer wins

  predicate Hits<I, P>(op: Op<I, P>, id: I) {
    op.Write? && id in op.ids
  }

  /** Some write of the history offers entry `e` to register `id`. */
  ghost predicate Offered<I, P>(log: seq<Op<I, P>>, id: I, e: Entry<P>) {
    exists i :: 0 <= i < |log| && Hits(log[i], id) && e == Entry(log[i].payload, log[i].time)
  }

  /** Some write offers the entry above the cutoff of its moment. */
  ghost predicate Admitted<I, P>(log: seq<Op<I, P>>, id: I, e: Entry<P>) {
    exists i :: && 0 <= i < |log| && Hits(log[i], id) && e == Entry(log[i].payload, log[i].time)
                && e.time > Cutoff(log[..i])
  }

  /** The first entry that the history offers to `id` at a commit time. */
  function FirstOffer<I, P>(log: seq<Op<I, P>>, id: I, time: Time): Option<Entry<P>> {
    if log == [] then None
    else
      var before := FirstOffer(log[..|log| - 1], id, time);
      var op := log[|log| - 1];
      if before.Some? then before
      else if Hits(op, id) && op.time == time then Some(Entry(op.payload, time)) else None
  }

  lemma {:induction false} OfferedConcat<I, P>(a: seq<Op<I, P>>, b: seq<Op<I, P>>, id: I, e: Entry<P>)
    ensures Offered(a + b, id, e) <==> Offered(a, id, e) || Offered(b, id, e)
  {
    var c := a + b;
    if Offered(a, id, e) {
      var i :| 0 <= i < |a| && Hits(a[i], id) && e == Entry(a[i].payload, a[i].time);
      assert c[i] == a[i];
    }
    if Offered(b, id, e) {
      var i :| 0 <= i < |b| && Hits(b[i], id) && e == Entry(b[i].payload, b[i].time);
      assert c[|a| + i] == b[i];
    }
  }

  lemma {:induction false} AdmittedSnoc<I, P>(log: seq<Op<I, P>>, op: Op<I, P>, id: I, e: Entry<P>)
    ensures Admitted(log + [op], id, e) <==>
            Admitted(log, id, e) || (Hits(op, id) && e == Entry(op.payload, op.time) && e.time > Cutoff(log))
  {
    var longer := log + [op];
    assert forall i :: 0 <= i <= |log| ==> longer[..i] == log[..i];
    assert log[..|log|] == log && longer[|log|] == op;
    if Admitted(log, id, e) {
      var i :| && 0 <= i < |log| && Hits(log[i], id) && e == Entry(log[i].payload, log[i].time)
               && e.time > Cutoff(log[..i]);
      assert longer[i] == log[i];
    }
    if Admitted(longer, id, e) {
      var i :| && 0 <= i < |longer| && Hits(longer[i], id) && e == Entry(longer[i].payload, longer[i].time)
               && e.time > Cutoff(longer[..i]);
      assert i < |log| ==> longer[i] == log[i];
    }
  }

  lemma {:induction false} FirstOfferConcat<I, P>(a: seq<Op<I, P>>, b: seq<Op<I, P>>, id: I, time: Time)
    ensures FirstOffer(a + b, id, time) == if FirstOffer(a, id, time).Some? then FirstOffer(a, id, time)
                                           else FirstOffer(b, id, time)
  {
    if b == [] {
      assert a + b == a;
    } else {
      FirstOfferConcat(a, b[..|b| - 1], id, time);
      assert (a + b)[..|a + b| - 1] == a + b[..|b| - 1];
    }
  }

  /** The first offer at a time is an offer, and there is one for every time offered. */
  lemma {:induction false} FirstOfferIsOffered<I, P(!new)>(log: seq<Op<I, P>>, id: I, time: Time)
    ensures var first := FirstOffer(log, id, time);
            first.Some? ==> first.value.time == time && Offered(log, id, first.value)
    ensures forall e :: Offered(log, id, e) && e.time == time ==> FirstOffer(log, id, time).Some?
  {
    if log != [] {
      var n := |log| - 1;
      FirstOfferIsOffered(log[..n], id, time);
      assert log == log[..n] + [log[n]];
      forall e ensures Offered(log, id, e) <==> Offered(log[..n], id, e) || Offered([log[n]], id, e) {
        OfferedConcat(log[..n], [log[n]], id, e);
      }
      assert [log[n]][0] == log[n];
    }
  }

  /** Cutoffs rise, so the first offer at a time above the final cutoff was admitted. */
  lemma {:induction false} FirstOfferIsAdmitted<I, P>(log: seq<Op<I, P>>, id: I, time: Time)
    requires time > Cutoff(log) && FirstOffer(log, id, time).Some?
    ensures Admitted(log, id, FirstOffer(log, id, time).value)
  {
    var n := |log| - 1;
    var before := log[..n];
    assert log == before + [log[n]];
    AdmittedSnoc(before, log[n], id, FirstOffer(log, id, time).value);
    if FirstOffer(before, id, time).Some? {
      FirstOfferIsAdmitted(before, id, time);
    }
  }

  /** Write number `i` reaches the register in time: its commit time is positive and above that of
      every clean-up before it. */
  predicate InTime<I, P>(log: seq<Op<I, P>>, i: int, id: I) {
    && 0 <= i < |log| && log[i].Write? && id in log[i].ids && log[i].time > 0
    && forall j :: 0 <= j < i && log[j].Collect? ==> log[j].time < log[i].time
  }

  /** No write in time is newer than write number `i`, and none of the same time came before it. */
  ghost predicate Decides<I, P>(log: seq<Op<I, P>>, i: int, id: I) {
    && InTime(log, i, id)
    && forall j :: InTime(log, j, id) ==> log[j].time < log[i].time || (log[j].time == log[i].time && i <= j)
  }

  lemma {:induction false} CutoffBelow<I, P>(log: seq<Op<I, P>>, time: Time)
    ensures time > Cutoff(log) <==> time > 0 && forall j :: 0 <= j < |log| && log[j].Collect? ==> log[j].time < time
  {
    if log != [] {
      var n := |log| - 1;
      CutoffBelow(log[..n], time);
      assert forall j :: 0 <= j < n ==> log[j] == log[..n][j];
    }
  }

  /** A register holds the entry of the write that decides it, and nothing if none was in time. */
  lemma {:induction false} DecidingWrite<I, P>(log: seq<Op<I, P>>, id: I) returns (i: int)
    ensures Register(log, id).None? ==> forall j :: !InTime(log, j, id)
    ensures Register(log, id).Some? ==>
              Decides(log, i, id) && Register(log, id).value == Entry(log[i].payload, log[i].time)
  {
    i := 0;
    if log != [] {
      var n := |log| - 1;
      var before, op := log[..n], log[n];
      i := DecidingWrite(before, id);
      CutoffBelow(before, op.time);
      forall j | 0 <= j < n ensures InTime(log, j, id) <==> InTime(before, j, id) {
        assert forall m :: 0 <= m <= j ==> log[m] == before[m];
      }
      assert InTime(log, n, id) <==> op.Write? && id in op.ids && op.time > Cutoff(before) by {
        assert forall m :: 0 <= m < n ==> log[m] == before[m];
      }
      assert forall j :: InTime(log, j, id) ==> j == n || InTime(before, j, id);
      if InTime(log, n, id) && (Register(before, id).None? || Register(before, id).value.time < op.time) {
        i := n;
      }
    }
  }

  /** The last writer wins: over every history a register holds the first entry offered at the
      largest commit time admitted, and holds nothing exactly if nothing was admitted. */
  lemma {:induction false} LastWriterWins<I, P(!new)>(log: seq<Op<I, P>>, id: I)
    ensures var r := Register(log, id);
            r.Some? ==> Admitted(log, id, r.value) && FirstOffer(log, id, r.value.time) == r
    ensures forall e :: Admitted(log, id, e) ==>
                          Register(log, id).Some? && e.time <= Register(log, id).value.time
  {
    if log != [] {
      var n := |log| - 1;
      var before, op := log[..n], log[n];
      LastWriterWins(before, id);
      assert log == before + [op];
      forall e ensures Admitted(log, id, e) <==>
                         Admitted(before, id, e)
                         || (Hits(op, id) && e == Entry(op.payload, op.time) && e.time > Cutoff(before))
      {
        AdmittedSnoc(before, op, id, e);
      }
      if Hits(op, id) && op.time > Cutoff(before) && FirstOffer(before, id, op.time).Some? {
        FirstOfferIsAdmitted(before, id, op.time);
        FirstOfferIsOffered(before, id, op.time);
      }
    }
  }

  // ------------------------------------------------------------------- comparing histories

  /** Every write of the history to `id` arrives above the cutoff of its moment. */
  predicate NoneDropped<I, P>(log: seq<Op<I, P>>, id: I) {
    forall i :: 0 <= i < |log| && Hits(log[i], id) ==> log[i].time > Cutoff(log[..i])
  }

  /** No two different writes of the two histories to `id` carry the same commit time. */
  ghost predicate ConflictFree<I, P(!new)>(a: seq<Op<I, P>>, b: seq<Op<I, P>>, id: I) {
    forall e, f :: Offered(a, id, e) && Offered(b, id, f) && e.time == f.time ==> e == f
  }

  /** The two histories write the same things to `id`, in any order and any number of times. */
  ghost predicate SameWrites<I, P(!new)>(a: seq<Op<I, P>>, b: seq<Op<I, P>>, id: I) {
    forall e :: Offered(a, id, e) <==> Offered(b, id, e)
  }

  /** At every commit time the two histories offer the same entry first. */
  ghost predicate SameFirsts<I, P>(a: seq<Op<I, P>>, b: seq<Op<I, P>>, id: I) {
    forall time :: FirstOffer(a, id, time) == FirstOffer(b, id, time)
  }

  /** Both histories offer the same entry first at the time of the entry that `b` ends with. */
  ghost predicate SameWinner<I, P(!new)>(a: seq<Op<I, P>>, b: seq<Op<I, P>>, id: I) {
    var q := Register(b, id);
    q.Some? ==> FirstOffer(a, id, q.value.time) == FirstOffer(b, id, q.value.time)
  }

  /** Everything that `a` admits is admitted by `b`. */
  ghost predicate AdmitsLess<I, P(!new)>(a: seq<Op<I, P>>, b: seq<Op<I, P>>, id: I) {
    forall e :: Admitted(a, id, e) ==> Admitted(b, id, e)
  }

  /** The history admits an entry at this time or later. */
  ghost predicate Reaches<I, P(!new)>(log: seq<Op<I, P>>, id: I, time: Time) {
    exists e :: Admitted(log, id, e) && time <= e.time
  }

  /** No entry that `b` admits is newer than everything `a` admits. */
  ghost predicate CatchesUp<I, P(!new)>(a: seq<Op<I, P>>, b: seq<Op<I, P>>, id: I) {
    forall e {:trigger Reaches(a, id, e.time)} :: Admitted(b, id, e) ==> Reaches(a, id, e.time)
  }

  lemma {:induction false} EqualCatchesUp<I, P(!new)>(a: seq<Op<I, P>>, b: seq<Op<I, P>>, id: I)
    requires Register(a, id) == Register(b, id)
    ensures CatchesUp(a, b, id) && SameWinner(a, b, id)
  {
    LastWriterWins(a, id);
    LastWriterWins(b, id);
    forall e | Admitted(b, id, e) ensures Reaches(a, id, e.time) {
      assert Admitted(a, id, Register(a, id).value);
    }
  }

  lemma {:induction false} CatchesUpEqual<I, P(!new)>(a: seq<Op<I, P>>, b: seq<Op<I, P>>, id: I)
    requires AdmitsLess(a, b, id) && SameWinner(a, b, id) && CatchesUp(a, b, id)
    ensures Register(a, id) == Register(b, id)
  {
    LastWriterWins(a, id);
    LastWriterWins(b, id);
    var r, q := Register(a, id), Register(b, id);
    if q.Some? {
      assert Reaches(a, id, q.value.time);
      assert r.Some? && r.value.time == q.value.time;
    }
  }

  /** If `b` admits whatever `a` does, the two registers are equal if and only if `b` admitted
      nothing newer and ties at the winning time have the same winner. */
  lemma {:induction false} AdmittedDecides<I, P(!new)>(a: seq<Op<I, P>>, b: seq<Op<I, P>>, id: I)
    requires AdmitsLess(a, b, id)
    ensures Register(a, id) == Register(b, id) <==> CatchesUp(a, b, id) && SameWinner(a, b, id)
  {
    if Register(a, id) == Register(b, id) {
      EqualCatchesUp(a, b, id);
    }
    if CatchesUp(a, b, id) && SameWinner(a, b, id) {
      CatchesUpEqual(a, b, id);
    }
  }

  lemma {:induction false} NoneDroppedAdmitsAll<I, P>(log: seq<Op<I, P>>, id: I, e: Entry<P>)
    requires NoneDropped(log, id)
    ensures Admitted(log, id, e) <==> Offered(log, id, e)
  {
  }

  lemma {:induction false} ConflictFreeFirsts<I, P(!new)>(a: seq<Op<I, P>>, b: seq<Op<I, P>>, id: I)
    requires ConflictFree(a, b, id) && SameWrites(a, b, id)
    ensures SameFirsts(a, b, id)
  {
    forall time ensures FirstOffer(a, id, time) == FirstOffer(b, id, time) {
      FirstOfferIsOffered(a, id, time);
      FirstOfferIsOffered(b, id, time);
    }
  }

  /** Delivery order does not matter: two histories that write the same things to a register,
      without conflicting ties and without a dropped write, leave it equal, wherever their
      clean-ups fall. */
  lemma {:induction false} OrderIsIrrelevant<I, P(!new)>(a: seq<Op<I, P>>, b: seq<Op<I, P>>, id: I)
    requires NoneDropped(a, id) && NoneDropped(b, id)
    requires ConflictFree(a, b, id)
    requires SameWrites(a, b, id)
    ensures Register(a, id) == Register(b, id)
    ensures Visible(Collected(a, id)) == Visible(Collected(b, id))
  {
    forall e ensures Admitted(a, id, e) <==> Admitted(b, id, e) {
      NoneDroppedAdmitsAll(a, id, e);
      NoneDroppedAdmitsAll(b, id, e);
    }
    ConflictFreeFirsts(a, b, id);
    AdmittedDecides(a, b, id);
    CollectionIsInvisible(a, id);
    CollectionIsInvisible(b, id);
  }

  // ------------------------------------------------------------------- appending writes

  predicate CollectFree<I, P>(log: seq<Op<I, P>>) {
    forall i :: 0 <= i < |log| ==> log[i].Write?
  }

  lemma {:induction false} CutoffConcat<I, P>(log: seq<Op<I, P>>, ws: seq<Op<I, P>>)
    requires CollectFree(ws)
    ensures Cutoff(log + ws) == Cutoff(log)
  {
    if ws == [] {
      assert log + ws == log;
    } else {
      var n := |ws| - 1;
      CutoffConcat(log, ws[..n]);
      assert log + ws == (log + ws[..n]) + [ws[n]];
      CutoffSnoc(log + ws[..n], ws[n]);
    }
  }

  /** Writes without a clean-up between them all face the cutoff they start from. */
  lemma {:induction false} AdmittedConcat<I, P>(log: seq<Op<I, P>>, ws: seq<Op<I, P>>, id: I, e: Entry<P>)
    requires CollectFree(ws)
    ensures Admitted(log + ws, id, e) <==> Admitted(log, id, e) || (Offered(ws, id, e) && e.time > Cutoff(log))
  {
    if ws == [] {
      assert log + ws == log;
    } else {
      var n := |ws| - 1;
      var before, op := ws[..n], ws[n];
      AdmittedConcat(log, before, id, e);
      assert log + ws == (log + before) + [op] && ws == before + [op];
      CutoffConcat(log, before);
      AdmittedSnoc(log + before, op, id, e);
      OfferedConcat(before, [op], id, e);
      assert [op][0] == op;
    }
  }

  /** What a history leaves behind: its cutoff and every register. */
  ghost predicate SameOutcome<I(!new), P>(a: seq<Op<I, P>>, b: seq<Op<I, P>>) {
    Cutoff(a) == Cutoff(b) && forall id :: Register(a, id) == Register(b, id)
  }

  /** What follows a history depends on its outcome only. */
  lemma {:induction false} OutcomeDecides<I(!new), P>(a: seq<Op<I, P>>, b: seq<Op<I, P>>, more: seq<Op<I, P>>)
    requires SameOutcome(a, b)
    ensures SameOutcome(a + more, b + more)
  {
    if more == [] {
      assert a + more == a && b + more == b;
    } else {
      var before, op := more[..|more| - 1], more[|more| - 1];
      OutcomeDecides(a, b, before);
      assert a + more == (a + before) + [op] && b + more == (b + before) + [op];
      CutoffSnoc(a + before, op);
      CutoffSnoc(b + before, op);
      forall id ensures Register(a + more, id) == Register(b + more, id) {
        RegisterSnoc(a + before, op, id);
        RegisterSnoc(b + before, op, id);
      }
    }
  }

  // ------------------------------------------------------------------------- retries

  /** `r` is the outcome of offering the writes `ws` to a register that holds `cell`. */
  ghost predicate Settles<I, P(!new)>(cell: Option<Entry<P>>, cutoff: Time, ws: seq<Op<I, P>>, id: I,
          r: Option<Entry<P>>) {
    && (r != cell ==> r.Some? && Offered(ws, id, r.value) && r.value.time > cutoff)
    && (r != cell && cell.Some? ==> r.value.time > cell.value.time)
    && forall e :: Offered(ws, id, e) && e.time > cutoff ==> r.Some? && e.time <= r.value.time
  }

  lemma {:induction false} RegisterSettles<I, P(!new)>(log: seq<Op<I, P>>, ws: seq<Op<I, P>>, id: I)
    requires CollectFree(ws)
    ensures Settles(Register(log, id), Cutoff(log), ws, id, Register(log + ws, id))
  {
    if ws == [] {
      assert log + ws == log;
    } else {
      var n := |ws| - 1;
      var before := ws[..n];
      RegisterSettles(log, before, id);
      assert log + ws == (log + before) + [ws[n]];
      CutoffConcat(log, before);
      RegisterSnoc(log + before, ws[n], id);
      assert forall i :: 0 <= i < n ==> before[i] == ws[i];
    }
  }

  /** Offering the same writes in another order, some of them more than once, to the same
      register has the same outcome; ties with what the register already held included. */
  lemma {:induction false} SameWritesSettleAlike<I, P(!new)>(log: seq<Op<I, P>>, a: seq<Op<I, P>>, b: seq<Op<I, P>>,
          id: I)
    requires CollectFree(a) && CollectFree(b)
    requires ConflictFree(a, b, id)
    requires SameWrites(a, b, id)
    ensures Register(log + a, id) == Register(log + b, id)
  {
    RegisterSettles(log, a, id);
    RegisterSettles(log, b, id);
  }
}
