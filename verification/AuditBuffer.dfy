/**
  The audit buffer of `audit_logger.py`: records are appended to a buffer, a flush swaps the buffer out and persists
  its records one `await` at a time, and a flush that fails puts its whole batch back in front.  The steps allow a
  persist that suspends, as one that writes to a database would: logging, other flushes and a cancellation then come
  in between.  The persist of `audit_logger.py` only logs and never suspends; the atomic runs at the end are its runs.
*/
module AuditBuffer {
  import opened Text

  const MAX_BUFFER_SIZE := 10000

  datatype Record = Decision(recordId: string, signalId: string)
                  | Correction(recordId: string, signalId: string, corrects: string)

  datatype Progress = Running | Failed | Cancelled

  /** A flush: its batch, how many records it has persisted, and whether it is still going. */
  datatype Flush = Flush(batch: seq<Record>, done: nat, progress: Progress)

  /** `logged` is every record ever appended, `store` every record persisted; a finished flush stays in `flushes`. */
  datatype State = State(
    buffer: seq<Record>, total: nat, overflows: nat, flushes: seq<Flush>, store: seq<Record>, logged: seq<Record>)

  const EMPTY := State([], 0, 0, [], [], [])

  predicate Open(s: State, k: nat) {
    k < |s.flushes| && s.flushes[k].progress.Running? && s.flushes[k].done < |s.flushes[k].batch|
  }

  /**
    `Fail` is a persist that raises, `Cancel` a cancellation at a persist that suspends, which the handler does not
    catch.
  */
  datatype Step =
    | Log(record: Record) | LogCorrection(record: Record)
    | Begin | Persist(k: nat) | Fail(k: nat) | Cancel(k: nat)

  predicate Enabled(s: State, step: Step) {
    match step
    case Log(r) => r.Decision?
    case LogCorrection(r) => r.Correction?
    case Begin => s.buffer != []
    case Persist(k) => Open(s, k)
    case Fail(k) => Open(s, k)
    case Cancel(k) => Open(s, k)
  }

  function Next(s: State, step: Step): State
    requires Enabled(s, step)
  {
    match step
    case Log(r) => s.(buffer := s.buffer + [r], logged := s.logged + [r], total := s.total + 1,
                      overflows := s.overflows + if |s.buffer| + 1 >= MAX_BUFFER_SIZE then 1 else 0)
    case LogCorrection(r) => s.(buffer := s.buffer + [r], logged := s.logged + [r])
    case Begin => s.(buffer := [], flushes := s.flushes + [Flush(s.buffer, 0, Running)])
    case Persist(k) =>
      var f := s.flushes[k];
      s.(flushes := s.flushes[k := f.(done := f.done + 1)], store := s.store + [f.batch[f.done]])
    case Fail(k) =>
      var f := s.flushes[k];
      s.(flushes := s.flushes[k := f.(progress := Failed)], buffer := f.batch + s.buffer)
    case Cancel(k) => s.(flushes := s.flushes[k := s.flushes[k].(progress := Cancelled)])
  }

  predicate Runs(s: State, steps: seq<Step>)
    decreases |steps|
  {
    steps != [] ==> Enabled(s, steps[0]) && Runs(Next(s, steps[0]), steps[1..])
  }

  function End(s: State, steps: seq<Step>): State
    requires Runs(s, steps)
    decreases |steps|
  {
    if steps == [] then s else End(Next(s, steps[0]), steps[1..])
  }

  // ---------------------------------------------------------------- the logger itself

  class FlushTask {
    const batch: seq<Record>
    var next: nat
    ghost var progress: Progress

    constructor (batch: seq<Record>)
      ensures View() == Flush(batch, 0, Running)
    {
      this.batch, next, progress := batch, 0, Running;
    }

    ghost function View(): Flush reads this { Flush(batch, next, progress) }
  }

  class AuditLogger {
    var buffer: seq<Record>
    var totalRecords: nat
    var bufferOverflowCount: nat
    /** The durable storage, the flush tasks and the history, for the specification. */
    ghost var store: seq<Record>
    ghost var flushes: seq<FlushTask>
    ghost var logged: seq<Record>

    constructor ()
      ensures Valid() && View() == EMPTY
    {
      buffer, totalRecords, bufferOverflowCount, store, flushes, logged := [], 0, 0, [], [], [];
    }

    ghost predicate Valid()
      reads this
    {
      forall i, j | 0 <= i < j < |flushes| :: flushes[i] != flushes[j]
    }

    ghost function Flushes(): seq<Flush>
      reads this, flushes
    {
      seq(|flushes|, k requires 0 <= k < |flushes| reads this, flushes => flushes[k].View())
    }

    ghost function View(): State
      reads this, flushes
    {
      State(buffer, totalRecords, bufferOverflowCount, Flushes(), store, logged)
    }

    method Log(record: Record) returns (flushDue: bool)
      requires Valid() && record.Decision?
      modifies this
      ensures Valid() && View() == Next(old(View()), Step.Log(record))
      ensures buffer == old(buffer) + [record] && totalRecords == old(totalRecords) + 1
      ensures flushDue <==> |buffer| >= 10000
      ensures bufferOverflowCount == old(bufferOverflowCount) + if flushDue then 1 else 0
    {
      buffer := buffer + [record];
      totalRecords := totalRecords + 1;
      flushDue := false;
      if |buffer| >= MAX_BUFFER_SIZE {
        bufferOverflowCount := bufferOverflowCount + 1;
        flushDue := true;
      }
      logged := logged + [record];
    }

    method LogCorrection(record: Record)
      requires Valid() && record.Correction?
      modifies this
      ensures Valid() && View() == Next(old(View()), Step.LogCorrection(record))
      ensures buffer == old(buffer) + [record] && totalRecords == old(totalRecords)
    {
      buffer := buffer + [record];
      logged := logged + [record];
    }

    /** `_flush_buffer` up to its first `await`: the batch is taken and the buffer left empty. */
    method BeginFlush() returns (task: Option<FlushTask>)
      requires Valid()
      modifies this
      ensures Valid()
      ensures task.Some? <==> old(buffer) != []
      ensures View() == if task.Some? then Next(old(View()), Begin) else old(View())
      ensures task.Some? ==> fresh(task.value) && flushes == old(flushes) + [task.value]
      ensures buffer == [] && (task.Some? ==> task.value.batch == old(buffer) && task.value.next == 0)
    {
      if buffer == [] { return None; }
      var t := new FlushTask(buffer);
      buffer := [];
      flushes := flushes + [t];
      task := Some(t);
    }

    /**
      One `await` of the loop: the record is persisted, or the persist raises and the whole batch goes back in front.
    */
    method PersistNext(t: FlushTask, raises: bool, ghost k: nat)
      requires Valid() && k < |flushes| && flushes[k] == t && Open(View(), k)
      modifies this, t
      ensures Valid() && flushes == old(flushes)
      ensures View() == Next(old(View()), if raises then Fail(k) else Persist(k))
      ensures raises ==> buffer == t.batch + old(buffer) && store == old(store) && t.progress == Failed
      ensures !raises ==>
                && buffer == old(buffer) && store == old(store) + [t.batch[old(t.next)]]
                && t.next == old(t.next) + 1
    {
      if raises {
        buffer := t.batch + buffer;
        t.progress := Failed;
      } else {
        store := store + [t.batch[t.next]];
        t.next := t.next + 1;
      }
      assert Flushes() == old(Flushes())[k := t.View()];
    }

    /**
      A whole flush that nothing interrupts: its records go to the store, in order, up to the first persist that
      raises.
    */
    method FlushBuffer(failAt: nat)
      requires Valid()
      modifies this
      ensures Valid() && logged == old(logged) && totalRecords == old(totalRecords)
      ensures store == old(store) + if failAt < |old(buffer)| then old(buffer)[..failAt] else old(buffer)
      ensures buffer == if failAt < |old(buffer)| then old(buffer) else []
    {
      var task := BeginFlush();
      if task.None? { return; }
      var t := task.value;
      assert Flushes()[|flushes| - 1] == t.View() == Flush(old(buffer), 0, Running);
      assert flushes[|flushes| - 1] == t;
      ghost var k := |flushes| - 1;
      while t.next < |t.batch| && t.next != failAt
        invariant Valid() && flushes == old(flushes) + [t] && fresh(t) && t.batch == old(buffer) && t.progress.Running?
        invariant t.next <= |t.batch| && t.next <= failAt
        invariant buffer == [] && logged == old(logged) && totalRecords == old(totalRecords)
        invariant store == old(store) + t.batch[..t.next]
        decreases |t.batch| - t.next
      {
        assert t.batch[..t.next + 1] == t.batch[..t.next] + [t.batch[t.next]];
        ghost var before := View();
        PersistNext(t, false, k);
        assert t.View() == View().flushes[k] == Next(before, Persist(k)).flushes[k];
        assert store == View().store && buffer == View().buffer && logged == View().logged;
      }
      if t.next < |t.batch| {
        PersistNext(t, true, k);
        assert store == View().store && buffer == View().buffer && logged == View().logged;
      }
    }
  }

  // ---------------------------------------------------------------- nothing is lost

  function Count(rs: seq<Record>, x: Record): nat { multiset(rs)[x] }

  datatype Part = Pending | Lost | Requeued

  /**
    What a flush still has to persist, what a cancelled one drops, what a failed one had persisted before it gave all
    back.
  */
  function PartOf(f: Flush, part: Part): seq<Record> {
    if f.done > |f.batch| then []
    else match part
      case Pending => if f.progress.Running? then f.batch[f.done..] else []
      case Lost => if f.progress.Cancelled? then f.batch[f.done..] else []
      case Requeued => if f.progress.Failed? then f.batch[..f.done] else []
  }

  function Sum(fs: seq<Flush>, part: Part, x: Record): nat {
    if fs == [] then 0 else Sum(fs[..|fs| - 1], part, x) + Count(PartOf(fs[|fs| - 1], part), x)
  }

  lemma {:induction false} SumUpdate(fs: seq<Flush>, part: Part, x: Record, k: nat, f: Flush)
    requires k < |fs|
    ensures Sum(fs[k := f], part, x) + Count(PartOf(fs[k], part), x) == Sum(fs, part, x) + Count(PartOf(f, part), x)
    decreases |fs|
  {
    hide Count, PartOf;
    var n := |fs| - 1;
    if k < n {
      SumUpdate(fs[..n], part, x, k, f);
      assert fs[k := f][..n] == fs[..n][k := f];
    } else {
      assert fs[k := f][..n] == fs[..n];
    }
  }

  lemma SumSnoc(fs: seq<Flush>, part: Part, x: Record, f: Flush)
    ensures Sum(fs + [f], part, x) == Sum(fs, part, x) + Count(PartOf(f, part), x)
  {
    assert (fs + [f])[..|fs|] == fs;
  }

  lemma CountOfJoin(a: seq<Record>, b: seq<Record>, x: Record)
    ensures Count(a + b, x) == Count(a, x) + Count(b, x)
  {
  }

  function Decisions(rs: seq<Record>): nat {
    if rs == [] then 0 else Decisions(rs[..|rs| - 1]) + if rs[|rs| - 1].Decision? then 1 else 0
  }

  predicate Balanced(s: State, x: Record) {
    Count(s.buffer, x) + Sum(s.flushes, Pending, x) + Count(s.store, x) + Sum(s.flushes, Lost, x)
    == Count(s.logged, x) + Sum(s.flushes, Requeued, x)
  }

  predicate Accounted(s: State, x: Record) {
    && (forall k | 0 <= k < |s.flushes| :: s.flushes[k].done <= |s.flushes[k].batch|)
    && Balanced(s, x)
    && s.total == Decisions(s.logged)
  }

  lemma CountOfNone(x: Record)
    ensures Count([], x) == 0
  {
  }

  /** The sums after flush `k` has become `g`. */
  lemma SumsUpdate(s: State, k: nat, g: Flush, x: Record)
    requires k < |s.flushes|
    ensures forall part ::
              Sum(s.flushes[k := g], part, x) + Count(PartOf(s.flushes[k], part), x)
              == Sum(s.flushes, part, x) + Count(PartOf(g, part), x)
  {
    forall part ensures Sum(s.flushes[k := g], part, x) + Count(PartOf(s.flushes[k], part), x)
                        == Sum(s.flushes, part, x) + Count(PartOf(g, part), x)
    {
      SumUpdate(s.flushes, part, x, k, g);
    }
  }

  /** The parts of an open flush and of what a step makes of it. */
  lemma PartsOfOpen(f: Flush, g: Flush, x: Record)
    requires f.progress.Running? && f.done < |f.batch| && g.batch == f.batch
    ensures PartOf(f, Lost) == PartOf(f, Requeued) == []
    ensures g == f.(done := f.done + 1) ==>
              && PartOf(g, Lost) == PartOf(g, Requeued) == []
              && Count(PartOf(f, Pending), x) == Count([f.batch[f.done]], x) + Count(PartOf(g, Pending), x)
    ensures g == f.(progress := Failed) ==>
              && PartOf(g, Lost) == PartOf(g, Pending) == []
              && Count(f.batch, x) == Count(PartOf(g, Requeued), x) + Count(PartOf(f, Pending), x)
    ensures g == f.(progress := Cancelled) ==>
              && PartOf(g, Requeued) == PartOf(g, Pending) == []
              && PartOf(g, Lost) == PartOf(f, Pending)
  {
    hide Count;
    assert f.batch == f.batch[..f.done] + f.batch[f.done..];
    CountOfJoin(f.batch[..f.done], f.batch[f.done..], x);
    assert f.batch[f.done..] == [f.batch[f.done]] + f.batch[f.done + 1..];
    CountOfJoin([f.batch[f.done]], f.batch[f.done + 1..], x);
  }

  lemma FlushKeepsBalance(s: State, step: Step, x: Record)
    requires Balanced(s, x) && Enabled(s, step) && (step.Persist? || step.Fail? || step.Cancel?)
    ensures Balanced(Next(s, step), x)
  {
    hide Count, Sum, PartOf;
    var t, k := Next(s, step), step.k;
    var f, g := s.flushes[k], t.flushes[k];
    SumsUpdate(s, k, g, x);
    PartsOfOpen(f, g, x);
    CountOfNone(x);
    CountOfJoin(s.store, [f.batch[f.done]], x);
    CountOfJoin(f.batch, s.buffer, x);
  }

  lemma BeginKeepsBalance(s: State, x: Record)
    requires Balanced(s, x) && Enabled(s, Begin)
    ensures Balanced(Next(s, Begin), x)
  {
    hide Count, Sum;
    var f := Flush(s.buffer, 0, Running);
    SumSnoc(s.flushes, Pending, x, f);
    SumSnoc(s.flushes, Lost, x, f);
    SumSnoc(s.flushes, Requeued, x, f);
    CountOfNone(x);
    assert s.buffer[0..] == s.buffer;
  }

  lemma AppendKeepsBalance(s: State, step: Step, x: Record)
    requires Balanced(s, x) && Enabled(s, step) && (step.Log? || step.LogCorrection?)
    ensures Balanced(Next(s, step), x)
  {
    hide Count, Sum;
    CountOfJoin(s.logged, [step.record], x);
    CountOfJoin(s.buffer, [step.record], x);
  }

  lemma StepKeepsAccounted(s: State, step: Step, x: Record)
    requires Accounted(s, x) && Enabled(s, step)
    ensures Accounted(Next(s, step), x)
  {
    hide Balanced;
    if step.Log? || step.LogCorrection? {
      assert (s.logged + [step.record])[..|s.logged|] == s.logged;
      AppendKeepsBalance(s, step, x);
    } else if step.Begin? {
      BeginKeepsBalance(s, x);
    } else {
      FlushKeepsBalance(s, step, x);
    }
  }

  lemma {:induction false} RunKeepsAccounted(s: State, steps: seq<Step>, x: Record)
    requires Accounted(s, x) && Runs(s, steps)
    ensures Accounted(End(s, steps), x)
    decreases |steps|
  {
    hide Accounted, Next, Enabled;
    if steps == [] {
    } else {
      StepKeepsAccounted(s, steps[0], x);
      RunKeepsAccounted(Next(s, steps[0]), steps[1..], x);
    }
  }

  /** The copies of a record that are stored, buffered, or in a flush under way. */
  function Held(s: State, x: Record): nat { Count(s.store, x) + Count(s.buffer, x) + Sum(s.flushes, Pending, x) }

  /**
    Whatever runs in between what, every logged copy of a record is accounted for: it is held, or a cancelled flush
    dropped it, and beyond the logged copies there are only those that failed flushes stored before starting over.
    So a record is missing exactly when more copies were dropped than stored twice.
  */
  lemma EveryRecordIsAccountedFor(steps: seq<Step>, x: Record)
    requires Runs(EMPTY, steps)
    ensures var s := End(EMPTY, steps);
            && Held(s, x) + Sum(s.flushes, Lost, x) == Count(s.logged, x) + Sum(s.flushes, Requeued, x)
            && (Held(s, x) < Count(s.logged, x) <==> Sum(s.flushes, Lost, x) > Sum(s.flushes, Requeued, x))
            && s.total == Decisions(s.logged)
  {
    RunKeepsAccounted(EMPTY, steps, x);
  }

  predicate NoneCancelled(s: State) { forall k | 0 <= k < |s.flushes| :: !s.flushes[k].progress.Cancelled? }
  predicate NoneFailed(s: State) { forall k | 0 <= k < |s.flushes| :: !s.flushes[k].progress.Failed? }
  predicate Quiet(s: State) { forall k | 0 <= k < |s.flushes| :: !Open(s, k) }

  lemma {:induction false} NothingInSum(fs: seq<Flush>, part: Part, x: Record)
    requires forall k | 0 <= k < |fs| :: PartOf(fs[k], part) == []
    ensures Sum(fs, part, x) == 0
    decreases |fs|
  {
    hide PartOf;
    if fs == [] {
    } else {
      NothingInSum(fs[..|fs| - 1], part, x);
      assert PartOf(fs[|fs| - 1], part) == [];
    }
  }

  /** With no flush cancelled and none under way, every record is stored or buffered; with none failed, exactly once. */
  lemma NothingIsLost(steps: seq<Step>)
    requires Runs(EMPTY, steps) && NoneCancelled(End(EMPTY, steps)) && Quiet(End(EMPTY, steps))
    ensures var s := End(EMPTY, steps);
            && multiset(s.logged) <= multiset(s.store) + multiset(s.buffer)
            && (NoneFailed(s) ==> multiset(s.logged) == multiset(s.store) + multiset(s.buffer))
  {
    var s := End(EMPTY, steps);
    forall x: Record
      ensures Count(s.logged, x) <= Count(s.store, x) + Count(s.buffer, x)
      ensures NoneFailed(s) ==> Count(s.logged, x) == Count(s.store, x) + Count(s.buffer, x)
    {
      RunKeepsAccounted(EMPTY, steps, x);
      forall k | 0 <= k < |s.flushes| ensures PartOf(s.flushes[k], Pending) == [] { assert !Open(s, k); }
      NothingInSum(s.flushes, Pending, x);
      NothingInSum(s.flushes, Lost, x);
      if NoneFailed(s) { NothingInSum(s.flushes, Requeued, x); }
    }
    assert forall x: Record :: multiset(s.logged)[x] == Count(s.logged, x);
  }

  lemma RunCons(s: State, step: Step, rest: seq<Step>)
    requires Enabled(s, step) && Runs(Next(s, step), rest)
    ensures Runs(s, [step] + rest) && End(s, [step] + rest) == End(Next(s, step), rest)
  {
    assert ([step] + rest)[1..] == rest;
  }

  /**
    Were a persist to suspend, `stop` could cancel a flush half done, and the record in the rest of its batch is
    nowhere.
  */
  lemma CancelledFlushLosesARecord(r: Record)
    requires r.Decision?
    ensures var steps := [Log(r), Begin, Cancel(0)];
            Runs(EMPTY, steps) && r in End(EMPTY, steps).logged && Held(End(EMPTY, steps), r) == 0
  {
    var s1 := Next(EMPTY, Log(r));
    assert s1 == State([r], 1, 0, [], [], [r]);
    var s2 := Next(s1, Begin);
    assert s2 == State([], 1, 0, [Flush([r], 0, Running)], [], [r]);
    var s3 := Next(s2, Cancel(0));
    assert s3 == State([], 1, 0, [Flush([r], 0, Cancelled)], [], [r]);
    assert Open(s2, 0);
    hide Next, Enabled;
    RunCons(s2, Cancel(0), []);
    RunCons(s1, Begin, [Cancel(0)] + []);
    RunCons(EMPTY, Log(r), [Begin] + ([Cancel(0)] + []));
    assert [Log(r)] + ([Begin] + ([Cancel(0)] + [])) == [Log(r), Begin, Cancel(0)];
    assert PartOf(s3.flushes[0], Pending) == [];
    NothingInSum(s3.flushes, Pending, r);
  }

  // ---------------------------------------------------------------- order, when flushes do not overlap

  /** The flush under way, when only the latest can be. */
  function Current(s: State): Option<Flush> {
    if s.flushes != [] && Open(s, |s.flushes| - 1) then Some(s.flushes[|s.flushes| - 1]) else None
  }

  /** What still has to be persisted: the rest of the flush under way, then the buffer. */
  function Remaining(s: State): seq<Record> {
    (match Current(s) case Some(f) => f.batch[f.done..] case None => []) + s.buffer
  }

  /** How many records of the log do not remain. */
  function Settled(s: State): int { |s.logged| - |Remaining(s)| }

  /**
    At most the latest flush is under way; what remains is the log from some point on, in order; all before that
    point is stored; and the part of the batch already persisted is the stretch of the log just before it.
  */
  predicate InOrder(s: State) {
    var q := Settled(s);
    && (forall k | 0 <= k < |s.flushes| :: Open(s, k) ==> k == |s.flushes| - 1)
    && q >= 0 && Remaining(s) == s.logged[q..]
    && (forall i | 0 <= i < q :: s.logged[i] in s.store)
    && match Current(s)
       case Some(f) => f.done <= q && s.logged[q - f.done..q] == f.batch[..f.done]
       case None => true
  }

  /** What an append leaves of the flushes, of what remains, and of the log. */
  lemma AppendStep(s: State, step: Step)
    requires InOrder(s) && Enabled(s, step) && (step.Log? || step.LogCorrection?)
    ensures var t := Next(s, step);
            && t.flushes == s.flushes && t.store == s.store && t.logged == s.logged + [step.record]
            && Current(t) == Current(s) && Remaining(t) == Remaining(s) + [step.record]
  {
    if Current(s).Some? {
      Assoc(Current(s).value.batch[Current(s).value.done..], s.buffer, [step.record]);
    } else {
      assert [] + s.buffer == s.buffer && [] + (s.buffer + [step.record]) == s.buffer + [step.record];
    }
  }

  lemma AppendKeepsOrder(s: State, step: Step)
    requires InOrder(s) && Enabled(s, step) && (step.Log? || step.LogCorrection?)
    ensures InOrder(Next(s, step))
  {
    AppendStep(s, step);
    var t, q := Next(s, step), Settled(s);
    hide Next, Current, Remaining;
    forall k ensures Open(t, k) == Open(s, k) {}
    SuffixUnder(s.logged, step.record, q);
    if Current(s).Some? { SliceUnder(s.logged, step.record, q - Current(s).value.done, q); }
  }

  lemma SuffixUnder(log: seq<Record>, r: Record, i: int)
    requires 0 <= i <= |log|
    ensures (log + [r])[i..] == log[i..] + [r]
  {
  }

  lemma SliceUnder(log: seq<Record>, r: Record, i: int, j: int)
    requires 0 <= i <= j <= |log|
    ensures (log + [r])[i..j] == log[i..j]
  {
  }

  lemma BeginKeepsOrder(s: State)
    requires InOrder(s) && Enabled(s, Begin) && Quiet(s)
    ensures InOrder(Next(s, Begin))
  {
    var t := Next(s, Begin);
    forall k: nat | Open(t, k) ensures k == |t.flushes| - 1 { assert k < |s.flushes| ==> Open(s, k); }
    assert Current(t) == Some(Flush(s.buffer, 0, Running));
    assert Remaining(s) == s.buffer;
    assert Remaining(t) == s.buffer[0..] + [] == s.buffer;
  }

  lemma PersistTakesTheFirst(s: State, k: nat)
    requires InOrder(s) && Enabled(s, Persist(k))
    ensures var t, f := Next(s, Persist(k)), s.flushes[k];
            && Current(s) == Some(f) && Remaining(s) == [f.batch[f.done]] + Remaining(t)
            && (forall j :: Open(t, j) ==> j == |t.flushes| - 1)
            && Current(t) == if f.done + 1 < |f.batch| then Some(f.(done := f.done + 1)) else None
  {
    var t, f := Next(s, Persist(k)), s.flushes[k];
    forall j | Open(t, j) ensures j == |t.flushes| - 1 { assert j != k ==> Open(s, j); }
    assert f.batch[f.done..] == [f.batch[f.done]] + f.batch[f.done + 1..];
    Assoc([f.batch[f.done]], f.batch[f.done + 1..], s.buffer);
  }

  lemma PersistKeepsOrder(s: State, k: nat)
    requires InOrder(s) && Enabled(s, Persist(k))
    ensures InOrder(Next(s, Persist(k)))
    ensures Settled(Next(s, Persist(k))) == Settled(s) + 1
    ensures Next(s, Persist(k)).store == s.store + [s.logged[Settled(s)]]
  {
    var t, q, f := Next(s, Persist(k)), Settled(s), s.flushes[k];
    PersistTakesTheFirst(s, k);
    hide Remaining, Current, Open;
    assert Remaining(t) == Remaining(s)[1..] == s.logged[q..][1..] == s.logged[q + 1..];
    assert Remaining(s)[0] == f.batch[f.done] == s.logged[q];
    assert f.batch[..f.done + 1] == f.batch[..f.done] + [f.batch[f.done]];
    assert s.logged[q - f.done..q + 1] == s.logged[q - f.done..q] + [s.logged[q]];
  }

  lemma FailKeepsOrder(s: State, k: nat)
    requires InOrder(s) && Enabled(s, Fail(k))
    ensures InOrder(Next(s, Fail(k)))
  {
    var t, q, f := Next(s, Fail(k)), Settled(s), s.flushes[k];
    assert Current(s) == Some(f);
    forall j ensures !Open(t, j) { assert j != k ==> Open(t, j) == Open(s, j); }
    assert Remaining(t) == f.batch + s.buffer && t.logged == s.logged && t.store == s.store;
    hide Next, Enabled;
    Rejoin(f.batch, 0, f.done);
    Assoc(f.batch[..f.done], f.batch[f.done..], s.buffer);
    Rejoin(s.logged, q - f.done, q);
  }

  lemma Rejoin(rs: seq<Record>, i: int, j: int)
    requires 0 <= i <= j <= |rs|
    ensures rs[i..] == rs[i..j] + rs[j..] && rs[0..] == rs && rs[0..j] == rs[..j]
  {
  }

  /** Flushes do not overlap and none is cancelled. */
  predicate Sequential(s: State, steps: seq<Step>)
    requires Runs(s, steps)
    decreases |steps|
  {
    steps != [] ==>
      && (steps[0].Begin? ==> Quiet(s)) && !steps[0].Cancel?
      && Sequential(Next(s, steps[0]), steps[1..])
  }

  lemma {:induction false} SequentialRunKeepsOrder(s: State, steps: seq<Step>)
    requires InOrder(s) && Runs(s, steps) && Sequential(s, steps)
    ensures InOrder(End(s, steps))
    decreases |steps|
  {
    hide InOrder, Next, Enabled, Quiet;
    if steps == [] {
    } else {
      var step := steps[0];
      if step.Begin? {
        BeginKeepsOrder(s);
      } else if step.Persist? {
        PersistKeepsOrder(s, step.k);
      } else if step.Fail? {
        FailKeepsOrder(s, step.k);
      } else {
        AppendKeepsOrder(s, step);
      }
      SequentialRunKeepsOrder(Next(s, steps[0]), steps[1..]);
    }
  }

  /**
    When flushes do not overlap and none is cancelled, failures included: what remains is the end of the log in its
    order, all before it is stored, and the next record persisted is the first that remains.
  */
  lemma SequentialRunsAreInOrder(steps: seq<Step>, k: nat)
    requires Runs(EMPTY, steps) && Sequential(EMPTY, steps)
    ensures var s := End(EMPTY, steps);
            && 0 <= Settled(s) && Remaining(s) == s.logged[Settled(s)..]
            && (forall i | 0 <= i < Settled(s) :: s.logged[i] in s.store)
            && (Enabled(s, Persist(k)) ==>
                Settled(s) < |s.logged| && Next(s, Persist(k)).store == s.store + [s.logged[Settled(s)]])
  {
    SequentialRunKeepsOrder(EMPTY, steps);
    var s := End(EMPTY, steps);
    if Enabled(s, Persist(k)) { PersistKeepsOrder(s, k); }
  }

  // ---------------------------------------------------------------- a persist that never suspends

  /** A flush under way is the only thing that runs, up to its last persist or its failure; nothing can cancel it. */
  predicate Atomic(s: State, steps: seq<Step>)
    requires Runs(s, steps)
    decreases |steps|
  {
    steps != [] ==>
      && (if Current(s).Some? then steps[0] in {Persist(|s.flushes| - 1), Fail(|s.flushes| - 1)} else !steps[0].Cancel?)
      && Atomic(Next(s, steps[0]), steps[1..])
  }

  predicate Undisturbed(s: State) { InOrder(s) && NoneCancelled(s) }

  lemma AtomicStep(s: State, step: Step)
    requires Undisturbed(s) && Enabled(s, step)
    requires if Current(s).Some? then step in {Persist(|s.flushes| - 1), Fail(|s.flushes| - 1)} else !step.Cancel?
    ensures Undisturbed(Next(s, step))
  {
    match step
    case Begin =>
      assert Quiet(s) by { forall k | 0 <= k < |s.flushes| ensures !Open(s, k) {} }
      BeginKeepsOrder(s);
    case Persist(k) => PersistKeepsOrder(s, k);
    case Fail(k) => FailKeepsOrder(s, k);
    case Log(_) => AppendKeepsOrder(s, step);
    case LogCorrection(_) => AppendKeepsOrder(s, step);
    case Cancel(k) =>
  }

  lemma {:induction false} AtomicRunIsUndisturbed(s: State, steps: seq<Step>)
    requires Undisturbed(s) && Runs(s, steps) && Atomic(s, steps)
    ensures Undisturbed(End(s, steps))
    decreases |steps|
  {
    hide Undisturbed, Next, Enabled;
    if steps == [] {
    } else {
      AtomicStep(s, steps[0]);
      AtomicRunIsUndisturbed(Next(s, steps[0]), steps[1..]);
    }
  }

  /**
    On every run of atomic flushes, failures included, whenever no flush is under way: the buffer is the end of the
    log in its order, every record before it is stored, and nothing is missing however often it was stored.
  */
  lemma AtomicFlushesLoseNothing(steps: seq<Step>)
    requires Runs(EMPTY, steps) && Atomic(EMPTY, steps) && Current(End(EMPTY, steps)).None?
    ensures var s := End(EMPTY, steps); var q := |s.logged| - |s.buffer|;
            && q >= 0 && s.buffer == s.logged[q..] && (forall i | 0 <= i < q :: s.logged[i] in s.store)
            && multiset(s.logged) <= multiset(s.store) + multiset(s.buffer)
            && (NoneFailed(s) ==> multiset(s.logged) == multiset(s.store) + multiset(s.buffer))
  {
    AtomicRunIsUndisturbed(EMPTY, steps);
    var s := End(EMPTY, steps);
    assert Remaining(s) == [] + s.buffer == s.buffer;
    assert Quiet(s) by { forall k | 0 <= k < |s.flushes| ensures !Open(s, k) {} }
    hide InOrder;
    NothingIsLost(steps);
  }

  /** A whole flush, failing or not, is an atomic run, with the effect that `FlushBuffer` has. */
  lemma FlushIsAtomic(s: State, n: nat, fails: bool) returns (steps: seq<Step>)
    requires Undisturbed(s) && Current(s).None? && s.buffer != [] && n <= |s.buffer| && (fails <==> n < |s.buffer|)
    ensures Runs(s, steps) && Atomic(s, steps) && Current(End(s, steps)).None?
    ensures var t := End(s, steps);
            && t.store == s.store + s.buffer[..n] && t.buffer == (if fails then s.buffer else [])
            && t.logged == s.logged && t.total == s.total
  {
    var t := Next(s, Begin);
    var k := |s.flushes|;
    assert Current(t) == Some(Flush(s.buffer, 0, Running)) && t.flushes[k] == Flush(s.buffer, 0, Running);
    AtomicStep(s, Begin);
    var rest := PersistOn(t, k, n);
    steps := [Begin] + rest;
    RunCons(s, Begin, rest);
    assert steps[1..] == rest && steps[0] == Begin;
    assert s.buffer[0..n] == s.buffer[..n];
  }

  /** The rest of a flush under way, up to `n` records of its batch, and then its failure if that is short of all. */
  lemma {:induction false} PersistOn(s: State, k: nat, n: nat) returns (steps: seq<Step>)
    requires k == |s.flushes| - 1 && Open(s, k) && s.flushes[k].done <= n <= |s.flushes[k].batch|
    ensures Runs(s, steps) && Atomic(s, steps) && Current(End(s, steps)).None?
    ensures var f, t := s.flushes[k], End(s, steps);
            && t.store == s.store + f.batch[f.done..n]
            && t.buffer == (if n < |f.batch| then f.batch + s.buffer else s.buffer)
            && t.logged == s.logged && t.total == s.total
    decreases n - s.flushes[k].done
  {
    var f := s.flushes[k];
    if f.done == n {
      RunCons(s, Fail(k), []);
      steps := [Fail(k)] + [];
      assert steps[1..] == [];
    } else if f.done + 1 == |f.batch| {
      RunCons(s, Persist(k), []);
      steps := [Persist(k)] + [];
      assert steps[1..] == [];
      assert n == f.done + 1;
      Single(f.batch, f.done);
    } else {
      var t := Next(s, Persist(k));
      var rest := PersistOn(t, k, n);
      RunCons(s, Persist(k), rest);
      steps := [Persist(k)] + rest;
      assert steps[1..] == rest;
      assert f.batch[f.done..n] == [f.batch[f.done]] + f.batch[f.done + 1..n];
    }
  }
}
