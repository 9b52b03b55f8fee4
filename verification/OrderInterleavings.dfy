/**
  Status writes against the transition table when calls interleave: which steps keep to the table, and that a call
  leaves it only when another write to its record came between its halves.
*/
module OrderInterleavings {
  import opened Text
  import opened OrderLifecycle
  import opened OrderRegistry
  import opened OrderRuns
  import opened OrderForgetting

  /** The record a step writes, if it writes one. */
  ghost function Written(s: Sys, step: Step): Option<nat>
    requires Enabled(s, step)
  {
    match step
    case MoveTo(r, to, _) => if s.recs[r].status != to then Some(r) else None
    case CallSubmit(r) => Some(r)
    case CallReconcile(r) => if Reconcilable(s.recs[r].status) then Some(r) else None
    case CallCancel(r) => Some(r)
    case Return(c, _) => Some(s.calls[c].rec)
    case _ => None
  }

  /** The statuses it writes there, in order. */
  ghost function Wrote(s: Sys, step: Step): seq<Status>
    requires Enabled(s, step)
  {
    match step
    case MoveTo(r, to, _) => if s.recs[r].status != to then [to] else []
    case CallSubmit(_) => [Submitted]
    case CallReconcile(r) =>
      if !Reconcilable(s.recs[r].status) then []
      else if s.recs[r].HasBrokerId() then [Reconciling]
      else [Reconciling, Unknown]
    case CallCancel(r) => if s.recs[r].HasBrokerId() then [CancelPending] else [Cancelled]
    case Return(c, outcome) => [Resumed(s.calls[c].kind, s.recs[s.calls[c].rec], outcome).status]
    case _ => []
  }

  /** The step keeps to the table. */
  ghost predicate OnTheTable(s: Sys, step: Step)
    requires Enabled(s, step)
  {
    match Written(s, step)
    case Some(r) => r < |s.recs| && Legal([s.recs[r].status] + Wrote(s, step))
    case None => true
  }

  /** The statuses from which a resumed call may write whatever the broker's answer asks for. */
  function Resumable(kind: CallKind): set<Status> {
    match kind
    case Submitting => {Submitted}
    case Querying => {Reconciling}
    case Cancelling => {CancelPending, Reconciling}
  }

  /** What a caller can check before a step. */
  ghost predicate Guarded(s: Sys, step: Step)
    requires Enabled(s, step)
  {
    match step
    case CallSubmit(r) => s.recs[r].status != Created
    case CallCancel(r) => OnTable(s.recs[r], Cancel(Timeout))
    case Return(c, _) => s.recs[s.calls[c].rec].status in Resumable(s.calls[c].kind)
    case _ => true
  }

  /** The first halves, and manual transitions: on the table exactly when guarded. */
  lemma FirstHalfIsLegalIff(s: Sys, step: Step)
    requires Enabled(s, step) && !step.Return?
    ensures OnTheTable(s, step) <==> Guarded(s, step)
  {
    if Written(s, step).Some? {
      var r := Written(s, step).value;
      var path := [s.recs[r].status] + Wrote(s, step);
      assert path[1] == Wrote(s, step)[0];
      assert |path| > 2 ==> path[2] == Wrote(s, step)[1];
      if !Guarded(s, step) { assert path[0 + 1] != path[0] && path[0 + 1] !in Allowed(path[0]); }
    }
  }

  /** The statuses a resumed call can write. */
  function Results(kind: CallKind): set<Status> {
    match kind
    case Submitting => {Filled, PartiallyFilled, Rejected, Acknowledged, TimedOut, Unknown}
    case Querying => {Filled, PartiallyFilled, Rejected, Cancelled, Unknown}
    case Cancelling => {Filled, PartiallyFilled, Cancelled, Reconciling}
  }

  function Says(status: Status): Outcome { Answer(Reply(None, Some(status), None, None)) }

  /** Some outcome brings about each of them, and none brings about another. */
  lemma ResultsAreAll(kind: CallKind, o: Order, outcome: Outcome, status: Status) returns (bringing: Outcome)
    ensures Resumed(kind, o, outcome).status in Results(kind)
    ensures status in Results(kind) ==> Resumed(kind, o, bringing).status == status
  {
    bringing := if status == TimedOut then Timeout else if status == Unknown then Failure else Says(status);
    ResultIn(kind, o, outcome);
    hide Allowed, WithFill, ParsedOr, QuantityOr;
    WithFillStatus(o, bringing);
  }

  lemma ResultIn(kind: CallKind, o: Order, outcome: Outcome)
    ensures Resumed(kind, o, outcome).status in Results(kind)
  {
    WithFillStatus(o, outcome);
    hide Allowed, WithFill, ParsedOr, QuantityOr;
  }

  lemma WithFillStatus(o: Order, outcome: Outcome)
    ensures outcome.Answer? ==> forall good, bad ::
              WithFill(o, outcome.reply, good, bad).status in {good, bad}
              && (outcome == Says(good) ==> WithFill(o, outcome.reply, good, bad).status == good)
  {
  }

  lemma ResumableIff(kind: CallKind, from: Status)
    ensures (forall to | to in Results(kind) :: to == from || to in Allowed(from)) <==> from in Resumable(kind)
  {
    if from !in Resumable(kind) {
      assert Filled in Results(kind) && Unknown in Results(Submitting) && Unknown in Results(Querying)
          && Cancelled in Results(Querying) && Rejected in Results(Submitting) && Reconciling in Results(Cancelling)
          && Cancelled in Results(Cancelling) && TimedOut in Results(Submitting) && Acknowledged in Results(Submitting);
    }
  }

  lemma OneWriteIsLegal(from: Status, to: Status)
    ensures Legal([from] + [to]) <==> to == from || to in Allowed(from)
  {
    var path := [from] + [to];
    assert path == [from, to];
    assert Legal(path) ==> path[0 + 1] == path[0] || path[0 + 1] in Allowed(path[0]);
  }

  /**
    A resumed call keeps to the table whatever the broker answers exactly when it finds its record as a call leaves
    it.
  */
  lemma ResumptionIsLegalIff(s: Sys, c: nat)
    requires Enabled(s, Return(c, Timeout))
    ensures (forall outcome :: OnTheTable(s, Return(c, outcome))) <==> Guarded(s, Return(c, Timeout))
  {
    var kind, o := s.calls[c].kind, s.recs[s.calls[c].rec];
    ResumableIff(kind, o.status);
    hide Allowed, Resumed, Legal;
    forall outcome ensures OnTheTable(s, Return(c, outcome))
                      <==> Resumed(kind, o, outcome).status in Allowed(o.status) + {o.status}
    {
      OneWriteIsLegal(o.status, Resumed(kind, o, outcome).status);
    }
    if Guarded(s, Return(c, Timeout)) {
      forall outcome ensures OnTheTable(s, Return(c, outcome)) { var _ := ResultsAreAll(kind, o, outcome, Filled); }
    } else {
      var to :| to in Results(kind) && to != o.status && to !in Allowed(o.status);
      var outcome := ResultsAreAll(kind, o, Timeout, to);
      assert !OnTheTable(s, Return(c, outcome));
    }
  }

  // ---------------------------------------------------------------- whole runs

  ghost predicate GuardedSteps(s: Sys, steps: seq<Step>, capacity: nat)
    requires Runs(s, steps, capacity)
    decreases |steps|
  {
    steps != [] ==> Guarded(s, steps[0]) && GuardedSteps(Next(s, steps[0], capacity), steps[1..], capacity)
  }

  /** Every status a record has had since `s`, in order. */
  ghost function StatusesOf(s: Sys, steps: seq<Step>, capacity: nat, r: nat): (h: seq<Status>)
    requires Runs(s, steps, capacity) && r < |s.recs|
    ensures h != [] && h[0] == s.recs[r].status
    decreases |steps|
  {
    if steps == [] then [s.recs[r].status]
    else
      var t := Next(s, steps[0], capacity);
      IdentityStep(s, steps[0], capacity);
      [s.recs[r].status] + (if Written(s, steps[0]) == Some(r) then Wrote(s, steps[0]) else [])
      + StatusesOf(t, steps[1..], capacity, r)
  }

  /** A step leaves a record with the last status it wrote to it, and every other record with the status it had. */
  lemma WroteLast(s: Sys, step: Step, capacity: nat, r: nat)
    requires Enabled(s, step) && r < |s.recs|
    ensures var t, path := Next(s, step, capacity), [s.recs[r].status] + Wrote(s, step);
            && r < |t.recs|
            && t.recs[r].status == if Written(s, step) == Some(r) then path[|path| - 1] else s.recs[r].status
  {
    IdentityStep(s, step, capacity);
    hide Filed, RegPruned, Lookup, Resumed, Allowed, WithMeta;
    match step
    case MoveTo(q, to, meta) => TransitionFrame(s.recs[q], to, meta);
    case _ =>
  }

  lemma GuardedIsLegal(s: Sys, step: Step)
    requires Enabled(s, step) && Guarded(s, step)
    ensures OnTheTable(s, step)
  {
    if step.Return? { ResumptionIsLegalIff(s, step.call); } else { FirstHalfIsLegalIff(s, step); }
  }

  /** In every interleaving of guarded steps, the whole status history of every record is a walk in the table. */
  lemma {:induction false} InterleavedHistoryIsLegal(s: Sys, steps: seq<Step>, capacity: nat, r: nat)
    requires Runs(s, steps, capacity) && r < |s.recs| && GuardedSteps(s, steps, capacity)
    ensures Legal(StatusesOf(s, steps, capacity, r))
    decreases |steps|
  {
    if steps == [] {
    } else {
      var step, t := steps[0], Next(s, steps[0], capacity);
      WroteLast(s, step, capacity, r);
      GuardedIsLegal(s, step);
      hide Next, Enabled, Guarded, Wrote, Allowed;
      InterleavedHistoryIsLegal(t, steps[1..], capacity, r);
      var head := [s.recs[r].status] + if Written(s, step) == Some(r) then Wrote(s, step) else [];
      LegalAppend(head, StatusesOf(t, steps[1..], capacity, r));
    }
  }

  ghost predicate Untouched(s: Sys, steps: seq<Step>, capacity: nat, r: nat)
    requires Runs(s, steps, capacity)
    decreases |steps|
  {
    steps != [] ==> Written(s, steps[0]) != Some(r) && Untouched(Next(s, steps[0], capacity), steps[1..], capacity, r)
  }

  lemma {:induction false} UntouchedKeeps(s: Sys, steps: seq<Step>, capacity: nat, r: nat, c: nat)
    requires Runs(s, steps, capacity) && r < |s.recs| && c < |s.calls| && Untouched(s, steps, capacity, r)
    ensures var t := End(s, steps, capacity);
            && r < |t.recs| && t.recs[r].status == s.recs[r].status
            && c < |t.calls| && t.calls[c].kind == s.calls[c].kind && t.calls[c].rec == s.calls[c].rec
    decreases |steps|
  {
    if steps == [] {
    } else {
      WroteLast(s, steps[0], capacity, r);
      CallFrame(s, steps[0], capacity);
      hide Next, Enabled, Written;
      UntouchedKeeps(Next(s, steps[0], capacity), steps[1..], capacity, r, c);
    }
  }

  /**
    A call whose record nothing else writes between its halves finds it as it left it.  So whatever the broker
    answers, a resumed call leaves the table only if another write to its record came in between.
  */
  lemma UndisturbedCallIsGuarded(s: Sys, first: Step, between: seq<Step>, capacity: nat, outcome: Outcome)
    requires Enabled(s, first) && (first.CallSubmit? || first.CallReconcile? || first.CallCancel?)
    requires var t := Next(s, first, capacity);
             && |t.calls| > |s.calls| && Runs(t, between, capacity) && Untouched(t, between, capacity, first.rec)
    requires Enabled(End(Next(s, first, capacity), between, capacity), Return(|s.calls|, outcome))
    ensures var e := End(Next(s, first, capacity), between, capacity);
            Guarded(e, Return(|s.calls|, outcome)) && OnTheTable(e, Return(|s.calls|, outcome))
  {
    var t, e := Next(s, first, capacity), End(Next(s, first, capacity), between, capacity);
    assert t.calls[|s.calls|].rec == first.rec && t.recs[first.rec].status in Resumable(t.calls[|s.calls|].kind);
    hide Next, Enabled;
    UntouchedKeeps(t, between, capacity, first.rec, |s.calls|);
    GuardedIsLegal(e, Return(|s.calls|, outcome));
  }

  lemma FillOfCancelled(s: Sys, capacity: nat)
    requires s.recs != [] && s.recs[0] == CANCELLED && s.calls == [IN_FLIGHT]
    ensures Enabled(s, Return(0, Says(Filled))) && !OnTheTable(s, Return(0, Says(Filled)))
    ensures |Next(s, Return(0, Says(Filled)), capacity).recs| == |s.recs|
    ensures Next(s, Return(0, Says(Filled)), capacity).recs[0].status == Filled
  {
    OneWriteIsLegal(Cancelled, Filled);
  }

  /** The other write is enough: an order cancelled while its submission is under way goes from CANCELLED to FILLED. */
  lemma FillAfterCancelLeavesTable(capacity: nat) returns (steps: seq<Step>)
    ensures Runs(INIT, steps, capacity)
    ensures var s := End(INIT, steps, capacity);
            && s.recs != [] && s.recs[0].status == Cancelled
            && Enabled(s, Return(0, Says(Filled))) && !OnTheTable(s, Return(0, Says(Filled)))
            && |Next(s, Return(0, Says(Filled)), capacity).recs| == |s.recs|
            && Next(s, Return(0, Says(Filled)), capacity).recs[0].status == Filled
  {
    hide Runs, End, Next, Enabled, OnTheTable;
    steps := CancelInFlight(capacity);
    var s := End(INIT, steps, capacity);
    assert s.recs != [] && s.recs[0] == CANCELLED && s.calls == [IN_FLIGHT];
    hide Filling;
    FillOfCancelled(s, capacity);
  }
}
