/**
  The reservation of an order after its submission: `create_order` of `algo_service.py` consumes it when the order is
  filled, and gives it back when the order is rejected, cancelled, timed out or unknown.  The broker may have filled it
  all the same.
*/
module OrderReservations {
  import opened Text
  import opened OrderLifecycle
  import opened OrderRegistry
  import opened OrderRuns
  import opened OrderForgetting
  import opened OrderAccounts

  datatype Disposition = Consumed | Released | StillReserved

  /** What `create_order` does with the reservation, by the status it finds. */
  function DispositionOf(status: Status): Disposition {
    match status
    case Filled => Consumed
    case Rejected => Released
    case Cancelled => Released
    case TimedOut => Released
    case Unknown => Released
    case _ => StillReserved
  }

  const NO_META := Meta(None, None, None, None)

  /** What the live adapter answers when the transport fails, or when the broker's answer decides nothing. */
  const DENIED := Answer(Reply(None, Some(Rejected), None, None))

  /**
    The steps of orders placed through `create_order`: `OrderRuns.PaperStep`, the approval that comes before a
    submission, an adapter that reports a failure as a rejection, and a broker that may act on a submission that was
    given up.
  */
  ghost predicate BrokerStep(s: Sys, step: Step) {
    || PaperStep(s, step)
    || (Enabled(s, step) && step.MoveTo? && step.to == RiskApproved && step.meta == NO_META)
    || (Enabled(s, step) && IsDenial(s, step))
    || (Enabled(s, step) && step.Place? && Late(s, step))
  }

  predicate IsDenial(s: Sys, step: Step) {
    step.Return? && step.call < |s.calls| && s.calls[step.call].kind == Submitting && step.outcome == DENIED
  }

  /** The order reaches the broker after its call has ended. */
  ghost predicate Late(s: Sys, step: Step)
    requires step.Place? && Enabled(s, step)
  {
    var p := s.calls[step.call];
    && !p.live && step.brokerId != "" && step.brokerId !in s.book
    && p.rec < |s.recs| && PaperFill(s.recs[p.rec].quantity, step.entry)
  }

  ghost predicate BrokerRun(s: Sys, steps: seq<Step>, capacity: nat)
    decreases |steps|
  {
    steps != [] ==> BrokerStep(s, steps[0]) && BrokerRun(Next(s, steps[0], capacity), steps[1..], capacity)
  }

  // ---------------------------------------------------------------- what holds on every such run

  /** A submission that reached the broker is in its book, filled. */
  ghost predicate PlacedAreFilled(s: Sys) {
    forall c | 0 <= c < |s.calls| && s.calls[c].kind == Submitting && s.calls[c].brokerId.Some? ::
      && s.calls[c].rec < |s.recs| && s.calls[c].brokerId.value in s.book
      && PaperFill(s.recs[s.calls[c].rec].quantity, s.book[s.calls[c].brokerId.value])
  }

  /** The statuses of an order that was sent and has no broker id. */
  predicate Settled(o: Order) { o.brokerId.None? ==> o.status in {TimedOut, Unknown, Cancelled, Rejected} }

  /** The submission `c` has come back. */
  ghost predicate Returned(s: Sys, c: nat) {
    c < |s.calls| && s.calls[c].kind == Submitting && !s.calls[c].live && s.calls[c].rec < |s.recs|
  }

  ghost predicate ReturnedAreSettled(s: Sys) {
    forall c: nat | Returned(s, c) :: Settled(s.recs[s.calls[c].rec])
  }

  ghost predicate Truthful(s: Sys) { Agreement(s) && PlacedAreFilled(s) && ReturnedAreSettled(s) }

  lemma LateKeepsAgreement(s: Sys, step: Step, capacity: nat)
    requires Agreement(s) && step.Place? && Enabled(s, step) && Late(s, step)
    ensures Agreement(Next(s, step, capacity))
  {
    SentOnceStep(s, step, capacity);
    var t := Next(s, step, capacity);
    assert t.recs == s.recs && t.book == s.book[step.brokerId := step.entry];
    assert t.calls == s.calls[step.call := s.calls[step.call].(brokerId := Some(step.brokerId))];
    hide Next, SentOnce;
    forall r | 0 <= r < |t.recs| ensures RecordAgrees(t, r) { RecordStands(s, t, r); }
    forall c | 0 <= c < |t.calls|
      ensures CallAgrees(t, t.calls[c])
    {
      SentOnceRecs(s, c);
      assert CallAgrees(s, s.calls[c]);
    }
  }

  lemma ApprovalKeepsAgreement(s: Sys, step: Step, capacity: nat)
    requires Agreement(s) && Enabled(s, step) && step.MoveTo? && step.to == RiskApproved && step.meta == NO_META
    ensures Agreement(Next(s, step, capacity))
  {
    SentOnceStep(s, step, capacity);
    var t, r := Next(s, step, capacity), step.rec;
    assert Unsent(s.recs[r].status) && s.recs[r].brokerId.None? && RecordAgrees(s, r);
    assert t.recs == s.recs[r := s.recs[r].(status := RiskApproved)] && t.calls == s.calls && t.book == s.book;
    hide Next, SentOnce;
    forall q | 0 <= q < |t.recs| && q != r ensures RecordAgrees(t, q) { RecordStands(s, t, q); }
    forall c | 0 <= c < |t.calls|
      ensures CallAgrees(t, t.calls[c])
    {
      SentOnceRecs(s, c);
      assert CallAgrees(s, s.calls[c]);
    }
  }

  lemma DenialStep(s: Sys, step: Step, capacity: nat)
    requires Agreement(s) && Enabled(s, step) && IsDenial(s, step)
    ensures var t, p := Next(s, step, capacity), s.calls[step.call];
            && t.book == s.book && t.calls == s.calls[step.call := p.(live := false)]
            && s.recs[p.rec].brokerId.None?
            && (exists o :: t.recs == s.recs[p.rec := o] && o.brokerId.None? && o.status == Rejected
                            && o.quantity == s.recs[p.rec].quantity && o.slippage == s.recs[p.rec].slippage)
  {
    hide SentOnce, RecordAgrees;
    var p := s.calls[step.call];
    assert CallAgrees(s, p);
    var o := SubmitEnd(s.recs[p.rec], DENIED);
    assert Next(s, step, capacity).recs == s.recs[p.rec := o];
  }

  lemma DenialKeepsAgreement(s: Sys, step: Step, capacity: nat)
    requires Agreement(s) && Enabled(s, step) && IsDenial(s, step)
    ensures Agreement(Next(s, step, capacity))
  {
    SentOnceStep(s, step, capacity);
    DenialStep(s, step, capacity);
    var t, p := Next(s, step, capacity), s.calls[step.call];
    hide Next, SentOnce, Enabled;
    forall c | 0 <= c < |t.calls| ensures CallAgrees(t, t.calls[c]) {
      SentOnceRecs(s, c);
      assert CallAgrees(s, s.calls[c]);
    }
    forall r | 0 <= r < |t.recs| ensures RecordAgrees(t, r) {
      if r != p.rec { RecordStands(s, t, r); } else { assert RecordAgrees(s, r); }
    }
  }

  lemma StepKeepsAgreement(s: Sys, step: Step, capacity: nat)
    requires Agreement(s) && BrokerStep(s, step)
    ensures Enabled(s, step) && Agreement(Next(s, step, capacity))
  {
    hide Agreement, Next;
    if step.MoveTo? {
      ApprovalKeepsAgreement(s, step, capacity);
    } else if step.Place? && !PaperStep(s, step) {
      LateKeepsAgreement(s, step, capacity);
    } else if step.Place? {
      AgreementPlace(s, step, capacity);
    } else if step.Return? && IsDenial(s, step) {
      DenialKeepsAgreement(s, step, capacity);
    } else if step.Return? {
      AgreementReturn(s, step, capacity);
    } else if step.Create? {
      AgreementCreate(s, step, capacity);
    } else {
      AgreementCall(s, step, capacity);
    }
  }

  /** The book only gains fills, and the fills that are in it stay. */
  lemma BookFrame(s: Sys, step: Step, capacity: nat)
    requires BrokerStep(s, step)
    ensures Enabled(s, step)
    ensures var t := Next(s, step, capacity);
            && (forall b | b in s.book && s.book[b].status in {Filled, PartiallyFilled} ::
                  b in t.book && t.book[b] == s.book[b])
            && |s.calls| <= |t.calls|
            && (forall c | 0 <= c < |s.calls| && s.calls[c].brokerId.Some? ::
                  t.calls[c].brokerId == s.calls[c].brokerId)
            && (forall c | 0 <= c < |t.calls| && t.calls[c].kind == Submitting && t.calls[c].brokerId.Some?
                   && (c < |s.calls| ==> s.calls[c].brokerId.None?) ::
                 && c < |s.calls| && step.Place? && step.call == c && t.calls[c].brokerId == Some(step.brokerId)
                 && step.brokerId in t.book && t.book[step.brokerId] == step.entry
                 && t.calls[c].rec < |s.recs| && PaperFill(s.recs[t.calls[c].rec].quantity, step.entry))
  {
    hide Filed, RegPruned, Lookup, SubmitEnd, ReconcileEnd, CancelEnd, Transition, QueryReply, CancelReply;
  }

  lemma StepKeepsPlaced(s: Sys, step: Step, capacity: nat)
    requires PlacedAreFilled(s) && BrokerStep(s, step)
    ensures Enabled(s, step) && PlacedAreFilled(Next(s, step, capacity))
  {
    BookFrame(s, step, capacity);
    IdentityStep(s, step, capacity);
    CallFrame(s, step, capacity);
    hide Next, Enabled, BrokerStep;
  }

  /** The step is the end of the submission of this record. */
  ghost predicate Ends(s: Sys, step: Step, r: nat)
    requires Enabled(s, step)
  {
    step.Return? && IsSubmitOf(s.calls[step.call], r)
  }

  /** No write takes the broker id from a record, or moves one that has none but to a status of such a record. */
  lemma SettledStep(s: Sys, step: Step, capacity: nat, r: nat)
    requires Agreement(s) && BrokerStep(s, step) && r < |s.recs| && !Unsent(s.recs[r].status)
    ensures Enabled(s, step) && r < |Next(s, step, capacity).recs|
    ensures var o := Next(s, step, capacity).recs[r];
            && (Settled(s.recs[r]) ==> Settled(o))
            && (s.recs[r].brokerId.Some? ==> o.brokerId.Some?)
            && (s.recs[r].brokerId.None? && !Ends(s, step, r) ==> o.brokerId.None?)
            && (Ends(s, step, r) ==> Settled(o))
  {
    hide Filed, RegPruned, Lookup, SentOnce, RecordAgrees;
    if step.Return? {
      if s.calls[step.call].rec == r { ReturnedSettles(s, step, r); }
      hide SubmitEnd, CancelEnd;
    }
  }

  /** The end of a submission settles its record, and the end of a cancel takes no broker id away. */
  lemma ReturnedSettles(s: Sys, step: Step, r: nat)
    requires Agreement(s) && Enabled(s, step) && (PaperStep(s, step) || IsDenial(s, step))
    requires step.Return? && r < |s.recs| && s.calls[step.call].rec == r
    ensures var p, o := s.calls[step.call], Resumed(s.calls[step.call].kind, s.recs[r], step.outcome);
            && (p.kind.Submitting? ==> Settled(o))
            && (!p.kind.Submitting? ==> s.recs[r].brokerId.Some? && o.brokerId.Some?)
  {
    hide SentOnce, RecordAgrees;
    assert CallAgrees(s, s.calls[step.call]);
  }

  lemma StepKeepsSettled(s: Sys, step: Step, capacity: nat)
    requires Agreement(s) && ReturnedAreSettled(s) && BrokerStep(s, step)
    ensures Enabled(s, step) && ReturnedAreSettled(Next(s, step, capacity))
  {
    CallFrame(s, step, capacity);
    ReturnedWas(s, step, capacity);
    var t := Next(s, step, capacity);
    hide Next, Enabled, BrokerStep, Settled;
    forall c: nat | Returned(t, c) ensures Settled(t.recs[t.calls[c].rec]) {
      SentOnceRecs(s, c);
      assert !Unsent(s.recs[s.calls[c].rec].status);
      SettledStep(s, step, capacity, s.calls[c].rec);
    }
  }

  /** A submission that has come back had done so before, or does so now. */
  lemma ReturnedWas(s: Sys, step: Step, capacity: nat)
    requires Enabled(s, step) && SentOnce(s)
    ensures forall c: nat | Returned(Next(s, step, capacity), c) ::
              c < |s.calls| && s.calls[c].kind == Submitting && (Returned(s, c) || (step.Return? && step.call == c))
    ensures forall c: nat | Returned(s, c) :: Returned(Next(s, step, capacity), c)
  {
    CallFrame(s, step, capacity);
    hide Filed, RegPruned, Lookup, SubmitEnd, ReconcileEnd, CancelEnd, Transition, SentOnce;
  }

  lemma StepKeepsTruthful(s: Sys, step: Step, capacity: nat)
    requires Truthful(s) && BrokerStep(s, step)
    ensures Enabled(s, step) && Truthful(Next(s, step, capacity))
  {
    hide Agreement, PlacedAreFilled, ReturnedAreSettled, BrokerStep, Enabled, Next;
    StepKeepsAgreement(s, step, capacity);
    StepKeepsPlaced(s, step, capacity);
    StepKeepsSettled(s, step, capacity);
  }

  lemma {:induction false} RunKeepsTruthful(s: Sys, steps: seq<Step>, capacity: nat)
    requires Truthful(s) && BrokerRun(s, steps, capacity)
    ensures Runs(s, steps, capacity) && Truthful(End(s, steps, capacity))
    decreases |steps|
  {
    hide Truthful, Next, BrokerStep;
    if steps == [] {
    } else {
      StepKeepsTruthful(s, steps[0], capacity);
      RunKeepsTruthful(Next(s, steps[0], capacity), steps[1..], capacity);
    }
  }

  // ---------------------------------------------------------------- a released reservation and the broker's fill

  /** The broker holds a fill of the order. */
  ghost predicate HoldsFill(s: Sys, r: nat) {
    exists c :: 0 <= c < |s.calls| && IsSubmitOf(s.calls[c], r) && s.calls[c].brokerId.Some?
                && s.calls[c].brokerId.value in s.book
                && s.book[s.calls[c].brokerId.value].status in {Filled, PartiallyFilled}
                && s.book[s.calls[c].brokerId.value].fillQuantity > 0
  }

  /** What becomes of the reservation of a submission that has come back. */
  ghost function Fate(s: Sys, c: nat): Disposition
    requires Returned(s, c)
  {
    DispositionOf(s.recs[s.calls[c].rec].status)
  }

  lemma HoldsFillIff(s: Sys, c: nat)
    requires Truthful(s) && Returned(s, c) && s.recs[s.calls[c].rec].quantity > 0
    ensures HoldsFill(s, s.calls[c].rec) <==> s.calls[c].brokerId.Some?
  {
    var r := s.calls[c].rec;
    assert IsSubmitOf(s.calls[c], r);
    if HoldsFill(s, r) {
      var d :| 0 <= d < |s.calls| && IsSubmitOf(s.calls[d], r) && s.calls[d].brokerId.Some?;
      assert d == c;
    }
  }

  /** What becomes of the reservation, by the record and the book. */
  lemma FateIs(s: Sys, c: nat)
    requires Truthful(s) && Returned(s, c)
    ensures var r := s.calls[c].rec; var o := s.recs[r];
            && (Fate(s, c).Released? <==> o.brokerId.None?)
            && (o.brokerId.Some? ==>
                  && o.brokerId.value in s.book
                  && var e := s.book[o.brokerId.value];
                  && o.fillPrice == Some(e.fillPrice) && e.status in {Filled, PartiallyFilled}
                  && (Fate(s, c).Consumed? ==> e.status == Filled && e.fillQuantity == o.quantity)
                  && (!BeingCancelled(s, r) ==>
                        && (Fate(s, c).Consumed? <==> e.status == Filled)
                        && (Fate(s, c).StillReserved? <==> e.status == PartiallyFilled)))
  {
    var r := s.calls[c].rec;
    assert RecordAgrees(s, r) && Settled(s.recs[r]);
    hide Agreement, PlacedAreFilled, ReturnedAreSettled, BeingCancelled;
  }

  /**
    On every run: the reservation of a submission that has come back is given back exactly when the order has no broker
    id; and the broker then holds a fill of it exactly when the submission reached the broker, whatever came back.
  */
  lemma ReleasedHoldsNoFillIff(steps: seq<Step>, capacity: nat, c: nat)
    requires BrokerRun(INIT, steps, capacity) && Runs(INIT, steps, capacity)
    requires Returned(End(INIT, steps, capacity), c)
    ensures var s := End(INIT, steps, capacity); var r := s.calls[c].rec;
            && (Fate(s, c).Released? <==> s.recs[r].brokerId.None?)
            && (s.recs[r].quantity > 0 ==> (HoldsFill(s, r) <==> s.calls[c].brokerId.Some?))
  {
    RunKeepsTruthful(INIT, steps, capacity);
    FateIs(End(INIT, steps, capacity), c);
    hide BrokerRun, Runs, End, RecordAgrees, Agreement, PlacedAreFilled, ReturnedAreSettled, BeingCancelled, HoldsFill;
    var s := End(INIT, steps, capacity);
    if s.recs[s.calls[c].rec].quantity > 0 { HoldsFillIff(s, c); }
  }

  /** A consumed reservation pays for a fill of the whole order. */
  lemma ConsumedIsFilled(steps: seq<Step>, capacity: nat, c: nat)
    requires BrokerRun(INIT, steps, capacity) && Runs(INIT, steps, capacity)
    requires Returned(End(INIT, steps, capacity), c) && Fate(End(INIT, steps, capacity), c).Consumed?
    ensures var s := End(INIT, steps, capacity); var o := s.recs[s.calls[c].rec];
            && o.brokerId.Some? && o.brokerId.value in s.book
            && s.book[o.brokerId.value].status == Filled && s.book[o.brokerId.value].fillQuantity == o.quantity
            && o.fillPrice == Some(s.book[o.brokerId.value].fillPrice)
  {
    RunKeepsTruthful(INIT, steps, capacity);
    FateIs(End(INIT, steps, capacity), c);
    hide BrokerRun, Runs, End, RecordAgrees, Agreement, PlacedAreFilled, ReturnedAreSettled, BeingCancelled, HoldsFill;
  }

  /** With no cancel under way, a reservation is consumed exactly when the broker filled the order under its id. */
  lemma ConsumedIff(steps: seq<Step>, capacity: nat, c: nat)
    requires BrokerRun(INIT, steps, capacity) && Runs(INIT, steps, capacity)
    requires var s := End(INIT, steps, capacity); Returned(s, c) && !BeingCancelled(s, s.calls[c].rec)
    ensures var s := End(INIT, steps, capacity); var o := s.recs[s.calls[c].rec];
            && (Fate(s, c).Consumed? <==>
                  o.brokerId.Some? && o.brokerId.value in s.book && s.book[o.brokerId.value].status == Filled)
            && (Fate(s, c).StillReserved? <==>
                  o.brokerId.Some? && o.brokerId.value in s.book && s.book[o.brokerId.value].status == PartiallyFilled)
  {
    RunKeepsTruthful(INIT, steps, capacity);
    FateIs(End(INIT, steps, capacity), c);
    hide BrokerRun, Runs, End, RecordAgrees, Agreement, PlacedAreFilled, ReturnedAreSettled, BeingCancelled, HoldsFill;
  }

  /** Nothing that follows finds the fill: the order never gets a broker id, so no reconciliation asks about it. */
  lemma {:induction false} ReleasedStaysReleased(s: Sys, later: seq<Step>, capacity: nat, c: nat)
    requires Truthful(s) && BrokerRun(s, later, capacity) && Returned(s, c) && Fate(s, c).Released?
    ensures Runs(s, later, capacity)
    ensures var t := End(s, later, capacity);
            && Returned(t, c) && Fate(t, c).Released? && t.calls[c].rec == s.calls[c].rec
            && t.recs[t.calls[c].rec].brokerId.None? && !ReconcileAsks(t.recs[t.calls[c].rec])
    decreases |later|
  {
    var r := s.calls[c].rec;
    assert s.recs[r].brokerId.None? by { assert RecordAgrees(s, r); }
    if later == [] {
    } else {
      var t := Next(s, later[0], capacity);
      ReleasedStep(s, later[0], capacity, c);
      StepKeepsTruthful(s, later[0], capacity);
      hide Next, Truthful, BrokerStep, ReconcileAsks;
      ReleasedStaysReleased(t, later[1..], capacity, c);
    }
  }

  lemma ReleasedStep(s: Sys, step: Step, capacity: nat, c: nat)
    requires Truthful(s) && BrokerStep(s, step) && Returned(s, c) && Fate(s, c).Released?
    ensures Enabled(s, step)
    ensures var t := Next(s, step, capacity);
            Returned(t, c) && t.calls[c].rec == s.calls[c].rec && Fate(t, c).Released?
  {
    var r := s.calls[c].rec;
    assert RecordAgrees(s, r) && IsSubmitOf(s.calls[c], r);
    SettledStep(s, step, capacity, r);
    ReturnedWas(s, step, capacity);
    CallFrame(s, step, capacity);
    assert step.Return? ==> s.calls[step.call].live;
    hide Next, Agreement, BrokerStep;
  }

  // ------------------------------------------------------------- nothing the order manager keeps tells the two apart

  const APPROVED := MoveTo(0, RiskApproved, NO_META)
  const REACHED := Place(0, "b0", Entry(Filled, 1.0, 1))
  const SENT_ORDER := FIRST_ORDER.(status := Submitted, attempts := 1)

  /** The ways a submission ends without an answer that says what became of it. */
  predicate Unanswered(outcome: Outcome) { outcome == Timeout || outcome == Failure || outcome == DENIED }

  function Lost(outcome: Outcome): seq<Step> { [FIRST_ASKS, APPROVED, CallSubmit(0), Return(0, outcome)] }

  function Reached(outcome: Outcome): seq<Step> {
    [FIRST_ASKS, APPROVED, CallSubmit(0), REACHED, Return(0, outcome)]
  }

  /** The submission is under way, and has reached the broker if there is a broker id. */
  function UnderWay(bid: Option<string>): Sys {
    Sys([SENT_ORDER], FirstFiled(), [Pending(Submitting, 0, bid, true)],
        if bid.Some? then map[bid.value := Entry(Filled, 1.0, 1)] else map[], {})
  }

  /** It has come back. */
  function GivenUp(bid: Option<string>, outcome: Outcome): Sys {
    UnderWay(bid).(
      recs := [SubmitEnd(SENT_ORDER, outcome)], calls := [Pending(Submitting, 0, bid, false)],
      ended := if outcome == DENIED then {0} else {})
  }

  lemma ApprovalStep(s: Sys, capacity: nat)
    requires s == Sys([FIRST_ORDER], FirstFiled(), [], map[], {})
    ensures BrokerStep(s, APPROVED) && Enabled(s, APPROVED)
    ensures Next(s, APPROVED, capacity) == s.(recs := [FIRST_ORDER.(status := RiskApproved)])
  {
    hide FirstFiled, PaperStep;
  }

  lemma SendStep(s: Sys, capacity: nat)
    requires s == Sys([FIRST_ORDER.(status := RiskApproved)], FirstFiled(), [], map[], {})
    ensures BrokerStep(s, CallSubmit(0)) && Enabled(s, CallSubmit(0))
    ensures Next(s, CallSubmit(0), capacity) == UnderWay(None)
  {
    hide FirstFiled;
  }

  lemma ReachStep(capacity: nat)
    ensures var s := UnderWay(None);
            && BrokerStep(s, REACHED) && Enabled(s, REACHED)
            && Next(s, REACHED, capacity) == UnderWay(Some("b0"))
  {
    hide FirstFiled;
  }

  lemma GiveUpStep(bid: Option<string>, outcome: Outcome, capacity: nat)
    requires Unanswered(outcome)
    ensures var s, step := UnderWay(bid), Return(0, outcome);
            && BrokerStep(s, step) && Enabled(s, step)
            && Next(s, step, capacity) == GivenUp(bid, outcome)
  {
    hide FirstFiled;
  }

  lemma BrokerRunCons(s: Sys, step: Step, t: Sys, later: seq<Step>, capacity: nat) returns (steps: seq<Step>)
    requires BrokerStep(s, step) && Enabled(s, step) && t == Next(s, step, capacity)
    requires BrokerRun(t, later, capacity) && Runs(t, later, capacity)
    ensures steps == [step] + later && BrokerRun(s, steps, capacity)
    ensures Runs(s, steps, capacity) && End(s, steps, capacity) == End(t, later, capacity)
  {
    steps := RunCons(s, step, t, later, capacity);
    assert steps[0] == step && steps[1..] == later;
    hide Next, Enabled, BrokerStep;
  }

  /** The order is asked for, approved and sent; what comes next is open. */
  lemma SentRun(later: seq<Step>, capacity: nat) returns (steps: seq<Step>)
    requires var s := UnderWay(None); BrokerRun(s, later, capacity) && Runs(s, later, capacity)
    ensures steps == [FIRST_ASKS] + ([APPROVED] + ([CallSubmit(0)] + later))
    ensures BrokerRun(INIT, steps, capacity) && Runs(INIT, steps, capacity)
    ensures End(INIT, steps, capacity) == End(UnderWay(None), later, capacity)
  {
    var filed := Sys([FIRST_ORDER], FirstFiled(), [], map[], {});
    var approved := filed.(recs := [FIRST_ORDER.(status := RiskApproved)]);
    FirstIsFiled(capacity);
    assert BrokerStep(INIT, FIRST_ASKS);
    ApprovalStep(filed, capacity);
    SendStep(approved, capacity);
    hide Next, Enabled, BrokerStep, Runs, End, UnderWay, FirstFiled, BrokerRun;
    steps := BrokerRunCons(approved, CallSubmit(0), UnderWay(None), later, capacity);
    steps := BrokerRunCons(filed, APPROVED, approved, steps, capacity);
    steps := BrokerRunCons(INIT, FIRST_ASKS, filed, steps, capacity);
  }

  /** Giving up on the submission ends the run. */
  lemma GivenUpRun(bid: Option<string>, outcome: Outcome, capacity: nat) returns (steps: seq<Step>)
    requires Unanswered(outcome)
    ensures steps == [Return(0, outcome)]
    ensures BrokerRun(UnderWay(bid), steps, capacity) && Runs(UnderWay(bid), steps, capacity)
    ensures End(UnderWay(bid), steps, capacity) == GivenUp(bid, outcome)
  {
    GiveUpStep(bid, outcome, capacity);
    RunNil(GivenUp(bid, outcome), capacity);
    BrokerRunNil(GivenUp(bid, outcome), capacity);
    hide Next, Enabled, BrokerStep, Runs, End, UnderWay, GivenUp, BrokerRun;
    steps := BrokerRunCons(UnderWay(bid), Return(0, outcome), GivenUp(bid, outcome), [], capacity);
  }

  lemma LostRun(outcome: Outcome, capacity: nat)
    requires Unanswered(outcome)
    ensures BrokerRun(INIT, Lost(outcome), capacity) && Runs(INIT, Lost(outcome), capacity)
    ensures End(INIT, Lost(outcome), capacity) == GivenUp(None, outcome)
  {
    hide BrokerRun, Runs, End, UnderWay, GivenUp;
    var steps := GivenUpRun(None, outcome, capacity);
    steps := SentRun(steps, capacity);
    assert steps == Lost(outcome);
  }

  lemma ReachedRun(outcome: Outcome, capacity: nat)
    requires Unanswered(outcome)
    ensures BrokerRun(INIT, Reached(outcome), capacity) && Runs(INIT, Reached(outcome), capacity)
    ensures End(INIT, Reached(outcome), capacity) == GivenUp(Some("b0"), outcome)
  {
    ReachStep(capacity);
    hide BrokerRun, Runs, End, UnderWay, GivenUp, Next, Enabled, BrokerStep;
    var steps := GivenUpRun(Some("b0"), outcome, capacity);
    steps := BrokerRunCons(UnderWay(None), REACHED, UnderWay(Some("b0")), steps, capacity);
    steps := SentRun(steps, capacity);
    assert steps == Reached(outcome);
  }

  lemma LostSubmission(outcome: Outcome)
    requires Unanswered(outcome)
    ensures var s := GivenUp(None, outcome); Returned(s, 0) && Fate(s, 0).Released? && !HoldsFill(s, 0)
  {
    hide FirstFiled;
  }

  lemma ReachedSubmission(outcome: Outcome)
    requires Unanswered(outcome)
    ensures var s := GivenUp(Some("b0"), outcome); Returned(s, 0) && Fate(s, 0).Released? && HoldsFill(s, 0)
  {
    hide FirstFiled;
    assert IsSubmitOf(GivenUp(Some("b0"), outcome).calls[0], 0);
  }

  /**
    However a submission goes unanswered, two runs end alike for the order manager, with the very same records and
    keys, and `create_order` releases both reservations; but the one that reached the broker holds the whole fill.
  */
  lemma ReleasedOrderMayBeFilled(outcome: Outcome, capacity: nat)
    requires Unanswered(outcome)
    ensures BrokerRun(INIT, Lost(outcome), capacity) && Runs(INIT, Lost(outcome), capacity)
    ensures BrokerRun(INIT, Reached(outcome), capacity) && Runs(INIT, Reached(outcome), capacity)
    ensures var s, t := End(INIT, Lost(outcome), capacity), End(INIT, Reached(outcome), capacity);
            && s.recs == t.recs && s.reg == t.reg && s.ended == t.ended
            && Returned(s, 0) && Fate(s, 0).Released? && !HoldsFill(s, 0)
            && Returned(t, 0) && Fate(t, 0).Released? && HoldsFill(t, 0)
  {
    LostRun(outcome, capacity);
    ReachedRun(outcome, capacity);
    LostSubmission(outcome);
    ReachedSubmission(outcome);
    hide BrokerRun, Runs, End, UnderWay, Lost, Reached, HoldsFill, Returned, Fate;
  }

  lemma BrokerRunNil(s: Sys, capacity: nat)
    ensures BrokerRun(s, [], capacity)
  {}
}
