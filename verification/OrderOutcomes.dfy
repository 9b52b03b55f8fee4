/**
  What each half of a call leaves in the record, field by field: the broker's words on one side, the record's on the
  other.  The methods of the order manager and the functions of its runs are both held to it.
*/
module OrderOutcomes {
  import opened Text
  import opened OrderLifecycle

  /** Who the order is, and how often it was sent. */
  predicate SameAsked(a: Order, b: Order) {
    && a.account == b.account && a.cid == b.cid && a.quantity == b.quantity && a.expectedPrice == b.expectedPrice
    && a.attempts == b.attempts
  }

  /** And its fill. */
  predicate SameFill(a: Order, b: Order) {
    a.brokerId == b.brokerId && a.fillPrice == b.fillPrice && a.fillQuantity == b.fillQuantity
        && a.slippage == b.slippage
  }

  predicate Garbled<T>(f: Option<Field<T>>) { f.Some? && f.value.parsed.None? }

  // ---------------------------------------------------------------- submission

  /** A submission is begun from two statuses only, and once begun has one more attempt. */
  predicate BeginsSubmit(before: Order, ok: bool, after: Order) {
    && (ok <==> before.status == Created || before.status == RiskApproved)
    && (!ok ==> after == before)
    && (ok ==> after == before.(status := Submitted, attempts := before.attempts + 1))
  }

  /** The record after an answer, in the reply's own fields. */
  predicate TakesReply(before: Order, r: Reply, after: Order) {
    && SameAsked(before, after) && after.brokerId == r.brokerId
    && (Garbled(r.fillPrice) ==>
          && after.status == Unknown && after.fillPrice == before.fillPrice
          && after.fillQuantity == before.fillQuantity && after.slippage == before.slippage)
    && (!Garbled(r.fillPrice) ==>
          && (r.fillPrice.None? ==> after.fillPrice.None? && after.slippage == before.slippage)
          && (r.fillPrice.Some? ==>
                && after.fillPrice == r.fillPrice.value.parsed
                && (before.expectedPrice.None? ==> after.slippage == before.slippage)
                && (before.expectedPrice.Some? ==>
                      after.slippage == Some(r.fillPrice.value.parsed.value - before.expectedPrice.value)))
          && (Garbled(r.fillQuantity) ==> after.status == Unknown && after.fillQuantity == before.fillQuantity)
          && (r.fillQuantity.None? ==> after.fillQuantity == before.quantity)
          && (r.fillQuantity.Some? && !Garbled(r.fillQuantity) ==>
              Some(after.fillQuantity) == r.fillQuantity.value.parsed))
    && (!Garbled(r.fillPrice) && !Garbled(r.fillQuantity) ==>
          && (r.status == Some(Filled) ==> after.status == Filled)
          && (r.status == Some(PartiallyFilled) ==> after.status == PartiallyFilled)
          && (r.status == Some(Rejected) ==> after.status == Rejected)
          && (r.status !in {Some(Filled), Some(PartiallyFilled), Some(Rejected)} ==> after.status == Acknowledged))
  }

  /** The record after a submission, however it ends. */
  predicate EndsSubmit(before: Order, outcome: Outcome, after: Order) {
    && (outcome.Timeout? ==> SameAsked(before, after) && SameFill(before, after) && after.status == TimedOut)
    && (outcome.Failure? ==> SameAsked(before, after) && SameFill(before, after) && after.status == Unknown)
    && (outcome.Answer? ==> TakesReply(before, outcome.reply, after))
  }

  lemma SubmitEnds(o: Order, outcome: Outcome)
    ensures BeginsSubmit(o, SubmitBegin(o).Some?, GetOr(SubmitBegin(o), o))
    ensures EndsSubmit(o, outcome, SubmitEnd(o, outcome))
  {
  }

  /** A rejection that names no quantity leaves the record rejected, with its whole quantity as filled. */
  lemma RejectionRecordsAFill(o: Order, r: Reply)
    requires r.status == Some(Rejected) && r.fillPrice.None? && r.fillQuantity.None?
    ensures SubmitEnd(o, Answer(r)).status == Rejected && SubmitEnd(o, Answer(r)).fillQuantity == o.quantity
  {
    SubmitEnds(o, Answer(r));
  }

  // ---------------------------------------------------------------- a fill reported later

  /** A price that is false in Python is passed over; at the first field that does not parse `failed` is written. */
  predicate TakesFill(before: Order, r: Reply, good: Status, failed: Status, after: Order) {
    && SameAsked(before, after) && after.brokerId == before.brokerId && after.slippage == before.slippage
    && var price := r.fillPrice.Some? && r.fillPrice.value.truthy;
    && (price && Garbled(r.fillPrice) ==>
          after.status == failed && after.fillPrice == before.fillPrice && after.fillQuantity == before.fillQuantity)
    && (price && !Garbled(r.fillPrice) ==> after.fillPrice == r.fillPrice.value.parsed)
    && (!price ==> after.fillPrice == before.fillPrice)
    && (!(price && Garbled(r.fillPrice)) ==>
          && (Garbled(r.fillQuantity) ==> after.status == failed && after.fillQuantity == before.fillQuantity)
          && (!Garbled(r.fillQuantity) ==> after.status == good)
          && (r.fillQuantity.None? ==> after.fillQuantity == before.fillQuantity)
          && (r.fillQuantity.Some? && !Garbled(r.fillQuantity) ==>
              Some(after.fillQuantity) == r.fillQuantity.value.parsed))
  }

  predicate OnlyStatus(before: Order, status: Status, after: Order) {
    SameAsked(before, after) && SameFill(before, after) && after.status == status
  }

  lemma FillIs(o: Order, r: Reply, good: Status, failed: Status)
    ensures var priced := r.fillPrice.Some? && r.fillPrice.value.truthy;
            var price := if priced then r.fillPrice.value.parsed else o.fillPrice;
            WithFill(o, r, good, failed)
            == if priced && Garbled(r.fillPrice) then o.(status := failed)
               else if Garbled(r.fillQuantity) then o.(fillPrice := price, status := failed)
               else if r.fillQuantity.None? then o.(fillPrice := price, status := good)
               else o.(fillPrice := price, status := good, fillQuantity := r.fillQuantity.value.parsed.value)
  {
  }

  lemma FillIsTaken(o: Order, r: Reply, good: Status, failed: Status)
    ensures TakesFill(o, r, good, failed, WithFill(o, r, good, failed))
  {
    hide WithFill;
    FillIs(o, r, good, failed);
  }

  // ---------------------------------------------------------------- reconciliation

  /** The broker is asked exactly about an unresolved order with a broker id; without one the order is UNKNOWN. */
  predicate BeginsReconcile(before: Order, asks: bool, after: Order) {
    var unresolved := before.status == TimedOut || before.status == Unknown || before.status == Reconciling;
    var hasId := before.brokerId.Some? && before.brokerId.value != "";
    && (asks <==> unresolved && hasId)
    && (!unresolved ==> after == before)
    && (unresolved && hasId ==> OnlyStatus(before, Reconciling, after))
    && (unresolved && !hasId ==> OnlyStatus(before, Unknown, after))
  }

  /** The record after a query, by what the broker says. */
  predicate EndsReconcile(before: Order, outcome: Outcome, after: Order) {
    && (!outcome.Answer? ==> OnlyStatus(before, Unknown, after))
    && (outcome.Answer? ==>
          && var said := outcome.reply.status;
          && (said == Some(Filled) ==> TakesFill(before, outcome.reply, Filled, Unknown, after))
          && (said == Some(PartiallyFilled) ==> OnlyStatus(before, PartiallyFilled, after))
          && (said == Some(Rejected) ==> OnlyStatus(before, Rejected, after))
          && (said == Some(Cancelled) ==> OnlyStatus(before, Cancelled, after))
          && (said !in {Some(Filled), Some(PartiallyFilled), Some(Rejected), Some(Cancelled)} ==>
                OnlyStatus(before, Unknown, after)))
  }

  lemma ReconcileEnds(o: Order, outcome: Outcome)
    ensures BeginsReconcile(o, ReconcileAsks(o), ReconcileBegin(o))
    ensures EndsReconcile(o, outcome, ReconcileEnd(o, outcome))
  {
    if outcome.Answer? { FillIsTaken(o, outcome.reply, Filled, Unknown); }
    hide WithFill, TakesFill;
  }

  // ---------------------------------------------------------------- cancellation

  /** Without a broker id the order is CANCELLED at once; with one it is CANCEL_PENDING and the broker is asked. */
  predicate BeginsCancel(before: Order, asks: bool, after: Order) {
    && (asks <==> before.brokerId.Some? && before.brokerId.value != "")
    && OnlyStatus(before, if asks then CancelPending else Cancelled, after)
  }

  /** The record after a cancel, by what the broker says: a fill wins, and only CANCELLED cancels. */
  predicate EndsCancel(before: Order, outcome: Outcome, after: Order) {
    && (!outcome.Answer? ==> OnlyStatus(before, Reconciling, after))
    && (outcome.Answer? ==>
          && var said := outcome.reply.status;
          && (said == Some(Filled) ==> TakesFill(before, outcome.reply, Filled, Reconciling, after))
          && (said == Some(PartiallyFilled) ==> TakesFill(before, outcome.reply, PartiallyFilled, Reconciling, after))
          && (said == Some(Cancelled) ==> OnlyStatus(before, Cancelled, after))
          && (said !in {Some(Filled), Some(PartiallyFilled), Some(Cancelled)} ==>
              OnlyStatus(before, Reconciling, after)))
  }

  lemma CancelEnds(o: Order, outcome: Outcome)
    ensures BeginsCancel(o, o.HasBrokerId(), CancelBegin(o))
    ensures EndsCancel(o, outcome, CancelEnd(o, outcome))
  {
    if outcome.Answer? {
      FillIsTaken(o, outcome.reply, Filled, Reconciling);
      FillIsTaken(o, outcome.reply, PartiallyFilled, Reconciling);
    }
    hide WithFill, TakesFill;
  }

  // ---------------------------------------------------------------- metadata

  /** The metadata of a transition, in its own order: what parses is assigned, up to the first field that does not. */
  predicate TakesMeta(before: Order, m: Meta, after: Order) {
    var priced := !Garbled(m.fillPrice);
    var counted := priced && !Garbled(m.fillQuantity);
    var slipped := counted && !Garbled(m.slippage);
    && SameAsked(before, after) && after.status == before.status
    && (if m.brokerId.Some? then after.brokerId == m.brokerId.value else after.brokerId == before.brokerId)
    && (if priced && m.fillPrice.Some? then after.fillPrice == m.fillPrice.value.parsed
        else after.fillPrice == before.fillPrice)
    && (if counted && m.fillQuantity.Some? then Some(after.fillQuantity) == m.fillQuantity.value.parsed
        else after.fillQuantity == before.fillQuantity)
    && (if slipped && m.slippage.Some? then after.slippage == m.slippage.value.parsed
        else after.slippage == before.slippage)
  }

  lemma MetaIsTaken(o: Order, m: Meta)
    ensures TakesMeta(o, m, WithMeta(o, m))
    ensures Parses(m) <==> !Garbled(m.fillPrice) && !Garbled(m.fillQuantity) && !Garbled(m.slippage)
  {
  }

  // ---------------------------------------------------------------- the table, read backwards

  /** The statuses from which the table leads to the given one. */
  function Sources(to: Status): set<Status> {
    match to
    case Created => {}
    case RiskApproved => {Created}
    case Submitted => {RiskApproved}
    case Acknowledged => {Submitted}
    case PartiallyFilled => {Submitted, Acknowledged, Reconciling, CancelPending}
    case Filled => {Submitted, Acknowledged, PartiallyFilled, Reconciling, CancelPending}
    case Rejected => {Created, RiskApproved, Submitted, Acknowledged, Reconciling}
    case Cancelled => {Created, RiskApproved, Reconciling, CancelPending}
    case TimedOut => {Submitted, Acknowledged, PartiallyFilled, CancelPending, ExitSubmitted}
    case Unknown => {Submitted, PartiallyFilled, TimedOut, Reconciling}
    case Reconciling =>
      {PartiallyFilled, Filled, Rejected, Cancelled, TimedOut, Unknown, CancelPending, ExitRejected,
       ExitBlockedByCircuit, ExitNetworkUnknown, ExitRetrying, OrphanedAlert}
    case CancelPending => {Submitted, Acknowledged, PartiallyFilled, TimedOut}
    case ExitTriggered => {}
    case ExitSubmitted => {ExitTriggered, ExitRetrying}
    case ExitPartiallyFilled => {ExitSubmitted}
    case ExitFilled => {ExitSubmitted, ExitPartiallyFilled}
    case ExitRejected => {ExitTriggered, ExitSubmitted}
    case ExitBlockedByCircuit => {ExitSubmitted}
    case ExitNetworkUnknown => {ExitSubmitted}
    case ExitRetrying => {ExitPartiallyFilled, ExitRejected, ExitBlockedByCircuit, ExitNetworkUnknown, OrphanedAlert}
    case OrphanedAlert => {ExitPartiallyFilled, ExitRejected, ExitBlockedByCircuit, ExitNetworkUnknown, ExitRetrying}
    case Closed => {Filled, Rejected, Cancelled, TimedOut, Unknown, Reconciling, ExitFilled, OrphanedAlert}
  }

  /** An edge leaves one status exactly when the other lists it among its sources. */
  lemma TableReadsBackwards(from: Status, to: Status)
    ensures to in Allowed(from) <==> from in Sources(to)
  {
    EdgesOfEntries(from, to);
    EdgesOfUnresolved(from, to);
    EdgesOfExits(from, to);
    EdgesOfTroubledExits(from, to);
    hide Allowed, Sources;
  }

  lemma EdgesOfEntries(from: Status, to: Status)
    ensures from in {Created, RiskApproved, Submitted, Acknowledged, PartiallyFilled, Filled} ==>
              (to in Allowed(from) <==> from in Sources(to))
  {
    match from
    case Created =>
    case RiskApproved =>
    case Submitted =>
    case Acknowledged =>
    case PartiallyFilled =>
    case Filled =>
    case _ =>
  }

  lemma EdgesOfUnresolved(from: Status, to: Status)
    ensures from in {Rejected, Cancelled, TimedOut, Unknown, Reconciling, CancelPending, Closed} ==>
              (to in Allowed(from) <==> from in Sources(to))
  {
    match from
    case Rejected =>
    case Cancelled =>
    case TimedOut =>
    case Unknown =>
    case Reconciling =>
    case CancelPending =>
    case Closed =>
    case _ =>
  }

  lemma EdgesOfExits(from: Status, to: Status)
    ensures from in {ExitTriggered, ExitSubmitted, ExitPartiallyFilled, ExitFilled} ==>
              (to in Allowed(from) <==> from in Sources(to))
  {
    match from
    case ExitTriggered =>
    case ExitSubmitted =>
    case ExitPartiallyFilled =>
    case ExitFilled =>
    case _ =>
  }

  lemma EdgesOfTroubledExits(from: Status, to: Status)
    ensures from in {ExitRejected, ExitBlockedByCircuit, ExitNetworkUnknown, ExitRetrying, OrphanedAlert} ==>
              (to in Allowed(from) <==> from in Sources(to))
  {
    match from
    case ExitRejected =>
    case ExitBlockedByCircuit =>
    case ExitNetworkUnknown =>
    case ExitRetrying =>
    case OrphanedAlert =>
    case _ =>
  }

  /**
    A manual transition: staying put succeeds and changes nothing, a missing edge is refused and changes nothing, and an
    edge is followed and the metadata taken, raising at a field that does not parse.
  */
  predicate Moves(before: Order, to: Status, m: Meta, ok: bool, after: Order) {
    && (before.status == to ==> ok && after == before)
    && (before.status != to && before.status !in Sources(to) ==> !ok && after == before)
    && (before.status != to && before.status in Sources(to) ==>
          && TakesMeta(before.(status := to), m, after)
          && (ok <==> !Garbled(m.fillPrice) && !Garbled(m.fillQuantity) && !Garbled(m.slippage)))
  }

  lemma MoveIsMade(o: Order, to: Status, m: Meta)
    ensures var moved := Transition(o, to, m);
            Moves(o, to, m, moved.Some? && (o.status == to || Parses(m)), GetOr(moved, o))
  {
    TableReadsBackwards(o.status, to);
    MetaIsTaken(o.(status := to), m);
    hide Allowed, Sources, WithMeta, TakesMeta, Parses;
  }
}
