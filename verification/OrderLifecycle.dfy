/**
  The order status machine of `execution.py`: the transition table, and what each half of an
  asynchronous call, split at its `await`, writes to the record.
*/
module OrderLifecycle {
  import opened Text

  datatype Status =
    | Created | RiskApproved | Submitted | Acknowledged | PartiallyFilled | Filled
    | Rejected | Cancelled | TimedOut | Unknown | Reconciling | CancelPending
    | ExitTriggered | ExitSubmitted | ExitPartiallyFilled | ExitFilled
    | ExitRejected | ExitBlockedByCircuit | ExitNetworkUnknown | ExitRetrying
    | OrphanedAlert | Closed

  /** ALLOWED_TRANSITIONS. */
  function Allowed(s: Status): set<Status> {
    match s
    case Created => {RiskApproved, Rejected, Cancelled}
    case RiskApproved => {Submitted, Rejected, Cancelled}
    case Submitted => {Acknowledged, PartiallyFilled, Filled, Rejected, TimedOut, Unknown, CancelPending}
    case Acknowledged => {PartiallyFilled, Filled, Rejected, CancelPending, TimedOut}
    case PartiallyFilled => {Filled, CancelPending, TimedOut, Unknown, Reconciling}
    case Filled => {Closed, Reconciling}
    case Rejected => {Closed, Reconciling}
    case Cancelled => {Closed, Reconciling}
    case TimedOut => {Reconciling, CancelPending, Closed, Unknown}
    case Unknown => {Reconciling, Closed}
    case Reconciling => {Filled, Rejected, Cancelled, Unknown, Closed, PartiallyFilled}
    case CancelPending => {Cancelled, Reconciling, TimedOut, Filled, PartiallyFilled}
    case ExitTriggered => {ExitSubmitted, ExitRejected}
    case ExitSubmitted =>
      {ExitFilled, ExitPartiallyFilled, ExitRejected, ExitBlockedByCircuit, ExitNetworkUnknown, TimedOut}
    case ExitPartiallyFilled => {ExitFilled, ExitRetrying, OrphanedAlert}
    case ExitFilled => {Closed}
    case ExitRejected => {ExitRetrying, Reconciling, OrphanedAlert}
    case ExitBlockedByCircuit => {ExitRetrying, Reconciling, OrphanedAlert}
    case ExitNetworkUnknown => {Reconciling, ExitRetrying, OrphanedAlert}
    case ExitRetrying => {ExitSubmitted, OrphanedAlert, Reconciling}
    case OrphanedAlert => {ExitRetrying, Reconciling, Closed}
    case Closed => {}
  }

  /** The statuses `submit` accepts. */
  predicate Unsent(s: Status) { s == Created || s == RiskApproved }

  /** The statuses whose records the registry may prune. */
  predicate Prunable(s: Status) { s == Closed || s == Rejected || s == Cancelled }

  /** A client order id prints without a colon. */
  type Uuid = s: string | ':' !in s

  datatype Order = Order(
    account: string, cid: Uuid, quantity: int, expectedPrice: Option<real>,
    status: Status, brokerId: Option<string>, fillPrice: Option<real>, fillQuantity: int,
    slippage: Option<real>, attempts: nat)
  {
    predicate HasBrokerId() { brokerId.Some? && brokerId.value != "" }
  }

  function NewOrder(account: string, cid: Uuid, quantity: int, expectedPrice: Option<real>): Order {
    Order(account, cid, quantity, expectedPrice, Created, None, None, 0, None, 0)
  }

  /** A number as it was sent: what it parses to, if anything, and whether Python takes it for true. */
  datatype Field<+T> = Field(parsed: Option<T>, truthy: bool)

  function Sent<T>(x: T): Field<T> { Field(Some(x), true) }

  predicate Unparsable<T>(f: Option<Field<T>>) { f.Some? && f.value.parsed.None? }

  /** A broker's answer; an absent key is `None`. */
  datatype Reply = Reply(brokerId: Option<string>, status: Option<Status>, fillPrice: Option<Field<real>>,
      fillQuantity: Option<Field<int>>)

  /** How an awaited broker call ends. */
  datatype Outcome = Answer(reply: Reply) | Timeout | Failure

  /** The metadata of `transition`; a key may be there with a null broker id. */
  datatype Meta = Meta(brokerId: Option<Option<string>>, fillPrice: Option<Field<real>>,
      fillQuantity: Option<Field<int>>, slippage: Option<Field<real>>)

  function GetOr<T>(o: Option<T>, default: T): T { if o.Some? then o.value else default }

  /** What a field parses to, or the value there was when it is absent. */
  function ParsedOr<T>(f: Option<Field<T>>, before: Option<T>): Option<T> { if f.Some? then f.value.parsed else before }

  function QuantityOr(f: Option<Field<int>>, before: int): int {
    if f.Some? && f.value.parsed.Some? then f.value.parsed.value else before
  }

  function SubmitBegin(o: Order): Option<Order> {
    if Unsent(o.status) then Some(o.(status := Submitted, attempts := o.attempts + 1)) else None
  }

  /**
    A field that does not parse raises where it is read, and the handler then writes UNKNOWN over what was assigned.
  */
  function SubmitEnd(o: Order, outcome: Outcome): Order {
    match outcome
    case Timeout => o.(status := TimedOut)
    case Failure => o.(status := Unknown)
    case Answer(r) =>
      var identified := o.(brokerId := r.brokerId);
      if Unparsable(r.fillPrice) then identified.(status := Unknown)
      else
        var price := ParsedOr(r.fillPrice, None);
        var priced := identified.(
          slippage :=
            if price.Some? && o.expectedPrice.Some? then Some(price.value - o.expectedPrice.value) else o.slippage,
          fillPrice := price);
        if Unparsable(r.fillQuantity) then priced.(status := Unknown)
        else priced.(
          fillQuantity := QuantityOr(r.fillQuantity, o.quantity),
          status := match r.status
                    case Some(Filled) => Filled
                    case Some(PartiallyFilled) => PartiallyFilled
                    case Some(Rejected) => Rejected
                    case _ => Acknowledged)
  }

  predicate Reconcilable(s: Status) { s == TimedOut || s == Unknown || s == Reconciling }

  /** Whether `reconcile` gets as far as asking the broker. */
  predicate ReconcileAsks(o: Order) { Reconcilable(o.status) && o.HasBrokerId() }

  function ReconcileBegin(o: Order): Order {
    if !Reconcilable(o.status) then o
    else if o.HasBrokerId() then o.(status := Reconciling)
    else o.(status := Unknown)
  }

  /**
    A record given the broker's fill: a price that is false in Python is passed over, and `failed` is written when one
    does not parse.
  */
  function WithFill(o: Order, r: Reply, status: Status, failed: Status): Order {
    if r.fillPrice.Some? && r.fillPrice.value.truthy && r.fillPrice.value.parsed.None? then o.(status := failed)
    else
      var priced := if r.fillPrice.Some?
          && r.fillPrice.value.truthy then o.(fillPrice := r.fillPrice.value.parsed) else o;
      if Unparsable(r.fillQuantity) then priced.(status := failed)
      else priced.(status := status, fillQuantity := QuantityOr(r.fillQuantity, o.fillQuantity))
  }

  function ReconcileEnd(o: Order, outcome: Outcome): Order {
    if !outcome.Answer? then o.(status := Unknown)
    else match outcome.reply.status
      case Some(Filled) => WithFill(o, outcome.reply, Filled, Unknown)
      case Some(PartiallyFilled) => o.(status := PartiallyFilled)
      case Some(Rejected) => o.(status := Rejected)
      case Some(Cancelled) => o.(status := Cancelled)
      case _ => o.(status := Unknown)
  }

  function CancelBegin(o: Order): Order {
    if o.HasBrokerId() then o.(status := CancelPending) else o.(status := Cancelled)
  }

  function CancelEnd(o: Order, outcome: Outcome): Order {
    if !outcome.Answer? then o.(status := Reconciling)
    else match outcome.reply.status
      case Some(Filled) => WithFill(o, outcome.reply, Filled, Reconciling)
      case Some(PartiallyFilled) => WithFill(o, outcome.reply, PartiallyFilled, Reconciling)
      case Some(Cancelled) => o.(status := Cancelled)
      case _ => o.(status := Reconciling)
  }

  /** The metadata assigned in order, up to the first field that does not parse. */
  function WithMeta(o: Order, m: Meta): Order {
    var identified := if m.brokerId.Some? then o.(brokerId := m.brokerId.value) else o;
    if Unparsable(m.fillPrice) then identified
    else
      var priced := identified.(fillPrice := ParsedOr(m.fillPrice, o.fillPrice));
      if Unparsable(m.fillQuantity) then priced
      else
        var counted := priced.(fillQuantity := QuantityOr(m.fillQuantity, o.fillQuantity));
        if Unparsable(m.slippage) then counted else counted.(slippage := ParsedOr(m.slippage, o.slippage))
  }

  predicate Parses(m: Meta) { !Unparsable(m.fillPrice) && !Unparsable(m.fillQuantity) && !Unparsable(m.slippage) }

  /** `transition`: idempotent, else an edge of the table or a refusal (`None`); the metadata is then applied. */
  function Transition(o: Order, to: Status, meta: Meta): Option<Order> {
    if o.status == to then Some(o)
    else if to !in Allowed(o.status) then None
    else Some(WithMeta(o.(status := to), meta))
  }

  // ---------------------------------------------------------------- direct status writes against the table

  /** Consecutive statuses stay put or follow an edge. */
  predicate Legal(path: seq<Status>) {
    forall i | 0 <= i < |path| - 1 :: path[i + 1] == path[i] || path[i + 1] in Allowed(path[i])
  }

  /** A whole call on one order, with the outcome of its broker call. */
  datatype Call = Submit(outcome: Outcome) | Reconcile(outcome: Outcome) | Cancel(outcome: Outcome)
                | Move(to: Status, meta: Meta)

  /** The order after a whole call; a call that raises leaves it as it was. */
  function After(o: Order, call: Call): Order {
    match call
    case Submit(out) => (match SubmitBegin(o) case Some(p) => SubmitEnd(p, out) case None => o)
    case Reconcile(out) => if ReconcileAsks(o) then ReconcileEnd(ReconcileBegin(o), out) else ReconcileBegin(o)
    case Cancel(out) => if o.HasBrokerId() then CancelEnd(CancelBegin(o), out) else CancelBegin(o)
    case Move(to, meta) => (match Transition(o, to, meta) case Some(p) => p case None => o)
  }

  /** Every status the call writes, in order. `reconcile` writes RECONCILING before it looks for a broker id. */
  function Writes(o: Order, call: Call): seq<Status> {
    match call
    case Submit(out) => if SubmitBegin(o).Some? then [Submitted, After(o, call).status] else []
    case Reconcile(out) => if Reconcilable(o.status) then [Reconciling, After(o, call).status] else []
    case Cancel(out) => if o.HasBrokerId() then [CancelPending, After(o, call).status] else [Cancelled]
    case Move(to, meta) => if o.status != to && Transition(o, to, meta).Some? then [to] else []
  }

  /** When a call follows the table, in terms a caller can check first. */
  predicate OnTable(o: Order, call: Call) {
    match call
    case Submit(_) => o.status != Created
    case Cancel(_) =>
      if o.HasBrokerId() then o.status == CancelPending || CancelPending in Allowed(o.status)
      else o.status in {Created, RiskApproved, Reconciling, CancelPending, Cancelled}
    case _ => true
  }

  /** Exactly the calls in `OnTable` keep to the table, whatever the broker answers. */
  lemma CallIsLegalIff(o: Order, call: Call)
    ensures Legal([o.status] + Writes(o, call)) <==> OnTable(o, call)
    ensures ([o.status] + Writes(o, call))[|Writes(o, call)|] == After(o, call).status
  {
    var path := [o.status] + Writes(o, call);
    if |path| > 1 { assert path[1] == Writes(o, call)[0]; }
    if |path| > 2 { assert path[2] == Writes(o, call)[1]; }
    if !OnTable(o, call) {
      assert path[0 + 1] != path[0] && path[0 + 1] !in Allowed(path[0]);
    }
  }

  /** `submit` takes an order that is only CREATED off the table, whatever the broker answers. */
  lemma SubmitFromCreatedLeavesTable(o: Order, outcome: Outcome)
    requires o.status == Created
    ensures !Legal([o.status] + Writes(o, Submit(outcome)))
  {
    CallIsLegalIff(o, Submit(outcome));
  }

  predicate GuardedRun(o: Order, calls: seq<Call>)
    decreases |calls|
  {
    calls != [] ==> OnTable(o, calls[0]) && GuardedRun(After(o, calls[0]), calls[1..])
  }

  function History(o: Order, calls: seq<Call>): (h: seq<Status>)
    ensures h != [] && h[0] == o.status
    decreases |calls|
  {
    if calls == [] then [o.status]
    else [o.status] + Writes(o, calls[0]) + History(After(o, calls[0]), calls[1..])
  }

  /** Over every run of guarded calls, the whole status history of an order is a walk in the table. */
  lemma {:induction false} GuardedHistoryIsLegal(o: Order, calls: seq<Call>)
    requires GuardedRun(o, calls)
    ensures Legal(History(o, calls))
    decreases |calls|
  {
    if calls == [] {
    } else {
      var head, rest := [o.status] + Writes(o, calls[0]), History(After(o, calls[0]), calls[1..]);
      CallIsLegalIff(o, calls[0]);
      GuardedHistoryIsLegal(After(o, calls[0]), calls[1..]);
      LegalAppend(head, rest);
    }
  }

  lemma LegalAppend(a: seq<Status>, b: seq<Status>)
    requires a != [] && b != [] && a[|a| - 1] == b[0] && Legal(a) && Legal(b)
    ensures Legal(a + b)
  {
    var c := a + b;
    forall i | 0 <= i < |c| - 1 ensures c[i + 1] == c[i] || c[i + 1] in Allowed(c[i]) {
      if i >= |a| { assert c[i] == b[i - |a|] && c[i + 1] == b[i - |a| + 1]; }
    }
  }

  /** No walk in the table leads back to a status from which an order can be sent. */
  lemma {:induction false} NoWayBackToUnsent(path: seq<Status>, i: nat, j: nat)
    requires Legal(path) && i <= j < |path| && !Unsent(path[i])
    ensures !Unsent(path[j])
    decreases j - i
  {
    if i == j {
    } else {
      assert path[i + 1] == path[i] || path[i + 1] in Allowed(path[i]);
      NoWayBackToUnsent(path, i + 1, j);
    }
  }

  /** Closed is final. */
  lemma {:induction false} ClosedIsFinal(path: seq<Status>, i: nat, j: nat)
    requires Legal(path) && i <= j < |path| && path[i] == Closed
    ensures path[j] == Closed
    decreases j - i
  {
    if i == j {
    } else {
      assert path[i + 1] == path[i] || path[i + 1] in Allowed(path[i]);
      ClosedIsFinal(path, i + 1, j);
    }
  }
}
