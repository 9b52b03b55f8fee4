/**
  Every interleaving of the order manager's asynchronous calls.  A call runs to its `await`, waits for
  the broker, and resumes later; between the two any other step may run.  Theorems: no record is sent
  twice, the registry stays correct under pruning, and on the paper broker the local record and the
  broker's book agree.
*/
module OrderRuns {
  import opened Text
  import opened OrderLifecycle
  import opened OrderRegistry

  datatype CallKind = Submitting | Querying | Cancelling

  /** A call past its first half; `brokerId` is what a placed order got, or the id a query or cancel carries. */
  datatype Pending = Pending(kind: CallKind, rec: nat, brokerId: Option<string>, live: bool)

  /** The paper broker's book entry for an order. */
  datatype Entry = Entry(status: Status, fillPrice: real, fillQuantity: int)

  /** `ended` remembers the records that were ever closed, rejected or cancelled. */
  datatype Sys = Sys(recs: seq<Order>, reg: Registry<nat>, calls: seq<Pending>, book: map<string, Entry>,
      ended: set<nat>)

  datatype Step =
    | Create(account: string, cid: Uuid, quantity: int, expectedPrice: Option<real>)
    | MoveTo(rec: nat, to: Status, meta: Meta)
    | CallSubmit(rec: nat)
    | CallReconcile(rec: nat)
    | CallCancel(rec: nat)
    | Place(call: nat, brokerId: string, entry: Entry)
    | Return(call: nat, outcome: Outcome)

  const INIT := Sys([], Registry([], map[]), [], map[], {})

  ghost function StatusMap(s: Sys): map<string, Status> {
    map k | k in s.reg.at && s.reg.at[k] < |s.recs| :: s.recs[s.reg.at[k]].status
  }

  ghost function RegPruned(s: Sys, capacity: nat): Registry<nat> { Pruned(s.reg, StatusMap(s), capacity) }

  ghost predicate Enabled(s: Sys, step: Step) {
    match step
    case Create(_, _, _, _) => true
    case MoveTo(r, to, meta) => r < |s.recs| && Transition(s.recs[r], to, meta).Some?
    case CallSubmit(r) => r < |s.recs| && SubmitBegin(s.recs[r]).Some?
    case CallReconcile(r) => r < |s.recs|
    case CallCancel(r) => r < |s.recs|
    case Place(c, _, _) => c < |s.calls| && s.calls[c].kind == Submitting && s.calls[c].brokerId.None?
    case Return(c, _) => c < |s.calls| && s.calls[c].live && s.calls[c].rec < |s.recs|
  }

  /** Write one record, remembering when it ends. */
  function Write(s: Sys, r: nat, o: Order): Sys
    requires r < |s.recs|
  {
    s.(recs := s.recs[r := o], ended := s.ended + if Prunable(o.status) then {r} else {})
  }

  function Resumed(kind: CallKind, o: Order, outcome: Outcome): Order {
    match kind
    case Submitting => SubmitEnd(o, outcome)
    case Querying => ReconcileEnd(o, outcome)
    case Cancelling => CancelEnd(o, outcome)
  }

  function AddCall(s: Sys, p: Pending): Sys { s.(calls := s.calls + [p]) }

  ghost function Next(s: Sys, step: Step, capacity: nat): Sys
    requires Enabled(s, step)
  {
    match step
    case Create(account, cid, quantity, price) =>
      var reg, r := RegPruned(s, capacity), |s.recs|;
      var filed := s.(reg := Filed(reg, account, cid, r));
      if Lookup(reg, account, cid).Some? then filed
      else filed.(recs := s.recs + [NewOrder(account, cid, quantity, price)])
    case MoveTo(r, to, meta) => Write(s, r, Transition(s.recs[r], to, meta).value)
    case CallSubmit(r) => AddCall(Write(s, r, SubmitBegin(s.recs[r]).value), Pending(Submitting, r, None, true))
    case CallReconcile(r) =>
      var w := Write(s, r, ReconcileBegin(s.recs[r]));
      if ReconcileAsks(s.recs[r]) then AddCall(w, Pending(Querying, r, s.recs[r].brokerId, true)) else w
    case CallCancel(r) =>
      var w := Write(s, r, CancelBegin(s.recs[r]));
      if s.recs[r].HasBrokerId() then AddCall(w, Pending(Cancelling, r, s.recs[r].brokerId, true)) else w
    case Place(c, bid, entry) =>
      s.(calls := s.calls[c := s.calls[c].(brokerId := Some(bid))], book := s.book[bid := entry])
    case Return(c, outcome) =>
      var p := s.calls[c];
      Write(s, p.rec, Resumed(p.kind, s.recs[p.rec], outcome))
        .(calls := s.calls[c := p.(live := false)],
          book := if p.kind.Cancelling? && p.brokerId.Some? then CancelBook(s.book, p.brokerId.value) else s.book)
  }

  ghost predicate Runs(s: Sys, steps: seq<Step>, capacity: nat)
    decreases |steps|
  {
    steps != [] ==> Enabled(s, steps[0]) && Runs(Next(s, steps[0], capacity), steps[1..], capacity)
  }

  ghost function End(s: Sys, steps: seq<Step>, capacity: nat): Sys
    requires Runs(s, steps, capacity)
    decreases |steps|
  {
    if steps == [] then s else End(Next(s, steps[0], capacity), steps[1..], capacity)
  }

  // ---------------------------------------------------------------- no order is ever resent

  predicate IsSubmitOf(p: Pending, r: nat) { p.kind == Submitting && p.rec == r }

  /** Each record has been submitted at most once, and one that has is past the statuses `submit` accepts. */
  ghost predicate SentOnce(s: Sys) {
    && (forall c | 0 <= c < |s.calls| :: s.calls[c].rec < |s.recs|)
    && (forall c | 0 <= c < |s.calls| && s.calls[c].kind == Submitting :: !Unsent(s.recs[s.calls[c].rec].status))
    && (forall c, d | 0 <= c < d < |s.calls| && s.calls[c].kind == Submitting ::
          !IsSubmitOf(s.calls[d], s.calls[c].rec))
    && (forall r | 0 <= r < |s.recs| ::
          s.recs[r].attempts <= 1 && (Unsent(s.recs[r].status) ==> s.recs[r].attempts == 0))
  }

  /** Steps only add calls, and only `CallSubmit` adds a submission. */
  lemma CallFrame(s: Sys, step: Step, capacity: nat)
    requires Enabled(s, step)
    ensures var t := Next(s, step, capacity);
            && |s.calls| <= |t.calls| <= |s.calls| + 1
            && (forall c | 0 <= c < |s.calls| :: t.calls[c].kind == s.calls[c].kind && t.calls[c].rec == s.calls[c].rec)
            && (|t.calls| > |s.calls| ==> var p := t.calls[|s.calls|];
                  p.rec < |s.recs| && p.live && (p.kind.Submitting? <==> step == CallSubmit(p.rec)))
            && (step.CallSubmit? ==> |t.calls| > |s.calls| && t.calls[|s.calls|].rec == step.rec)
  {
    hide Filed, RegPruned, Lookup, SubmitEnd, ReconcileEnd, CancelEnd, Allowed;
  }

  /** Who an order is and how often it was sent. */
  predicate SameOrder(a: Order, b: Order) {
    a.account == b.account && a.cid == b.cid && a.quantity == b.quantity && a.attempts == b.attempts
  }

  /** The second half of a call keeps identity and attempts, and writes no status from which an order can be sent. */
  lemma ResumedFrame(kind: CallKind, o: Order, outcome: Outcome)
    ensures SameOrder(Resumed(kind, o, outcome), o) && !Unsent(Resumed(kind, o, outcome).status)
  {
  }

  lemma MetaFrame(o: Order, meta: Meta)
    ensures SameOrder(WithMeta(o, meta), o) && WithMeta(o, meta).status == o.status
  {
  }

  lemma TransitionFrame(o: Order, to: Status, meta: Meta)
    ensures Transition(o, to, meta).Some? ==>
              SameOrder(Transition(o, to, meta).value, o) && Transition(o, to, meta).value.status == to
    ensures Transition(o, to, meta).Some? && Unsent(to) ==> Unsent(o.status)
  {
    MetaFrame(o.(status := to), meta);
    hide WithMeta;
  }

  lemma BeginFrame(o: Order)
    ensures SubmitBegin(o).Some? ==>
        Unsent(o.status) && SubmitBegin(o).value == o.(status := Submitted, attempts := o.attempts + 1)
    ensures SameOrder(ReconcileBegin(o), o) && (Unsent(ReconcileBegin(o).status) ==> Unsent(o.status))
    ensures SameOrder(CancelBegin(o), o) && !Unsent(CancelBegin(o).status)
  {
  }

  /** Steps only add records, and only `CallSubmit` adds an attempt; no write leads back to an unsent status. */
  lemma StepFrame(s: Sys, step: Step, capacity: nat)
    requires Enabled(s, step)
    ensures var t := Next(s, step, capacity);
            && |s.recs| <= |t.recs|
            && (forall r | 0 <= r < |s.recs| && step != CallSubmit(r) ::
                  t.recs[r].attempts == s.recs[r].attempts && (Unsent(t.recs[r].status) ==> Unsent(s.recs[r].status)))
            && (forall r | |s.recs| <= r < |t.recs| :: t.recs[r].attempts == 0)
            && (step.CallSubmit? ==> Unsent(s.recs[step.rec].status) && !Unsent(t.recs[step.rec].status)
                                     && t.recs[step.rec].attempts == s.recs[step.rec].attempts + 1)
  {
    hide Filed, RegPruned, Lookup, Resumed, Transition, SubmitBegin, ReconcileBegin, CancelBegin;
    match step
    case MoveTo(r, to, meta) => TransitionFrame(s.recs[r], to, meta);
    case CallSubmit(r) => BeginFrame(s.recs[r]);
    case CallReconcile(r) => BeginFrame(s.recs[r]);
    case CallCancel(r) => BeginFrame(s.recs[r]);
    case Return(c, outcome) => ResumedFrame(s.calls[c].kind, s.recs[s.calls[c].rec], outcome);
    case _ =>
  }

  lemma SentOnceStep(s: Sys, step: Step, capacity: nat)
    requires SentOnce(s) && Enabled(s, step)
    ensures SentOnce(Next(s, step, capacity))
  {
    StepFrame(s, step, capacity);
    CallFrame(s, step, capacity);
    hide Next, Enabled, Unsent;
    var t := Next(s, step, capacity);
    SubmitsStayApart(s, step, t);
    hide IsSubmitOf;
    forall r | 0 <= r < |t.recs|
      ensures t.recs[r].attempts <= 1 && (Unsent(t.recs[r].status) ==> t.recs[r].attempts == 0)
    {
      if r < |s.recs| { assert Unsent(s.recs[r].status) ==> s.recs[r].attempts == 0; }
    }
  }

  lemma SubmitsStayApart(s: Sys, step: Step, t: Sys)
    requires SentOnce(s) && |s.calls| <= |t.calls| <= |s.calls| + 1
    requires forall c | 0 <= c < |s.calls| :: t.calls[c].kind == s.calls[c].kind && t.calls[c].rec == s.calls[c].rec
    requires |t.calls| > |s.calls| ==> var p := t.calls[|s.calls|];
               p.rec < |s.recs| && (p.kind.Submitting? ==> Unsent(s.recs[p.rec].status))
    ensures forall c, d | 0 <= c < d < |t.calls| && t.calls[c].kind == Submitting ::
              !IsSubmitOf(t.calls[d], t.calls[c].rec)
  {
    hide Unsent;
    forall c, d | 0 <= c < d < |t.calls| && t.calls[c].kind == Submitting
      ensures !IsSubmitOf(t.calls[d], t.calls[c].rec)
    {
      assert s.calls[c].kind.Submitting?;
      if d < |s.calls| { assert !IsSubmitOf(s.calls[d], s.calls[c].rec); }
    }
  }

  lemma {:induction false} SentOnceRun(s: Sys, steps: seq<Step>, capacity: nat)
    requires SentOnce(s) && Runs(s, steps, capacity)
    ensures SentOnce(End(s, steps, capacity))
    decreases |steps|
  {
    hide SentOnce, Next, Enabled;
    if steps == [] {
    } else {
      SentOnceStep(s, steps[0], capacity);
      SentOnceRun(Next(s, steps[0], capacity), steps[1..], capacity);
    }
  }

  /** The submissions of a record that have reached the broker. */
  ghost function Sends(s: Sys, r: nat): set<nat> {
    set c | 0 <= c < |s.calls| && IsSubmitOf(s.calls[c], r) && s.calls[c].brokerId.Some?
  }

  /** On every run, whatever the broker answers and however calls interleave, a record reaches it at most once. */
  lemma NoOrderIsResent(steps: seq<Step>, capacity: nat, r: nat)
    requires Runs(INIT, steps, capacity)
    ensures |Sends(End(INIT, steps, capacity), r)| <= 1
  {
    SentOnceRun(INIT, steps, capacity);
    var s := End(INIT, steps, capacity);
    if c :| c in Sends(s, r) {
      forall d | d in Sends(s, r) ensures d == c {
        assert IsSubmitOf(s.calls[c], r) && IsSubmitOf(s.calls[d], r);
      }
      assert Sends(s, r) == {c};
    }
  }

  // ---------------------------------------------------------------- the registry under pruning

  /** Keys name their record's id, and a record that never ended is filed under both its keys. */
  ghost predicate FiledRight(s: Sys) {
    && (forall k | k in s.reg.at :: s.reg.at[k] < |s.recs| && Encodes(k, s.recs[s.reg.at[k]].cid))
    && (forall r | 0 <= r < |s.recs| && Prunable(s.recs[r].status) :: r in s.ended)
    && (forall r | 0 <= r < |s.recs| && r !in s.ended :: Reachable(s, r))
  }

  ghost predicate Reachable(s: Sys, r: nat)
    requires r < |s.recs|
  {
    var key, bare := Key(s.recs[r].account, s.recs[r].cid), s.recs[r].cid;
    key in s.reg.at && s.reg.at[key] == r && bare in s.reg.at && s.reg.at[bare] == r
  }

  /** A record's identity never changes, and records are never dropped. */
  lemma IdentityStep(s: Sys, step: Step, capacity: nat)
    requires Enabled(s, step)
    ensures var t := Next(s, step, capacity);
            && |s.recs| <= |t.recs| && s.ended <= t.ended
            && (forall r | 0 <= r < |s.recs| ::
                  t.recs[r].cid == s.recs[r].cid && t.recs[r].account == s.recs[r].account
                  && t.recs[r].quantity == s.recs[r].quantity)
            && (!step.Create? ==> t.reg == s.reg && |t.recs| == |s.recs|
                                  && forall r | 0 <= r < |s.recs| && Prunable(t.recs[r].status) ::
                                        r in t.ended || Prunable(s.recs[r].status))
  {
    hide Filed, RegPruned, Lookup, Resumed, Transition, SubmitBegin, ReconcileBegin, CancelBegin, Unsent;
    match step
    case MoveTo(r, to, meta) => TransitionFrame(s.recs[r], to, meta);
    case CallSubmit(r) => BeginFrame(s.recs[r]);
    case CallReconcile(r) => BeginFrame(s.recs[r]);
    case CallCancel(r) => BeginFrame(s.recs[r]);
    case Return(c, outcome) => ResumedFrame(s.calls[c].kind, s.recs[s.calls[c].rec], outcome);
    case _ =>
  }

  /** Filing under either branch of `create_intent` disturbs no key that survived the pruning. */
  lemma FiledKeeps(reg: Registry<nat>, account: string, cid: Uuid, n: nat)
    ensures var f := Filed(reg, account, cid, n);
            && (forall k | k in reg.at :: k in f.at && f.at[k] == reg.at[k])
            && (forall k | k in f.at && k !in reg.at ::
                  (k == Key(account, cid) || k == cid) && f.at[k] == GetOr(Lookup(reg, account, cid), n))
            && (Lookup(reg, account, cid).None? ==> Key(account, cid) in f.at && cid in f.at
                                                    && f.at[Key(account, cid)] == n && f.at[cid] == n)
  {}

  lemma CreateStep(s: Sys, step: Step, capacity: nat)
    requires step.Create?
    ensures var reg, t := RegPruned(s, capacity), Next(s, step, capacity);
            && t.reg == Filed(reg, step.account, step.cid, |s.recs|) && t.ended == s.ended
            && t.calls == s.calls && t.book == s.book
            && t.recs == if Lookup(reg, step.account, step.cid).Some? then s.recs
                         else s.recs + [NewOrder(step.account, step.cid, step.quantity, step.expectedPrice)]
  {}

  /** Every key still names its record's id after a record is found or filed. */
  lemma CreateKeepsEncoding(s: Sys, step: Step, capacity: nat)
    requires FiledRight(s) && step.Create?
    ensures var t := Next(s, step, capacity);
            forall k | k in t.reg.at :: t.reg.at[k] < |t.recs| && Encodes(k, t.recs[t.reg.at[k]].cid)
  {
    var reg, t := RegPruned(s, capacity), Next(s, step, capacity);
    PrunedKeeps(s.reg, StatusMap(s), capacity);
    FiledKeeps(reg, step.account, step.cid, |s.recs|);
    KeyEncodes(step.account, step.cid);
    CreateStep(s, step, capacity);
    if Lookup(reg, step.account, step.cid).Some? { FoundHasId(s, reg, step.account, step.cid); }
    hide Filed, Pruned, Encodes, Key, Next, Lookup, Reachable, Prunable;
    forall k | k in t.reg.at ensures t.reg.at[k] < |t.recs| && Encodes(k, t.recs[t.reg.at[k]].cid) {
      if k in reg.at { assert k in s.reg.at && Encodes(k, s.recs[s.reg.at[k]].cid); }
    }
  }

  lemma CreateKeepsFiled(s: Sys, step: Step, capacity: nat)
    requires FiledRight(s) && step.Create?
    ensures FiledRight(Next(s, step, capacity))
  {
    var reg, t := RegPruned(s, capacity), Next(s, step, capacity);
    PrunedKeeps(s.reg, StatusMap(s), capacity);
    FiledKeeps(reg, step.account, step.cid, |s.recs|);
    CreateKeepsEncoding(s, step, capacity);
    CreateStep(s, step, capacity);
    hide Filed, Pruned, Encodes, Key, Next, Lookup, Reachable;
    forall r | 0 <= r < |t.recs| && r !in t.ended ensures Reachable(t, r) {
      if r < |s.recs| { StaysReachable(s, reg, t, r); }
      else { NewIsReachable(s, reg, step, t); }
    }
  }

  lemma NewIsReachable(s: Sys, reg: Registry<nat>, step: Step, t: Sys)
    requires step.Create? && t.recs == s.recs + [NewOrder(step.account, step.cid, step.quantity, step.expectedPrice)]
    requires var key := Key(step.account, step.cid);
             key in t.reg.at && step.cid in t.reg.at && t.reg.at[key] == |s.recs| && t.reg.at[step.cid] == |s.recs|
    ensures Reachable(t, |s.recs|)
  {}

  lemma StaysReachable(s: Sys, reg: Registry<nat>, t: Sys, r: nat)
    requires FiledRight(s) && r < |s.recs| <= |t.recs| && r !in s.ended && t.recs[r] == s.recs[r]
    requires forall k | k in s.reg.at && !(k in StatusMap(s) && Prunable(StatusMap(s)[k])) ::
               k in reg.at && reg.at[k] == s.reg.at[k]
    requires forall k | k in reg.at :: k in t.reg.at && t.reg.at[k] == reg.at[k]
    ensures Reachable(t, r)
  {
    hide Key, Encodes, Prunable;
    assert Reachable(s, r) && !Prunable(s.recs[r].status);
  }

  lemma FoundHasId(s: Sys, reg: Registry<nat>, account: string, cid: Uuid)
    requires FiledRight(s) && Lookup(reg, account, cid).Some?
    requires forall k | k in reg.at :: k in s.reg.at && reg.at[k] == s.reg.at[k]
    ensures var r := Lookup(reg, account, cid).value; r < |s.recs| && s.recs[r].cid == cid
  {
    var k := if Key(account, cid) in reg.at then Key(account, cid) else cid;
    assert k in s.reg.at;
    KeyEncodes(account, cid);
    EncodesOne(k, cid, s.recs[s.reg.at[k]].cid);
  }

  lemma FiledRightStep(s: Sys, step: Step, capacity: nat)
    requires FiledRight(s) && Enabled(s, step)
    ensures FiledRight(Next(s, step, capacity))
  {
    if step.Create? {
      CreateKeepsFiled(s, step, capacity);
    } else {
      IdentityStep(s, step, capacity);
      hide Next, Encodes, Key;
      var t := Next(s, step, capacity);
      forall r | 0 <= r < |t.recs| && r !in t.ended ensures Reachable(t, r) { assert Reachable(s, r); }
    }
  }

  lemma {:induction false} FiledRightRun(s: Sys, steps: seq<Step>, capacity: nat)
    requires FiledRight(s) && Runs(s, steps, capacity)
    ensures FiledRight(End(s, steps, capacity))
    decreases |steps|
  {
    hide FiledRight, Next, Enabled;
    if steps == [] {
    } else {
      FiledRightStep(s, steps[0], capacity);
      FiledRightRun(Next(s, steps[0], capacity), steps[1..], capacity);
    }
  }

  /** Asking again for the id of an order that never ended returns it, whatever the new quantity and price. */
  lemma AskAgain(s: Sys, capacity: nat, r: nat)
    requires FiledRight(s) && r < |s.recs| && r !in s.ended
    ensures var o := s.recs[r];
            && Reachable(s, r) && Lookup(RegPruned(s, capacity), o.account, o.cid) == Some(r)
            && forall q, p :: Next(s, Create(o.account, o.cid, q, p), capacity).recs == s.recs
  {
    PrunedKeeps(s.reg, StatusMap(s), capacity);
    var o := s.recs[r];
    assert Reachable(s, r) && !Prunable(o.status);
    hide Pruned, Key;
    forall q, p ensures Next(s, Create(o.account, o.cid, q, p), capacity).recs == s.recs {
      CreateStep(s, Create(o.account, o.cid, q, p), capacity);
    }
  }

  /**
    On every run: each key names its record's id; an order that never ended is found under both its
    keys; asking again for its id returns that record and changes no record; and no other such order
    shares its id.
  */
  lemma RegistrySurvivesPruning(steps: seq<Step>, capacity: nat, r: nat)
    requires Runs(INIT, steps, capacity)
    requires r < |End(INIT, steps, capacity).recs| && r !in End(INIT, steps, capacity).ended
    ensures var s := End(INIT, steps, capacity); var o := s.recs[r];
            && (forall k | k in s.reg.at :: s.reg.at[k] < |s.recs| && Encodes(k, s.recs[s.reg.at[k]].cid))
            && Reachable(s, r)
            && Lookup(RegPruned(s, capacity), o.account, o.cid) == Some(r)
            && (forall q, p :: Next(s, Create(o.account, o.cid, q, p), capacity).recs == s.recs)
            && (forall r' | 0 <= r' < |s.recs| && r' !in s.ended && s.recs[r'].cid == o.cid :: r' == r)
  {
    FiledRightRun(INIT, steps, capacity);
    var s := End(INIT, steps, capacity);
    AskAgain(s, capacity, r);
    hide Next, Pruned, Lookup, Key, Encodes;
    forall r' | 0 <= r' < |s.recs| && r' !in s.ended && s.recs[r'].cid == s.recs[r].cid
      ensures r' == r
    {
      assert Reachable(s, r');
    }
  }

  lemma RunNil(s: Sys, capacity: nat)
    ensures Runs(s, [], capacity) && End(s, [], capacity) == s
  {}

  lemma RunCons(s: Sys, step: Step, t: Sys, later: seq<Step>, capacity: nat) returns (steps: seq<Step>)
    requires Enabled(s, step) && t == Next(s, step, capacity) && Runs(t, later, capacity)
    ensures steps == [step] + later && Runs(s, steps, capacity) && End(s, steps, capacity) == End(t, later, capacity)
  {
    steps := [step] + later;
    assert steps[0] == step && steps[1..] == later;
  }

  // ---------------------------------------------------------------- the paper broker's book

  /** `PaperBrokerAdapter.submit_order`: a full fill, or half of it when there is more than one to fill. */
  predicate PaperFill(quantity: int, e: Entry) {
    || (e.status == Filled && e.fillQuantity == quantity)
    || (e.status == PartiallyFilled && quantity > 1 && e.fillQuantity == quantity / 2)
  }

  function PlacedReply(bid: string, e: Entry): Reply {
    Reply(Some(bid), Some(e.status), Some(Sent(e.fillPrice)), Some(Sent(e.fillQuantity)))
  }

  /** The reply gives the entry's price and quantity. */
  predicate Tells(reply: Reply, e: Entry) {
    && reply.fillPrice.Some? && reply.fillPrice.value.parsed == Some(e.fillPrice)
    && reply.fillQuantity.Some? && reply.fillQuantity.value.parsed == Some(e.fillQuantity)
  }

  /** `query_order`. */
  function QueryReply(book: map<string, Entry>, bid: string): Reply {
    if bid in book then PlacedReply(bid, book[bid]) else Reply(Some(bid), Some(Unknown), None, None)
  }

  /** `cancel_order`: a fill wins over the cancel; the answer then carries no quantity. */
  function CancelReply(book: map<string, Entry>, bid: string): Reply {
    if bid !in book then Reply(None, Some(Rejected), None, None)
    else if book[bid].status in {Filled, PartiallyFilled} then
      Reply(None, Some(book[bid].status), Some(Sent(book[bid].fillPrice)), None)
    else Reply(None, Some(Cancelled), None, None)
  }

  function CancelBook(book: map<string, Entry>, bid: string): map<string, Entry> {
    if bid in book && book[bid].status !in {Filled, PartiallyFilled} then book[bid := book[bid].(status := Cancelled)]
    else book
  }

  /** `_orders` of the paper broker. */
  class PaperBroker {
    var book: map<string, Entry>

    constructor ()
      ensures book == map[]
    {
      book := map[];
    }

    /** The random broker id, fill price and partial-fill draw are parameters. */
    method SubmitOrder(quantity: int, bid: string, fillPrice: real, drawPartial: bool) returns (reply: Reply)
      modifies this
      ensures exists e | PaperFill(quantity, e) :: book == old(book)[bid := e] && reply == PlacedReply(bid, e)
      ensures bid in book && book[bid].fillPrice == fillPrice
      ensures || (book[bid].status == Filled && book[bid].fillQuantity == quantity)
              || (drawPartial && quantity > 1 && book[bid].status == PartiallyFilled
                  && book[bid].fillQuantity == quantity / 2)
      ensures drawPartial && quantity > 1 ==> book[bid].status == PartiallyFilled
      ensures reply.brokerId == Some(bid) && reply.status == Some(book[bid].status) && Tells(reply, book[bid])
    {
      var isPartial := drawPartial && quantity > 1;
      var fillQuantity := if isPartial then quantity / 2 else quantity;
      var e := Entry(if isPartial then PartiallyFilled else Filled, fillPrice, fillQuantity);
      book := book[bid := e];
      reply := Reply(Some(bid), Some(e.status), Some(Sent(fillPrice)), Some(Sent(fillQuantity)));
      assert PaperFill(quantity, e);
    }

    method QueryOrder(bid: string) returns (reply: Reply)
      ensures reply == QueryReply(book, bid)
      ensures bid in book ==> reply.status == Some(book[bid].status) && Tells(reply, book[bid])
      ensures bid !in book ==> reply.status == Some(Unknown) && reply.fillPrice.None? && reply.fillQuantity.None?
    {
      if bid in book {
        reply := Reply(Some(bid), Some(book[bid].status), Some(Sent(book[bid].fillPrice)),
            Some(Sent(book[bid].fillQuantity)));
      } else {
        reply := Reply(Some(bid), Some(Unknown), None, None);
      }
    }

    method CancelOrder(bid: string) returns (reply: Reply)
      modifies this
      ensures reply == CancelReply(old(book), bid)
      ensures book == CancelBook(old(book), bid)
      ensures bid !in old(book) ==> reply.status == Some(Rejected) && book == old(book)
      ensures bid in old(book) && old(book)[bid].status in {Filled, PartiallyFilled} ==>
                && book == old(book) && reply.status == Some(book[bid].status) && reply.fillQuantity.None?
                && reply.fillPrice.Some? && reply.fillPrice.value.parsed == Some(book[bid].fillPrice)
      ensures bid in old(book) && old(book)[bid].status !in {Filled, PartiallyFilled} ==>
                reply.status == Some(Cancelled) && book == old(book)[bid := old(book)[bid].(status := Cancelled)]
    {
      if bid !in book { return Reply(None, Some(Rejected), None, None); }
      if book[bid].status == Filled || book[bid].status == PartiallyFilled {
        return Reply(None, Some(book[bid].status), Some(Sent(book[bid].fillPrice)), None);
      }
      book := book[bid := book[bid].(status := Cancelled)];
      reply := Reply(None, Some(Cancelled), None, None);
    }
  }

  /**
    The steps of a run of create, submit, reconcile and cancel against the paper broker.  Only a
    submission is under a timeout, and the paper broker's query and cancel always answer.
  */
  ghost predicate PaperStep(s: Sys, step: Step) {
    && Enabled(s, step)
    && match step
       case MoveTo(_, _, _) => false
       case Place(c, bid, e) =>
         var p := s.calls[c];
         p.live && bid != "" && bid !in s.book && p.rec < |s.recs| && PaperFill(s.recs[p.rec].quantity, e)
       case Return(c, outcome) =>
         var p := s.calls[c];
         && (!p.kind.Submitting? ==> outcome.Answer?)
         && (outcome.Answer? ==>
           && p.brokerId.Some?
           && outcome.reply == (if p.kind.Cancelling? then CancelReply(s.book, p.brokerId.value)
                                else QueryReply(s.book, p.brokerId.value)))
       case _ => true
  }

  ghost predicate PaperRun(s: Sys, steps: seq<Step>, capacity: nat)
    decreases |steps|
  {
    steps != [] ==> PaperStep(s, steps[0]) && PaperRun(Next(s, steps[0], capacity), steps[1..], capacity)
  }

  lemma {:induction false} PaperRunRuns(s: Sys, steps: seq<Step>, capacity: nat)
    requires PaperRun(s, steps, capacity)
    ensures Runs(s, steps, capacity)
    decreases |steps|
  {
    hide Next;
    if steps == [] {
    } else {
      PaperRunRuns(Next(s, steps[0], capacity), steps[1..], capacity);
    }
  }

  /** A live cancel of a record. */
  ghost predicate BeingCancelled(s: Sys, r: nat) {
    exists c :: 0 <= c < |s.calls| && s.calls[c].live && s.calls[c].kind.Cancelling? && s.calls[c].rec == r
  }

  /**
    A record that carries a broker id has the book's fill, at the book's price, the slippage of that price against the
    one expected, and the book's status unless a cancel of it is under way.
  */
  ghost predicate RecordAgrees(s: Sys, r: nat)
    requires r < |s.recs|
  {
    var o := s.recs[r];
    if o.brokerId.None? then o.slippage.None?
    else
      && o.HasBrokerId() && o.brokerId.value in s.book
      && var e := s.book[o.brokerId.value];
      && PaperFill(o.quantity, e) && o.fillQuantity == e.fillQuantity && o.fillPrice == Some(e.fillPrice)
      && o.slippage == (if o.expectedPrice.Some? then Some(e.fillPrice - o.expectedPrice.value) else None)
      && (o.status == e.status || (o.status == CancelPending && BeingCancelled(s, r)))
  }

  /** What each live call knows of its record and of the book. */
  ghost predicate CallAgrees(s: Sys, p: Pending)
    requires p.rec < |s.recs|
  {
    p.live ==>
      match p.kind
      case Querying => false
      case Cancelling => p.brokerId.Some? && p.brokerId == s.recs[p.rec].brokerId
      case Submitting =>
        && s.recs[p.rec].brokerId.None?
        && (p.brokerId.Some? ==> p.brokerId.value != "" && p.brokerId.value in s.book
                                 && PaperFill(s.recs[p.rec].quantity, s.book[p.brokerId.value]))
  }

  ghost predicate Agreement(s: Sys) {
    && SentOnce(s)
    && (forall c | 0 <= c < |s.calls| :: CallAgrees(s, s.calls[c]))
    && (forall r | 0 <= r < |s.recs| :: RecordAgrees(s, r))
    && (forall r | 0 <= r < |s.recs| && Unsent(s.recs[r].status) :: s.recs[r].brokerId.None?)
  }

  /** Nothing of what `RecordAgrees` speaks of changed for this record. */
  lemma RecordStands(s: Sys, t: Sys, r: nat)
    requires r < |s.recs| && r < |t.recs| && RecordAgrees(s, r) && t.recs[r] == s.recs[r]
    requires s.recs[r].brokerId.Some? && s.recs[r].brokerId.value in s.book ==>
               s.recs[r].brokerId.value in t.book
                   && t.book[s.recs[r].brokerId.value] == s.book[s.recs[r].brokerId.value]
    requires |s.calls| <= |t.calls|
    requires forall c | 0 <= c < |s.calls| && s.calls[c].kind.Cancelling? && s.calls[c].rec == r ::
               t.calls[c] == s.calls[c]
    ensures RecordAgrees(t, r)
  {
    if BeingCancelled(s, r) {
      var c :| 0 <= c < |s.calls| && s.calls[c].live && s.calls[c].kind.Cancelling? && s.calls[c].rec == r;
      assert t.calls[c] == s.calls[c];
    }
  }

  /** What the first half of a call does to the one record and the call list. */
  lemma CallStep(s: Sys, step: Step, capacity: nat)
    requires Agreement(s) && Enabled(s, step) && (step.CallSubmit? || step.CallReconcile? || step.CallCancel?)
    ensures var t, r := Next(s, step, capacity), step.rec;
            && t.book == s.book && |t.recs| == |s.recs| && s.calls <= t.calls
            && (forall q | 0 <= q < |s.recs| && q != r :: t.recs[q] == s.recs[q])
            && t.recs[r].brokerId == s.recs[r].brokerId && t.recs[r].quantity == s.recs[r].quantity
            && t.recs[r].fillQuantity == s.recs[r].fillQuantity && t.recs[r].fillPrice == s.recs[r].fillPrice
            && t.recs[r].expectedPrice == s.recs[r].expectedPrice && t.recs[r].slippage == s.recs[r].slippage
            && (s.recs[r].brokerId.Some? ==>
                  if step.CallCancel? then
                    t.recs[r].status == CancelPending
                    && t.calls == s.calls + [Pending(Cancelling, r, s.recs[r].brokerId, true)]
                  else t == s)
            && (s.recs[r].brokerId.None? ==>
                t.calls == if step.CallSubmit? then s.calls + [Pending(Submitting, r, None, true)] else s.calls)
  {
    assert RecordAgrees(s, step.rec);
  }

  /** The record a call is about: a cancel under way is the only thing that may set it apart from the book. */
  lemma CalledRecordAgrees(s: Sys, t: Sys, step: Step)
    requires (step.CallSubmit? || step.CallReconcile? || step.CallCancel?)
    requires var r := step.rec;
             && r < |s.recs| == |t.recs| && RecordAgrees(s, r) && t.book == s.book && s.calls <= t.calls
             && t.recs[r].brokerId == s.recs[r].brokerId && t.recs[r].quantity == s.recs[r].quantity
             && t.recs[r].fillQuantity == s.recs[r].fillQuantity && t.recs[r].fillPrice == s.recs[r].fillPrice
             && t.recs[r].expectedPrice == s.recs[r].expectedPrice && t.recs[r].slippage == s.recs[r].slippage
             && (s.recs[r].brokerId.Some? ==>
                   if step.CallCancel? then
                     t.recs[r].status == CancelPending
                     && t.calls == s.calls + [Pending(Cancelling, r, s.recs[r].brokerId, true)]
                   else t == s)
    ensures RecordAgrees(t, step.rec)
  {
    if s.recs[step.rec].brokerId.Some? && step.CallCancel? { assert t.calls[|s.calls|].rec == step.rec; }
  }

  lemma AgreementCall(s: Sys, step: Step, capacity: nat)
    requires Agreement(s) && Enabled(s, step) && (step.CallSubmit? || step.CallReconcile? || step.CallCancel?)
    ensures Agreement(Next(s, step, capacity))
  {
    SentOnceStep(s, step, capacity);
    StepFrame(s, step, capacity);
    CallFrame(s, step, capacity);
    CallStep(s, step, capacity);
    hide Next, SentOnce, Enabled;
    var t, r := Next(s, step, capacity), step.rec;
    CalledRecordAgrees(s, t, step);
    assert RecordAgrees(s, r);
    hide RecordAgrees;
    forall q | 0 <= q < |t.recs| && q != r ensures RecordAgrees(t, q) { RecordStands(s, t, q); }
    forall c | 0 <= c < |t.calls| ensures CallAgrees(t, t.calls[c]) {
      if c < |s.calls| { assert t.calls[c] == s.calls[c] && CallAgrees(s, s.calls[c]); SentOnceRecs(s, c); }
    }
  }

  lemma SentOnceRecs(s: Sys, c: nat)
    requires SentOnce(s) && c < |s.calls|
    ensures s.calls[c].rec < |s.recs|
  {}

  lemma AgreementCreate(s: Sys, step: Step, capacity: nat)
    requires Agreement(s) && step.Create?
    ensures Agreement(Next(s, step, capacity))
  {
    SentOnceStep(s, step, capacity);
    CreateStep(s, step, capacity);
    hide Next, SentOnce, Filed, Lookup, RegPruned;
    var t := Next(s, step, capacity);
    forall r | 0 <= r < |t.recs| ensures RecordAgrees(t, r) { if r < |s.recs| { RecordStands(s, t, r); } }
    forall c | 0 <= c < |t.calls| ensures t.calls[c].rec < |t.recs| && CallAgrees(t, t.calls[c]) {
      SentOnceRecs(s, c);
      assert CallAgrees(s, s.calls[c]);
    }
  }

  lemma AgreementPlace(s: Sys, step: Step, capacity: nat)
    requires Agreement(s) && PaperStep(s, step) && step.Place?
    ensures Agreement(Next(s, step, capacity))
  {
    SentOnceStep(s, step, capacity);
    var t := Next(s, step, capacity);
    assert t.recs == s.recs && t.book == s.book[step.brokerId := step.entry];
    assert t.calls == s.calls[step.call := s.calls[step.call].(brokerId := Some(step.brokerId))];
    hide Next, SentOnce;
    forall r | 0 <= r < |t.recs| ensures RecordAgrees(t, r) { RecordStands(s, t, r); }
    forall c | 0 <= c < |t.calls|
      ensures CallAgrees(t, t.calls[c])
    {
      SentOnceRecs(s, c);
      assert CallAgrees(s, s.calls[c]);
    }
  }

  /** What the broker's answer, or its absence, does to the one record. */
  lemma ReturnStep(s: Sys, step: Step, capacity: nat)
    requires Agreement(s) && PaperStep(s, step) && step.Return?
    ensures var t, p := Next(s, step, capacity), s.calls[step.call];
            && t.book == s.book && |t.recs| == |s.recs| && t.calls == s.calls[step.call := p.(live := false)]
            && (forall q | 0 <= q < |s.recs| && q != p.rec :: t.recs[q] == s.recs[q])
            && p.rec < |s.recs| && t.recs[p.rec] == Resumed(p.kind, s.recs[p.rec], step.outcome)
            && t.recs[p.rec].quantity == s.recs[p.rec].quantity && !Unsent(t.recs[p.rec].status)
            && (p.kind.Cancelling? ==> t.recs[p.rec].brokerId == s.recs[p.rec].brokerId)
            && !p.kind.Querying?
  {
    var p := s.calls[step.call];
    assert CallAgrees(s, p) && RecordAgrees(s, p.rec);
  }

  lemma AgreementReturn(s: Sys, step: Step, capacity: nat)
    requires Agreement(s) && PaperStep(s, step) && step.Return?
    ensures Agreement(Next(s, step, capacity))
  {
    SentOnceStep(s, step, capacity);
    ReturnStep(s, step, capacity);
    ReturnedRecordAgrees(s, step, capacity);
    var t, p := Next(s, step, capacity), s.calls[step.call];
    hide Next;
    forall c | 0 <= c < |t.calls| ensures CallAgrees(t, t.calls[c]) {
      assert CallAgrees(s, s.calls[c]);
      if c != step.call && s.calls[c].kind.Submitting? && p.kind.Submitting? {
        assert IsSubmitOf(p, p.rec) && IsSubmitOf(s.calls[c], s.calls[c].rec);
      }
      if s.calls[c].rec == p.rec { assert CallAgrees(s, p); }
    }
    forall r | 0 <= r < |t.recs| && r != p.rec ensures RecordAgrees(t, r) { RecordStands(s, t, r); }
  }

  lemma ReturnedRecordAgrees(s: Sys, step: Step, capacity: nat)
    requires Agreement(s) && PaperStep(s, step) && step.Return?
    ensures s.calls[step.call].rec < |Next(s, step, capacity).recs|
    ensures RecordAgrees(Next(s, step, capacity), s.calls[step.call].rec)
  {
    hide Next, Resumed, Agreement, PaperStep, PaperFill;
    ReturnStep(s, step, capacity);
    ReturnedFields(s, step);
  }

  /** What a returning call leaves in its record, against what it knows of the book. */
  lemma ReturnedFields(s: Sys, step: Step)
    requires Agreement(s) && PaperStep(s, step) && step.Return?
    ensures var p := s.calls[step.call]; var o := s.recs[p.rec]; var a := Resumed(p.kind, o, step.outcome);
            && RecordAgrees(s, p.rec)
            && (p.kind.Submitting? && !step.outcome.Answer? ==> a.brokerId.None? && a.slippage.None?)
            && (p.kind.Submitting? && step.outcome.Answer? ==>
                  && p.brokerId.Some? && a.HasBrokerId() && a.brokerId == p.brokerId && p.brokerId.value in s.book
                  && var e := s.book[p.brokerId.value];
                  && PaperFill(a.quantity, e) && a.fillQuantity == e.fillQuantity && a.fillPrice == Some(e.fillPrice)
                  && a.slippage == (if a.expectedPrice.Some? then Some(e.fillPrice - a.expectedPrice.value) else None)
                  && a.status == e.status)
            && (!p.kind.Submitting? ==>
                  && o.brokerId.Some? && o.brokerId.value in s.book
                  && a == o.(status := s.book[o.brokerId.value].status))
  {
    var p := s.calls[step.call];
    var o := s.recs[p.rec];
    assert CallAgrees(s, p) && RecordAgrees(s, p.rec);
    if step.outcome.Answer? {
      if p.kind.Submitting? { SubmittedAgrees(o, p.brokerId.value, s.book[p.brokerId.value]); }
      else { CancelFindsFill(o, s.book, p.brokerId.value); }
    } else {
      NotAnswered(o, step.outcome);
    }
    hide SubmitEnd, CancelEnd, ReconcileEnd, CancelReply, SentOnce, BeingCancelled;
  }

  /** What an answered submission writes. */
  lemma SubmittedAgrees(o: Order, bid: string, e: Entry)
    requires o.slippage.None?
    ensures var a := SubmitEnd(o, Answer(PlacedReply(bid, e)));
            && a.brokerId == Some(bid) && a.quantity == o.quantity && a.expectedPrice == o.expectedPrice
            && a.fillQuantity == e.fillQuantity && a.fillPrice == Some(e.fillPrice)
            && a.slippage == (if o.expectedPrice.Some? then Some(e.fillPrice - o.expectedPrice.value) else None)
            && (e.status in {Filled, PartiallyFilled} ==> a.status == e.status)
  {
  }

  /** A cancel that finds the fill it knows changes the status alone. */
  lemma CancelFindsFill(o: Order, book: map<string, Entry>, bid: string)
    requires bid in book && book[bid].status in {Filled, PartiallyFilled} && o.fillPrice == Some(book[bid].fillPrice)
    ensures CancelEnd(o, Answer(CancelReply(book, bid))) == o.(status := book[bid].status)
  {
  }

  lemma NotAnswered(o: Order, outcome: Outcome)
    requires !outcome.Answer?
    ensures SubmitEnd(o, outcome) == o.(status := if outcome.Timeout? then TimedOut else Unknown)
  {
  }

  lemma {:induction false} AgreementRun(s: Sys, steps: seq<Step>, capacity: nat)
    requires Agreement(s) && PaperRun(s, steps, capacity)
    ensures Runs(s, steps, capacity) && Agreement(End(s, steps, capacity))
    decreases |steps|
  {
    hide Agreement, Next;
    PaperRunRuns(s, steps, capacity);
    if steps == [] {
    } else {
      if steps[0].Place? { AgreementPlace(s, steps[0], capacity); }
      else if steps[0].Return? { AgreementReturn(s, steps[0], capacity); }
      else if steps[0].Create? { AgreementCreate(s, steps[0], capacity); }
      else { AgreementCall(s, steps[0], capacity); }
      AgreementRun(Next(s, steps[0], capacity), steps[1..], capacity);
    }
  }

  /** What agreement says of a record with a broker id. */
  lemma AgreedFill(s: Sys, r: nat)
    requires r < |s.recs| && RecordAgrees(s, r) && s.recs[r].brokerId.Some? && s.recs[r].quantity > 0
    ensures var o := s.recs[r];
            && o.brokerId.value in s.book
            && o.fillQuantity == s.book[o.brokerId.value].fillQuantity && 0 < o.fillQuantity <= o.quantity
            && s.book[o.brokerId.value].status in {Filled, PartiallyFilled}
            && o.fillPrice == Some(s.book[o.brokerId.value].fillPrice)
            && (o.expectedPrice.Some? ==>
                  o.slippage == Some(s.book[o.brokerId.value].fillPrice - o.expectedPrice.value))
            && (!BeingCancelled(s, r) ==> o.status == s.book[o.brokerId.value].status)
  {
    hide BeingCancelled;
  }

  /**
    On every run against the paper broker, in every interleaving: an order that carries a broker id has
    the book's fill quantity, within its own quantity, the book's fill price, when a price was expected the slippage
    between the two, and the book's status once no cancel of it is under way; that status is a fill, so no cancel ever
    hides one.
  */
  lemma LocalAndBrokerAgree(steps: seq<Step>, capacity: nat, r: nat)
    requires PaperRun(INIT, steps, capacity) && Runs(INIT, steps, capacity)
    requires var s := End(INIT, steps, capacity);
             r < |s.recs| && s.recs[r].brokerId.Some? && s.recs[r].quantity > 0
    ensures var s := End(INIT, steps, capacity); var o := s.recs[r];
            && o.brokerId.value in s.book
            && o.fillQuantity == s.book[o.brokerId.value].fillQuantity && 0 < o.fillQuantity <= o.quantity
            && s.book[o.brokerId.value].status in {Filled, PartiallyFilled}
            && o.fillPrice == Some(s.book[o.brokerId.value].fillPrice)
            && (o.expectedPrice.Some? ==>
                  o.slippage == Some(s.book[o.brokerId.value].fillPrice - o.expectedPrice.value))
            && (!BeingCancelled(s, r) ==> o.status == s.book[o.brokerId.value].status)
  {
    hide End, Runs, PaperRun, Agreement, BeingCancelled, RecordAgrees;
    InitAgrees();
    AgreementRun(INIT, steps, capacity);
    AgreementHas(End(INIT, steps, capacity), r);
    AgreedFill(End(INIT, steps, capacity), r);
  }

  lemma InitAgrees()
    ensures Agreement(INIT)
  {
  }

  lemma AgreementHas(s: Sys, r: nat)
    requires Agreement(s) && r < |s.recs|
    ensures RecordAgrees(s, r)
  {
  }
}
