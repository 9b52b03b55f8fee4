/**
  The order manager against the state machine of the runs: a manager and the records it has made represent a state,
  and each of its methods takes that state through one step.
*/
module OrderSimulation {
  import opened Text
  import opened OrderLifecycle
  import opened OrderRegistry
  import opened OrderRuns

  /** Record `i` of the state is object `recs[i]`, and the registries agree key by key. */
  ghost predicate Represents(m: OrderManager, recs: seq<OrderRecord>, s: Sys)
    reads m, recs
  {
    && m.Valid() && SameRegistry(m.Reg(), s.reg, recs)
    && |recs| == |s.recs|
    && (forall i | 0 <= i < |recs| :: recs[i].View() == s.recs[i])
    && (forall i, j | 0 <= i < j < |recs| :: recs[i] != recs[j])
  }

  ghost predicate SameRegistry(a: Registry<OrderRecord>, b: Registry<nat>, recs: seq<OrderRecord>) {
    && a.keys == b.keys && a.at.Keys == b.at.Keys
    && (forall k | k in a.at :: b.at[k] < |recs| && recs[b.at[k]] == a.at[k])
  }

  lemma {:induction false} PopAllAlike(a: Registry<OrderRecord>, b: Registry<nat>, recs: seq<OrderRecord>,
      ks: seq<string>)
    requires SameRegistry(a, b, recs)
    ensures SameRegistry(PopAll(a, ks), PopAll(b, ks), recs)
    decreases |ks|
  {
    if ks == [] {
    } else {
      PopAllAlike(Pop(a, ks[0]), Pop(b, ks[0]), recs, ks[1..]);
    }
  }

  lemma PrunedAlike(a: Registry<OrderRecord>, b: Registry<nat>, recs: seq<OrderRecord>, status: map<string, Status>,
      capacity: nat)
    requires SameRegistry(a, b, recs)
    ensures SameRegistry(Pruned(a, status, capacity), Pruned(b, status, capacity), recs)
  {
    assert |a.at| == |a.at.Keys| == |b.at.Keys| == |b.at|;
    PopAllAlike(a, b, recs, Take(TerminalKeys(a.keys, status), PRUNE_BATCH));
  }

  lemma LookupAlike(a: Registry<OrderRecord>, b: Registry<nat>, recs: seq<OrderRecord>, account: string, cid: Uuid)
    requires SameRegistry(a, b, recs)
    ensures Lookup(a, account, cid).Some? <==> Lookup(b, account, cid).Some?
    ensures Lookup(a, account, cid).Some? ==>
              && Lookup(b, account, cid).value < |recs|
              && recs[Lookup(b, account, cid).value] == Lookup(a, account, cid).value
  {
    hide Key;
  }

  lemma PutAlike(a: Registry<OrderRecord>, b: Registry<nat>, recs: seq<OrderRecord>, k: string, rec: OrderRecord,
      n: nat)
    requires SameRegistry(a, b, recs) && n < |recs| && recs[n] == rec
    ensures SameRegistry(Put(a, k, rec), Put(b, k, n), recs)
  {
  }

  lemma MoreRecords(a: Registry<OrderRecord>, b: Registry<nat>, recs: seq<OrderRecord>, rec: OrderRecord)
    requires SameRegistry(a, b, recs)
    ensures SameRegistry(a, b, recs + [rec])
  {
  }

  lemma FiledAlike(a: Registry<OrderRecord>, b: Registry<nat>, recs: seq<OrderRecord>, account: string, cid: Uuid,
      rec: OrderRecord)
    requires SameRegistry(a, b, recs) && (Lookup(a, account, cid).Some? ==> rec == Lookup(a, account, cid).value)
    ensures Lookup(a, account, cid).Some? <==> Lookup(b, account, cid).Some?
    ensures Lookup(a, account, cid).Some? ==>
        Lookup(b, account, cid).value < |recs| && recs[Lookup(b, account, cid).value] == rec
    ensures SameRegistry(Filed(a, account, cid, rec), Filed(b, account, cid, |recs|),
                         if Lookup(a, account, cid).Some? then recs else recs + [rec])
  {
    LookupAlike(a, b, recs, account, cid);
    var key := Key(account, cid);
    assert key in a.at <==> key in b.at;
    hide Key, Lookup, Put, SameRegistry;
    if Lookup(a, account, cid).Some? {
      PutAlike(a, b, recs, key, rec, Lookup(b, account, cid).value);
    } else {
      MoreRecords(a, b, recs, rec);
      PutAlike(a, b, recs + [rec], key, rec, |recs|);
      PutAlike(Put(a, key, rec), Put(b, key, |recs|), recs + [rec], cid, rec, |recs|);
    }
  }

  /** The state after one record has been written. */
  lemma WriteIsStep(m: OrderManager, recs: seq<OrderRecord>, s: Sys, r: nat, o: Order)
    requires m.Valid() && SameRegistry(m.Reg(), s.reg, recs) && r < |recs| == |s.recs| && recs[r].View() == o
    requires forall i | 0 <= i < |recs| && i != r :: recs[i].View() == s.recs[i]
    requires forall i, j | 0 <= i < j < |recs| :: recs[i] != recs[j]
    ensures Represents(m, recs, Write(s, r, o))
  {
  }

  /** Only the registry and the records are represented, not the calls under way or the broker's book. */
  lemma OthersAreFree(m: OrderManager, recs: seq<OrderRecord>, s: Sys, t: Sys)
    requires Represents(m, recs, s) && t.reg == s.reg && t.recs == s.recs
    ensures Represents(m, recs, t)
  {
  }

  method Start(capacity: nat) returns (m: OrderManager)
    ensures Represents(m, [], INIT) && m.capacity == capacity
  {
    m := new OrderManager(capacity);
  }

  method Create(m: OrderManager, ghost recs: seq<OrderRecord>, ghost s: Sys, account: string, cid: Uuid, quantity: int,
                expectedPrice: Option<real>)
    returns (rec: OrderRecord, ghost recs': seq<OrderRecord>)
    requires Represents(m, recs, s)
    modifies m
    ensures Represents(m, recs', Next(s, Step.Create(account, cid, quantity, expectedPrice), m.capacity))
    ensures rec in recs' && recs <= recs'
  {
    hide Filed, Lookup, Pruned, Next;
    ghost var reg, status, capacity := m.Reg(), m.StatusOf(), m.capacity;
    ghost var step := Step.Create(account, cid, quantity, expectedPrice);
    SameStatuses(m, recs, s);
    PrunedAlike(reg, s.reg, recs, status, capacity);
    rec := m.CreateIntent(account, cid, quantity, expectedPrice);
    FiledAlike(Pruned(reg, status, capacity), RegPruned(s, capacity), recs, account, cid, rec);
    CreateStep(s, step, capacity);
    recs' := if Lookup(Pruned(reg, status, capacity), account, cid).Some? then recs else recs + [rec];
  }

  lemma SameStatuses(m: OrderManager, recs: seq<OrderRecord>, s: Sys)
    requires Represents(m, recs, s)
    ensures m.StatusOf() == StatusMap(s)
  {
  }

  method Transition(m: OrderManager, ghost recs: seq<OrderRecord>, ghost s: Sys, cid: Uuid, to: Status, meta: Meta)
    returns (ok: bool, ghost r: nat)
    requires Represents(m, recs, s)
    modifies recs
    ensures var found := old(Addressed(m.Reg(), m.CidOf(), cid));
            if found.Some? then r < |recs| && recs[r] == found.value else r == |recs|
    ensures ok <==> Enabled(s, MoveTo(r, to, meta)) && (s.recs[r].status == to || Parses(meta))
    ensures Represents(m, recs, if Enabled(s, MoveTo(r, to, meta)) then Next(s, MoveTo(r, to, meta), m.capacity) else s)
  {
    hide Addressed, OrderLifecycle.Transition, Parses;
    ghost var found := Addressed(m.Reg(), m.CidOf(), cid);
    r := |recs|;
    if found.Some? {
      ghost var k := AddressedIsFiled(m.Reg(), m.CidOf(), cid);
      r := s.reg.at[k];
      assert k in m.orders && m.orders[k] == recs[r];
    }
    ok := m.Transition(cid, to, meta);
    assert forall i | 0 <= i < |recs| && i != r :: recs[i].View() == s.recs[i];
    if r < |recs| {
      ghost var moved := OrderLifecycle.Transition(s.recs[r], to, meta);
      assert recs[r].View() == if moved.Some? then moved.value else s.recs[r];
      WriteIsStep(m, recs, s, r, recs[r].View());
      hide Represents, SameRegistry;
    }
  }

  lemma AddressedIsFiled(reg: Registry<OrderRecord>, cidOf: map<string, Uuid>, cid: Uuid) returns (k: string)
    requires Addressed(reg, cidOf, cid).Some?
    ensures k in reg.at && reg.at[k] == Addressed(reg, cidOf, cid).value
  {
    if cid in reg.at { k := cid; } else { k := FirstIsFiled(reg.keys, reg.at, cidOf, cid); }
  }

  lemma {:induction false} FirstIsFiled(keys: seq<string>, at: map<string, OrderRecord>, cidOf: map<string, Uuid>,
      cid: Uuid)
    returns (k: string)
    requires FirstWithId(keys, at, cidOf, cid).Some?
    ensures k in at && at[k] == FirstWithId(keys, at, cidOf, cid).value
    decreases |keys|
  {
    if keys[0] in at && keys[0] in cidOf && cidOf[keys[0]] == cid {
      k := keys[0];
    } else {
      k := FirstIsFiled(keys[1..], at, cidOf, cid);
    }
  }

  method BeginSubmit(m: OrderManager, ghost recs: seq<OrderRecord>, ghost s: Sys, rec: OrderRecord, ghost r: nat)
    returns (ok: bool)
    requires Represents(m, recs, s) && r < |recs| && recs[r] == rec
    modifies rec
    ensures ok <==> Enabled(s, CallSubmit(r))
    ensures Represents(m, recs, if Enabled(s, CallSubmit(r)) then Next(s, CallSubmit(r), m.capacity) else s)
  {
    hide SameRegistry;
    ok := m.BeginSubmit(rec);
    WriteIsStep(m, recs, s, r, rec.View());
    if ok { OthersAreFree(m, recs, Write(s, r, rec.View()), Next(s, CallSubmit(r), m.capacity)); }
  }

  method BeginReconcile(m: OrderManager, ghost recs: seq<OrderRecord>, ghost s: Sys, rec: OrderRecord, ghost r: nat)
    returns (asks: bool)
    requires Represents(m, recs, s) && r < |recs| && recs[r] == rec
    modifies rec
    ensures asks <==> |Next(s, CallReconcile(r), m.capacity).calls| > |s.calls|
    ensures Represents(m, recs, Next(s, CallReconcile(r), m.capacity))
  {
    hide SameRegistry;
    asks := m.BeginReconcile(rec);
    WriteIsStep(m, recs, s, r, ReconcileBegin(s.recs[r]));
    OthersAreFree(m, recs, Write(s, r, ReconcileBegin(s.recs[r])), Next(s, CallReconcile(r), m.capacity));
  }

  method BeginCancel(m: OrderManager, ghost recs: seq<OrderRecord>, ghost s: Sys, rec: OrderRecord, ghost r: nat)
    returns (asks: bool)
    requires Represents(m, recs, s) && r < |recs| && recs[r] == rec
    modifies rec
    ensures asks <==> |Next(s, CallCancel(r), m.capacity).calls| > |s.calls|
    ensures Represents(m, recs, Next(s, CallCancel(r), m.capacity))
  {
    hide SameRegistry;
    asks := m.BeginCancel(rec);
    WriteIsStep(m, recs, s, r, CancelBegin(s.recs[r]));
    OthersAreFree(m, recs, Write(s, r, CancelBegin(s.recs[r])), Next(s, CallCancel(r), m.capacity));
  }

  /** The second half of any of the three calls, when its broker call ends. */
  method Resume(m: OrderManager, ghost recs: seq<OrderRecord>, ghost s: Sys, kind: CallKind, rec: OrderRecord,
      outcome: Outcome, ghost c: nat)
    requires Represents(m, recs, s) && Enabled(s, Return(c, outcome))
    requires s.calls[c].kind == kind && recs[s.calls[c].rec] == rec
    modifies rec
    ensures Represents(m, recs, Next(s, Return(c, outcome), m.capacity))
  {
    hide SameRegistry;
    ghost var r := s.calls[c].rec;
    match kind {
      case Submitting => m.ResumeSubmit(rec, outcome);
      case Querying => m.ResumeReconcile(rec, outcome);
      case Cancelling => m.ResumeCancel(rec, outcome);
    }
    WriteIsStep(m, recs, s, r, Resumed(kind, s.recs[r], outcome));
    OthersAreFree(m, recs, Write(s, r, Resumed(kind, s.recs[r], outcome)), Next(s, Return(c, outcome), m.capacity));
  }
}
