/**
  The in-memory order registry of `OrderManager`: a dictionary in insertion order that files every
  record under an account-scoped key and under its bare client id, and is pruned at capacity.
*/
module OrderRegistry {
  import opened Grouping
  import opened Text
  import opened OrderLifecycle
  import opened OrderOutcomes

  const PRUNE_BATCH := 1000

  /** A Python dict: its keys in insertion order, and what they map to. */
  datatype Registry<R> = Registry(keys: seq<string>, at: map<string, R>)

  function Key(account: string, cid: Uuid): string { account + ":" + cid }

  /** A key names a client order id: it is the bare id, or some account, a colon, and the id. */
  predicate Encodes(key: string, cid: Uuid) {
    key == cid || EndsWith(key, ":" + cid)
  }

  lemma KeyEncodes(account: string, cid: Uuid)
    ensures Encodes(Key(account, cid), cid) && Encodes(cid, cid)
  {
    assert Key(account, cid)[|account|..] == ":" + cid;
  }

  /** The id a key names is what follows its last colon. */
  lemma EncodedId(key: string, cid: Uuid)
    requires Encodes(key, cid)
    ensures cid == match LastIndexOf(key, ':') case None => key case Some(i) => key[i + 1..]
  {
    if key != cid {
      var n := |key| - |cid| - 1;
      assert key[n..] == ":" + cid;
      forall j | n < j < |key| ensures key[j] != ':' { assert key[j] == key[n..][j - n] == cid[j - n - 1]; }
      assert key[n] == key[n..][0] == ':';
      assert LastIndexOf(key, ':') == Some(n);
      assert key[n + 1..] == key[n..][1..] == cid;
    }
  }

  /** A key names one client order id only. */
  lemma EncodesOne(key: string, a: Uuid, b: Uuid)
    requires Encodes(key, a) && Encodes(key, b)
    ensures a == b
  {
    EncodedId(key, a);
    EncodedId(key, b);
  }

  function Without(keys: seq<string>, k: string): seq<string> {
    if keys == [] then []
    else if keys[0] == k then keys[1..]
    else [keys[0]] + Without(keys[1..], k)
  }

  function Pop<R>(reg: Registry<R>, k: string): Registry<R> {
    Registry(Without(reg.keys, k), reg.at - {k})
  }

  function PopAll<R>(reg: Registry<R>, ks: seq<string>): Registry<R>
    decreases |ks|
  {
    if ks == [] then reg else PopAll(Pop(reg, ks[0]), ks[1..])
  }

  function Put<R>(reg: Registry<R>, k: string, r: R): Registry<R> {
    Registry(if k in reg.at then reg.keys else reg.keys + [k], reg.at[k := r])
  }

  /** The keys, in insertion order, whose record may be pruned. */
  function TerminalKeys(keys: seq<string>, status: map<string, Status>): seq<string> {
    if keys == [] then []
    else (if keys[0] in status && Prunable(status[keys[0]]) then [keys[0]] else []) + TerminalKeys(keys[1..], status)
  }

  function Take<T>(s: seq<T>, n: nat): seq<T> { if |s| <= n then s else s[..n] }

  /** The registry after the capacity check at the top of `create_intent`. */
  function Pruned<R>(reg: Registry<R>, status: map<string, Status>, capacity: nat): Registry<R> {
    if |reg.at| >= capacity then PopAll(reg, Take(TerminalKeys(reg.keys, status), PRUNE_BATCH)) else reg
  }

  function Lookup<R>(reg: Registry<R>, account: string, cid: Uuid): Option<R> {
    if Key(account, cid) in reg.at then Some(reg.at[Key(account, cid)])
    else if cid in reg.at then Some(reg.at[cid])
    else None
  }

  /** The registry after `create_intent`; `newcomer` is the record filed when none is found. */
  function Filed<R>(reg: Registry<R>, account: string, cid: Uuid, newcomer: R): Registry<R> {
    match Lookup(reg, account, cid)
    case Some(r) => if Key(account, cid) in reg.at then reg else Put(reg, Key(account, cid), r)
    case None => Put(Put(reg, Key(account, cid), newcomer), cid, newcomer)
  }

  /** The record `transition` acts on: the bare key, else the first value with that id. */
  function Addressed<R>(reg: Registry<R>, cidOf: map<string, Uuid>, cid: Uuid): Option<R> {
    if cid in reg.at then Some(reg.at[cid]) else FirstWithId(reg.keys, reg.at, cidOf, cid)
  }

  function FirstWithId<R>(keys: seq<string>, at: map<string, R>, cidOf: map<string, Uuid>, cid: Uuid): Option<R> {
    if keys == [] then None
    else if keys[0] in at && keys[0] in cidOf && cidOf[keys[0]] == cid then Some(at[keys[0]])
    else FirstWithId(keys[1..], at, cidOf, cid)
  }

  lemma {:induction false} PopAllAt<R>(reg: Registry<R>, ks: seq<string>)
    ensures var p := PopAll(reg, ks);
            forall k :: (k in p.at <==> k in reg.at && k !in ks) && (k in p.at ==> p.at[k] == reg.at[k])
    decreases |ks|
  {
    if ks == [] {
    } else {
      PopAllAt(Pop(reg, ks[0]), ks[1..]);
      assert forall k :: k in ks <==> k == ks[0] || k in ks[1..];
    }
  }

  lemma {:induction false} TerminalKeysAre(keys: seq<string>, status: map<string, Status>)
    ensures forall k :: k in TerminalKeys(keys, status) <==> k in keys && k in status && Prunable(status[k])
    decreases |keys|
  {
    if keys == [] {
    } else {
      TerminalKeysAre(keys[1..], status);
      assert forall k :: k in keys <==> k == keys[0] || k in keys[1..];
    }
  }

  lemma TerminalKeysNone(status: map<string, Status>)
    ensures TerminalKeys([], status) == []
  {}

  lemma TerminalKeysStep(keys: seq<string>, i: nat, status: map<string, Status>)
    requires i < |keys|
    ensures keys[i] in status && Prunable(status[keys[i]]) ==>
              TerminalKeys(keys[i..], status) == [keys[i]] + TerminalKeys(keys[i + 1..], status)
    ensures !(keys[i] in status && Prunable(status[keys[i]])) ==>
              TerminalKeys(keys[i..], status) == TerminalKeys(keys[i + 1..], status)
  {
    assert keys[i..][0] == keys[i] && keys[i..][1..] == keys[i + 1..];
  }

  /** Pruning drops only keys of prunable records, and moves none. */
  lemma PrunedKeeps<R>(reg: Registry<R>, status: map<string, Status>, capacity: nat)
    ensures var p := Pruned(reg, status, capacity);
            && (forall k | k in p.at :: k in reg.at && p.at[k] == reg.at[k])
            && (forall k | k in reg.at && !(k in status && Prunable(status[k])) :: k in p.at)
  {
    TerminalKeysAre(reg.keys, status);
    PopAllAt(reg, Take(TerminalKeys(reg.keys, status), PRUNE_BATCH));
  }

  lemma {:induction false} WithoutIs(keys: seq<string>, k: string)
    requires Distinct(keys)
    ensures Distinct(Without(keys, k))
    ensures forall x :: x in Without(keys, k) <==> x in keys && x != k
    decreases |keys|
  {
    if keys == [] {
    } else {
      assert Distinct(keys[1..]);
      assert forall x :: x in keys <==> x == keys[0] || x in keys[1..];
      WithoutIs(keys[1..], k);
      if keys[0] != k {
        var w := Without(keys[1..], k);
        assert forall j | 0 <= j < |keys| - 1 :: keys[1..][j] == keys[j + 1] != keys[0];
        assert keys[0] !in keys[1..] && keys[0] !in w;
        forall i, j | 0 <= i < j < |[keys[0]] + w| ensures ([keys[0]] + w)[i] != ([keys[0]] + w)[j] {
          if i == 0 { assert ([keys[0]] + w)[j] == w[j - 1]; }
        }
      }
    }
  }

  // ---------------------------------------------------------------- the objects

  class OrderRecord {
    const account: string
    const cid: Uuid
    const quantity: int
    const expectedPrice: Option<real>
    var status: Status
    var brokerId: Option<string>
    var fillPrice: Option<real>
    var fillQuantity: int
    var slippage: Option<real>
    var attempts: nat

    constructor (account: string, cid: Uuid, quantity: int, expectedPrice: Option<real>)
      ensures View() == NewOrder(account, cid, quantity, expectedPrice)
      ensures this.account == account && this.cid == cid
      ensures this.quantity == quantity && this.expectedPrice == expectedPrice
      ensures status == Created && attempts == 0
      ensures brokerId.None? && fillPrice.None? && fillQuantity == 0 && slippage.None?
    {
      this.account, this.cid, this.quantity, this.expectedPrice := account, cid, quantity, expectedPrice;
      status, brokerId, fillPrice, fillQuantity, slippage, attempts := Created, None, None, 0, None, 0;
    }

    function View(): Order
      reads this
    {
      Order(account, cid, quantity, expectedPrice, status, brokerId, fillPrice, fillQuantity, slippage, attempts)
    }

    predicate HasBrokerId()
      reads this
    {
      brokerId.Some? && brokerId.value != ""
    }

    /** The metadata of `transition`, assigned up to the first field that does not parse. */
    method Annotate(meta: Meta) returns (parsed: bool)
      modifies this
      ensures View() == WithMeta(old(View()), meta) && parsed == Parses(meta)
      ensures TakesMeta(old(View()), meta, View())
    {
      MetaIsTaken(View(), meta);
      hide TakesMeta;
      if meta.brokerId.Some? { brokerId := meta.brokerId.value; }
      if meta.fillPrice.Some? {
        if meta.fillPrice.value.parsed.None? { return false; }
        fillPrice := meta.fillPrice.value.parsed;
      }
      if meta.fillQuantity.Some? {
        if meta.fillQuantity.value.parsed.None? { return false; }
        fillQuantity := meta.fillQuantity.value.parsed.value;
      }
      if meta.slippage.Some? {
        if meta.slippage.value.parsed.None? { return false; }
        slippage := meta.slippage.value.parsed;
      }
      parsed := true;
    }

    /** The record given a broker's fill and a status, or the failure status at the first field that does not parse. */
    method TakeFill(r: Reply, newStatus: Status, failed: Status)
      modifies this
      ensures View() == WithFill(old(View()), r, newStatus, failed)
      ensures TakesFill(old(View()), r, newStatus, failed, View())
    {
      FillIsTaken(View(), r, newStatus, failed);
      hide TakesFill;
      status := newStatus;
      if r.fillPrice.Some? && r.fillPrice.value.truthy {
        if r.fillPrice.value.parsed.None? {
          status := failed;
          return;
        }
        fillPrice := r.fillPrice.value.parsed;
      }
      if r.fillQuantity.Some? {
        if r.fillQuantity.value.parsed.None? {
          status := failed;
          return;
        }
        fillQuantity := r.fillQuantity.value.parsed.value;
      }
    }

    /** The part of `transition` that acts on the record found; `false` stands for an exception. */
    method MoveTo(to: Status, meta: Meta) returns (ok: bool)
      modifies this
      ensures var moved := OrderLifecycle.Transition(old(View()), to, meta);
              && ok == (moved.Some? && (old(status) == to || Parses(meta)))
              && View() == if moved.Some? then moved.value else old(View())
      ensures Moves(old(View()), to, meta, ok, View())
    {
      MoveIsMade(View(), to, meta);
      hide Allowed, WithMeta, Parses, Moves;
      ghost var before := View();
      if status == to { return true; }
      if to !in Allowed(status) { return false; }
      status := to;
      assert View() == before.(status := to);
      ok := Annotate(meta);
    }
  }

  class OrderManager {
    var orders: map<string, OrderRecord>
    var keys: seq<string>
    const capacity: nat

    /** The key list lists the dictionary's keys once each. */
    ghost predicate Valid()
      reads this
    {
      Distinct(keys) && forall k :: k in keys <==> k in orders
    }

    function Reg(): Registry<OrderRecord>
      reads this
    {
      Registry(keys, orders)
    }

    ghost function StatusOf(): map<string, Status>
      reads this, orders.Values
    {
      map k | k in orders :: orders[k].status
    }

    ghost function CidOf(): map<string, Uuid>
      reads this, orders.Values
    {
      map k | k in orders :: orders[k].cid
    }

    constructor (capacity: nat)
      ensures Valid() && Reg() == Registry([], map[]) && this.capacity == capacity
    {
      this.capacity := capacity;
      orders, keys := map[], [];
    }

    method ListTerminalKeys() returns (terminalKeys: seq<string>)
      requires Valid()
      ensures terminalKeys == TerminalKeys(keys, StatusOf())
    {
      ghost var status := StatusOf();
      hide TerminalKeys;
      terminalKeys := [];
      TerminalKeysNone(status);
      assert keys[0..] == keys && keys[|keys|..] == [];
      for i := 0 to |keys|
        invariant terminalKeys + TerminalKeys(keys[i..], status) == TerminalKeys(keys, status)
      {
        TerminalKeysStep(keys, i, status);
        assert keys[i] in orders;
        if Prunable(orders[keys[i]].status) {
          Assoc(terminalKeys, [keys[i]], TerminalKeys(keys[i + 1..], status));
          terminalKeys := terminalKeys + [keys[i]];
        }
      }
    }

    method PopBatch(batch: seq<string>)
      requires Valid()
      modifies this
      ensures Valid() && Reg() == PopAll(old(Reg()), batch)
    {
      assert batch[0..] == batch;
      for i := 0 to |batch|
        invariant Valid() && PopAll(Reg(), batch[i..]) == PopAll(old(Reg()), batch)
      {
        assert batch[i..][0] == batch[i] && batch[i..][1..] == batch[i + 1..];
        WithoutIs(keys, batch[i]);
        orders, keys := orders - {batch[i]}, Without(keys, batch[i]);
      }
    }

    method PruneIfFull()
      requires Valid()
      modifies this
      ensures Valid() && Reg() == Pruned(old(Reg()), old(StatusOf()), capacity)
      ensures forall k | k in orders :: k in old(orders)
    {
      PrunedKeeps(Reg(), StatusOf(), capacity);
      if |orders| >= capacity {
        var terminalKeys := ListTerminalKeys();
        PopBatch(Take(terminalKeys, PRUNE_BATCH));
      }
    }

    /** Find or file the record of a client order id, pruning first when the registry is full. */
    method CreateIntent(account: string, cid: Uuid, quantity: int, expectedPrice: Option<real>)
      returns (rec: OrderRecord)
      requires Valid()
      modifies this
      ensures Valid()
      ensures var reg := Pruned(old(Reg()), old(StatusOf()), capacity);
              && Reg() == Filed(reg, account, cid, rec)
              && match Lookup(reg, account, cid)
                 case Some(existing) => rec == existing
                 case None => fresh(rec) && rec.View() == NewOrder(account, cid, quantity, expectedPrice)
    {
      hide Pruned;
      PruneIfFull();
      var key := Key(account, cid);
      if key in orders {
        rec := orders[key];
      } else if cid in orders {
        rec := orders[cid];
        orders, keys := orders[key := rec], keys + [key];
      } else {
        rec := new OrderRecord(account, cid, quantity, expectedPrice);
        assert key != cid by { assert key[|account|] == ':'; }
        orders, keys := orders[key := rec], keys + [key];
        orders, keys := orders[cid := rec], keys + [cid];
      }
    }

    method Address(cid: Uuid) returns (found: Option<OrderRecord>)
      requires Valid()
      ensures found == Addressed(Reg(), CidOf(), cid) && (found.Some? ==> found.value in orders.Values)
    {
      ghost var cids := CidOf();
      if cid in orders { return Some(orders[cid]); }
      assert keys[0..] == keys;
      for i := 0 to |keys|
        invariant FirstWithId(keys[i..], orders, cids, cid) == FirstWithId(keys, orders, cids, cid)
      {
        assert keys[i..][0] == keys[i] && keys[i..][1..] == keys[i + 1..];
        assert keys[i] in orders;
        if orders[keys[i]].cid == cid { return Some(orders[keys[i]]); }
      }
      assert keys[|keys|..] == [];
      found := None;
    }

    /** Move the addressed record along an edge of the table; `false` stands for an exception. */
    method Transition(cid: Uuid, to: Status, meta: Meta) returns (ok: bool)
      requires Valid()
      modifies orders.Values
      ensures Valid()
      ensures old(Addressed(Reg(), CidOf(), cid)).None? ==> !ok
      ensures forall k | k in orders ::
                if old(Addressed(Reg(), CidOf(), cid)) == Some(orders[k]) then
                  var moved := OrderLifecycle.Transition(old(orders[k].View()), to, meta);
                  && ok == (moved.Some? && (old(orders[k].status) == to || Parses(meta)))
                  && orders[k].View() == if moved.Some? then moved.value else old(orders[k].View())
                else unchanged(orders[k])
    {
      var found := Address(cid);
      hide FirstWithId, OrderLifecycle.Transition;
      if found.None? { return false; }
      ok := found.value.MoveTo(to, meta);
    }

    /** `submit` up to its await; `false` stands for the ValueError. */
    method BeginSubmit(rec: OrderRecord) returns (ok: bool)
      modifies rec
      ensures var begun := SubmitBegin(old(rec.View()));
              ok == begun.Some? && rec.View() == if ok then begun.value else old(rec.View())
      ensures BeginsSubmit(old(rec.View()), ok, rec.View())
    {
      if rec.status != Created && rec.status != RiskApproved { return false; }
      rec.status := Submitted;
      rec.attempts := rec.attempts + 1;
      ok := true;
    }

    method ResumeSubmit(rec: OrderRecord, outcome: Outcome)
      modifies rec
      ensures rec.View() == SubmitEnd(old(rec.View()), outcome)
      ensures EndsSubmit(old(rec.View()), outcome, rec.View())
    {
      SubmitEnds(rec.View(), outcome);
      hide EndsSubmit;
      match outcome
      case Timeout => rec.status := TimedOut;
      case Failure => rec.status := Unknown;
      case Answer(r) =>
        rec.brokerId := r.brokerId;
        if Unparsable(r.fillPrice) { rec.status := Unknown; return; }
        var price := if r.fillPrice.Some? then r.fillPrice.value.parsed else None;
        if price.Some? && rec.expectedPrice.Some? { rec.slippage := Some(price.value - rec.expectedPrice.value); }
        rec.fillPrice := price;
        if Unparsable(r.fillQuantity) { rec.status := Unknown; return; }
        rec.fillQuantity := if r.fillQuantity.Some? then r.fillQuantity.value.parsed.value else rec.quantity;
        if r.status == Some(Filled) { rec.status := Filled; }
        else if r.status == Some(PartiallyFilled) { rec.status := PartiallyFilled; }
        else if r.status == Some(Rejected) { rec.status := Rejected; }
        else { rec.status := Acknowledged; }
    }

    /** `reconcile` up to its await; `asks` says whether it queries the broker. */
    method BeginReconcile(rec: OrderRecord) returns (asks: bool)
      modifies rec
      ensures asks == ReconcileAsks(old(rec.View())) && rec.View() == ReconcileBegin(old(rec.View()))
      ensures BeginsReconcile(old(rec.View()), asks, rec.View())
    {
      if rec.status != TimedOut && rec.status != Unknown && rec.status != Reconciling { return false; }
      rec.status := Reconciling;
      if !rec.HasBrokerId() {
        rec.status := Unknown;
        return false;
      }
      asks := true;
    }

    method ResumeReconcile(rec: OrderRecord, outcome: Outcome)
      modifies rec
      ensures rec.View() == ReconcileEnd(old(rec.View()), outcome)
      ensures EndsReconcile(old(rec.View()), outcome, rec.View())
    {
      ReconcileEnds(rec.View(), outcome);
      hide EndsReconcile, TakesFill;
      if !outcome.Answer? { rec.status := Unknown; return; }
      var r := outcome.reply;
      if r.status == Some(Filled) {
        rec.TakeFill(r, Filled, Unknown);
      } else if r.status == Some(PartiallyFilled) {
        rec.status := PartiallyFilled;
      } else if r.status == Some(Rejected) || r.status == Some(Cancelled) {
        rec.status := r.status.value;
      } else {
        rec.status := Unknown;
      }
    }

    /** `cancel` up to its await; `asks` says whether it calls the broker. */
    method BeginCancel(rec: OrderRecord) returns (asks: bool)
      modifies rec
      ensures asks == old(rec.View()).HasBrokerId() && rec.View() == CancelBegin(old(rec.View()))
      ensures BeginsCancel(old(rec.View()), asks, rec.View())
    {
      if !rec.HasBrokerId() {
        rec.status := Cancelled;
        return false;
      }
      rec.status := CancelPending;
      asks := true;
    }

    method ResumeCancel(rec: OrderRecord, outcome: Outcome)
      modifies rec
      ensures rec.View() == CancelEnd(old(rec.View()), outcome)
      ensures EndsCancel(old(rec.View()), outcome, rec.View())
    {
      CancelEnds(rec.View(), outcome);
      hide EndsCancel, TakesFill;
      if !outcome.Answer? { rec.status := Reconciling; return; }
      var r := outcome.reply;
      if r.status == Some(Filled) || r.status == Some(PartiallyFilled) {
        rec.TakeFill(r, r.status.value, Reconciling);
      } else if r.status == Some(Cancelled) {
        rec.status := Cancelled;
      } else {
        rec.status := Reconciling;
      }
    }
  }
}
